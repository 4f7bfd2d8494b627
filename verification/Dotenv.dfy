/** The dotenv printer and parser: what is exported can be imported again exactly when names and values allow it. */
module Dotenv {
  import opened Basics
  import opened Text
  import opened Vaults

  type Pair = (string, string)

  // ---------- export ----------

  /** `str::replace` of one character. */
  function ReplaceChar(s: string, c: char, with: string): string {
    if s == "" then "" else (if s[0] == c then with else [s[0]]) + ReplaceChar(s[1..], c, with)
  }

  /** The two chained replaces: backslashes first, then quotes. */
  function Escaped(value: string): string {
    ReplaceChar(ReplaceChar(value, '\\', "\\\\"), '"', "\\\"")
  }

  function Exported(pairs: seq<Pair>): string {
    if pairs == [] then "" else pairs[0].0 + "=\"" + Escaped(pairs[0].1) + "\"\n" + Exported(pairs[1..])
  }

  /** `export_dotenv`, on the pairs of the environment. */
  method ExportDotenv(pairs: seq<Pair>) returns (out: string)
    ensures out == Exported(pairs)
  {
    out := "";
    for i := 0 to |pairs|
      invariant out + Exported(pairs[i..]) == Exported(pairs)
    {
      var escaped := ReplaceChar(ReplaceChar(pairs[i].1, '\\', "\\\\"), '"', "\\\"");
      ExportStep(out, pairs, i);
      out := out + (pairs[i].0 + "=\"" + escaped + "\"\n");
    }
  }

  lemma ExportStep(out: string, pairs: seq<Pair>, i: nat)
    requires i < |pairs|
    ensures
      var line := pairs[i].0 + "=\"" + Escaped(pairs[i].1) + "\"\n";
      out + Exported(pairs[i..]) == out + line + Exported(pairs[i + 1..])
  {
    assert pairs[i..][1..] == pairs[i + 1..];
  }

  // ---------- import ----------

  /** A carriage return in front of a line feed belongs to the line ending. */
  function StripCr(line: string): (r: string)
    ensures r <= line
  {
    if line != "" && line[|line| - 1] == '\r' then line[..|line| - 1] else line
  }

  /** `str::lines`. */
  function Lines(text: string): seq<string>
    decreases |text|
  {
    if text == "" then [] else
    var nl := FindChar(text, '\n', 0);
    if nl.None? then [text] else [StripCr(text[..nl.value])] + Lines(text[nl.value + 1..])
  }

  /** What stands between the quotes, escapes resolved, up to the closing quote or the end. */
  function Unescaped(s: string): string {
    if s == "" || s[0] == '"' then ""
    else if s[0] != '\\' then [s[0]] + Unescaped(s[1..])
    else if |s| == 1 then ""
    else [Unescape(s[1])] + Unescaped(s[2..])
  }

  function Unescape(c: char): char {
    if c == 'n' then '\n' else if c == 'r' then '\r' else if c == 't' then '\t' else c
  }

  /** `parse_double_quoted`. */
  method ParseDoubleQuoted(s: string) returns (out: string)
    requires s != "" && s[0] == '"'
    ensures out == Unescaped(s[1..])
  {
    var inner := s[1..];
    var i := 0;
    out := "";
    while i < |inner| && inner[i] != '"'
      invariant 0 <= i <= |inner|
      invariant out + Unescaped(inner[i..]) == Unescaped(inner)
    {
      UnescapedStep(inner, i, out);
      if inner[i] == '\\' {
        if i + 1 == |inner| {
          return;
        }
        out := out + [Unescape(inner[i + 1])];
        i := i + 2;
      } else {
        out := out + [inner[i]];
        i := i + 1;
      }
    }
  }

  /** One round of the loop, at a character that does not end the value. */
  lemma UnescapedStep(inner: string, i: nat, out: string)
    requires i < |inner| && inner[i] != '"'
    ensures inner[i] != '\\' ==> out + Unescaped(inner[i..]) == out + [inner[i]] + Unescaped(inner[i + 1..])
    ensures inner[i] == '\\' && i + 1 == |inner| ==> out + Unescaped(inner[i..]) == out
    ensures inner[i] == '\\' && i + 1 < |inner| ==>
              out + Unescaped(inner[i..]) == out + [Unescape(inner[i + 1])] + Unescaped(inner[i + 2..])
  {
    var rest := inner[i..];
    assert rest[0] == inner[i] && rest[1..] == inner[i + 1..];
    if |rest| > 1 { assert rest[1] == inner[i + 1] && rest[2..] == inner[i + 2..]; }
  }

  /** `parse_single_quoted`: up to the closing quote, nothing resolved. */
  function SingleQuoted(s: string): string
    requires s != ""
  {
    var inner := s[1..];
    var close := FindChar(inner, '\'', 0);
    if close.Some? then inner[..close.value] else inner
  }

  /** An unquoted value ends at an inline comment. */
  function Unquoted(raw: string): string {
    var hash := FindFrom(raw, " #", 0);
    if hash.Some? then Trim(raw[..hash.value]) else raw
  }

  function ValueOf(raw: string): string {
    if raw != "" && raw[0] == '"' then Unescaped(raw[1..])
    else if raw != "" && raw[0] == '\'' then SingleQuoted(raw)
    else Unquoted(raw)
  }

  /** What one line means; blank lines, comments and lines without a key mean nothing. */
  function LineMeaning(raw: string): Option<Pair> {
    var line := Trim(raw);
    if line == "" || line[0] == '#' then None else
    var eq := FindChar(line, '=', 0);
    if eq.None? then None else
    var key := Trim(line[..eq.value]);
    if key == "" then None else Some((key, ValueOf(Trim(line[eq.value + 1..]))))
  }

  /** The pairs one line gives: one or none. */
  function LinePairs(raw: string): seq<Pair> {
    if LineMeaning(raw).Some? then [LineMeaning(raw).value] else []
  }

  function Imported(lines: seq<string>): seq<Pair> {
    if lines == [] then [] else LinePairs(lines[0]) + Imported(lines[1..])
  }

  method ImportValue(rawValue: string) returns (value: string)
    ensures value == ValueOf(rawValue)
  {
    if rawValue != "" && rawValue[0] == '"' {
      value := ParseDoubleQuoted(rawValue);
    } else if rawValue != "" && rawValue[0] == '\'' {
      value := SingleQuoted(rawValue);
    } else {
      value := Unquoted(rawValue);
    }
  }

  /** The body of the loop of `import_dotenv`. */
  method ImportLine(raw: string) returns (pairs: seq<Pair>)
    ensures pairs == LinePairs(raw)
  {
    var line := Trim(raw);
    if line == "" || line[0] == '#' {
      return [];
    }
    var eqPos := FindChar(line, '=', 0);
    if eqPos.None? {
      return [];
    }
    var key := Trim(line[..eqPos.value]);
    if key == "" {
      return [];
    }
    var value := ImportValue(Trim(line[eqPos.value + 1..]));
    return [(key, value)];
  }

  /** `import_dotenv`. */
  method ImportDotenv(text: string) returns (result: seq<Pair>)
    ensures result == Imported(Lines(text))
  {
    var lines := Lines(text);
    result := [];
    for i := 0 to |lines|
      invariant result + Imported(lines[i..]) == Imported(lines)
    {
      ImportStep(lines, i, result);
      var pairs := ImportLine(lines[i]);
      result := result + pairs;
    }
  }

  lemma ImportStep(lines: seq<string>, i: nat, result: seq<Pair>)
    requires i < |lines|
    ensures result + Imported(lines[i..]) == result + LinePairs(lines[i]) + Imported(lines[i + 1..])
  {
    assert lines[i..][1..] == lines[i + 1..] && lines[i..][0] == lines[i];
  }
}
