/** Lines of the usual shapes, and what importing them gives. */
module DotenvShapes {
  import opened Basics
  import opened Text
  import opened Dotenv
  import opened DotenvRoundTrip
  import opened DotenvLaws

  ghost predicate Tight(s: string) { s != "" ==> !IsBlank(s[0]) && !IsBlank(s[|s| - 1]) }

  ghost predicate IsKey(key: string) {
    key != "" && Tight(key) && OneLine(key) && '=' !in key && key[0] != '#'
  }

  lemma TightIsTrimmed(s: string)
    requires Tight(s)
    ensures Trimmed(s, s)
  {
    if s == "" {
      assert TrimsTo(s, 0, 0) && s == s[0..0];
    } else {
      assert TrimsTo(s, 0, |s|) && s == s[0..|s|];
    }
  }

  lemma TightLine(key: string, rest: string)
    requires IsKey(key) && Tight(rest)
    ensures Tight(key + "=" + rest)
  {
    var line := key + "=" + rest;
    assert line[0] == key[0];
    if rest == "" { WhitespaceMeans('='); } else { assert line[|line| - 1] == rest[|rest| - 1]; }
  }

  lemma OneLines(a: string, b: string)
    requires OneLine(a) && OneLine(b)
    ensures OneLine(a + b)
  {}

  /** A line of a key, an equals sign and a value without blanks at its ends. */
  lemma TightLineGives(key: string, rest: string, value: string)
    requires IsKey(key) && Tight(rest) && OneLine(rest) && Stands(rest, value)
    ensures Imported(Lines(key + "=" + rest)) == [(key, value)]
  {
    var line := key + "=" + rest;
    TightLine(key, rest);
    TightIsTrimmed(line);
    TightIsTrimmed(key);
    TightIsTrimmed(rest);
    assert ReadAs(line, line, key, rest, rest, key, value);
    OneLines(key, "=");
    OneLines(key + "=", rest);
    GivenByOne(line, key, value);
  }

  lemma GivenByOne(line: string, key: string, value: string)
    requires OneLine(line) && Gives(line, key, value)
    ensures Imported(Lines(line)) == [(key, value)]
  {
    LinesOfText([line]);
    GivesIsMeant(line, key, value);
    assert Imported([line]) == LinePairs(line) + Imported([]);
  }

  ghost predicate Unmarked(value: string) {
    && (value != "" ==> value[0] != '"' && value[0] != '\'')
    && forall k: nat :: !CommentAt(value, k)
  }

  /** A value without quotes and comment is taken as it stands. */
  lemma PlainLine(key: string, value: string)
    requires IsKey(key) && Tight(value) && OneLine(value) && Unmarked(value)
    ensures Imported(Lines(key + "=" + value)) == [(key, value)]
  {
    TightLineGives(key, value, value);
  }

  lemma CommentBehindStands(value: string, comment: string)
    requires value != "" && Tight(value) && Unmarked(value)
    ensures Stands(value + " #" + comment, value)
  {
    var v := value + " #" + comment;
    var k := |value|;
    assert v[0] == value[0] && v[k] == ' ' && v[k + 1] == '#' && v[..k] == value;
    forall j: nat | j < k ensures !CommentAt(v, j) {
      assert v[j] == value[j] && !CommentAt(value, j);
      if j + 1 < k { assert v[j + 1] == value[j + 1]; }
    }
    assert FirstCommentAt(v, k);
    TightIsTrimmed(value);
  }

  /** A comment behind such a value changes nothing. */
  lemma CommentedLine(key: string, value: string, comment: string)
    requires IsKey(key) && value != "" && Tight(value) && OneLine(value) && Unmarked(value)
    requires OneLine(comment) && Tight("#" + comment)
    ensures Imported(Lines(key + "=" + (value + " #" + comment))) == [(key, value)]
  {
    var rest := value + " #" + comment;
    CommentBehindStands(value, comment);
    OneLines(value, " #");
    OneLines(value + " #", comment);
    assert rest[0] == value[0] && rest[|rest| - 1] == ("#" + comment)[|comment|];
    TightLineGives(key, rest, value);
  }

  /** But behind an empty value a comment is the value. */
  lemma CommentIsValue(key: string, comment: string)
    requires IsKey(key) && OneLine(comment) && Tight("#" + comment) && Unmarked("#" + comment)
    ensures Imported(Lines(key + "=" + ("#" + comment))) == [(key, "#" + comment)]
  {
    PlainLine(key, "#" + comment);
  }

  /** In single quotes a value is taken as it stands, blanks and backslashes included. */
  lemma SingleQuotedLine(key: string, value: string)
    requires IsKey(key) && OneLine(value) && '\'' !in value
    ensures Imported(Lines(key + "=" + ("'" + value + "'"))) == [(key, value)]
  {
    var rest := "'" + value + "'";
    assert rest[1..] == value + "'" && rest[0] == '\'' && rest[|rest| - 1] == '\'';
    WhitespaceMeans('\'');
    OneLines("'", value);
    OneLines("'" + value, "'");
    TightLineGives(key, rest, value);
  }

  function SpelledChar(c: char): string {
    if c == '\n' then "\\n" else if c == '\r' then "\\r" else if c == '\t' then "\\t"
    else if c == '"' then "\\\"" else if c == '\\' then "\\\\" else [c]
  }

  /** A value with its control characters, quotes and backslashes written with a backslash. */
  function Spelled(value: string): (r: string)
    ensures OneLine(r)
  {
    if value == "" then "" else SpelledChar(value[0]) + Spelled(value[1..])
  }

  lemma SpelledStep(c: char, more: string)
    ensures Unescaped(SpelledChar(c) + more) == [c] + Unescaped(more)
  {
    var s := SpelledChar(c) + more;
    assert s[0] == SpelledChar(c)[0] && s[|SpelledChar(c)|..] == more;
    if |SpelledChar(c)| == 2 { assert s[1] == SpelledChar(c)[1]; }
  }

  lemma {:induction false} SpelledReads(value: string)
    ensures Unescaped(Spelled(value) + "\"") == value
    decreases value
  {
    if value != "" {
      SpelledReads(value[1..]);
      Associates(SpelledChar(value[0]), Spelled(value[1..]), "\"");
      SpelledStep(value[0], Spelled(value[1..]) + "\"");
      assert value == [value[0]] + value[1..];
    }
  }

  /** In double quotes any value can be written, line feeds included. */
  lemma SpelledLine(key: string, value: string)
    requires IsKey(key)
    ensures Imported(Lines(key + "=" + ("\"" + Spelled(value) + "\""))) == [(key, value)]
  {
    var rest := "\"" + Spelled(value) + "\"";
    assert rest[1..] == Spelled(value) + "\"" && rest[0] == '"' && rest[|rest| - 1] == '"';
    WhitespaceMeans('"');
    SpelledReads(value);
    UnescapedIff(rest[1..], value);
    OneLines("\"", Spelled(value));
    OneLines("\"" + Spelled(value), "\"");
    TightLineGives(key, rest, value);
  }

  // ---------- lines that give nothing ----------

  ghost predicate StartsWithEither(raw: string, c: char, d: char) {
    exists k: nat :: k < |raw| && (raw[k] == c || raw[k] == d) && AllBlank(raw, 0, k)
  }

  /** No equals sign, a comment, or no key in front of the equals sign. */
  ghost predicate IsIdle(raw: string) { '=' !in raw || StartsWithEither(raw, '#', '=') }

  lemma EqualsIsNoBlank()
    ensures !IsBlank('=') && !IsBlank('#')
  {
    WhitespaceMeans('=');
    WhitespaceMeans('#');
  }

  lemma EqualsInside(raw: string, a: nat, b: nat)
    requires TrimsTo(raw, a, b)
    ensures '=' in raw <==> '=' in raw[a..b]
  {
    EqualsIsNoBlank();
    if '=' in raw {
      var i :| 0 <= i < |raw| && raw[i] == '=';
      assert a <= i < b;
      assert raw[a..b][i - a] == '=';
    }
  }

  lemma StartInside(raw: string, a: nat, b: nat)
    requires TrimsTo(raw, a, b)
    ensures StartsWithEither(raw, '#', '=') <==> a < b && (raw[a] == '#' || raw[a] == '=')
  {
    EqualsIsNoBlank();
    if StartsWithEither(raw, '#', '=') {
      var k: nat :| k < |raw| && (raw[k] == '#' || raw[k] == '=') && AllBlank(raw, 0, k);
      assert k == a;
    }
  }

  /** Whether a trimmed line has a key in front of an equals sign. */
  lemma KeyStands(line: string)
    requires line != "" && !IsBlank(line[0])
    ensures
      var eq := FindChar(line, '=', 0);
      eq.Some? ==> (Trim(line[..eq.value]) == "" <==> line[0] == '=')
  {
    var eq := FindChar(line, '=', 0);
    if eq.Some? {
      var a, b := TrimMeans(line[..eq.value]);
      if eq.value > 0 { assert line[..eq.value][0] == line[0]; }
    }
  }

  lemma NothingMeant(raw: string, line: string)
    requires Trim(raw) == line && (line != "" ==> !IsBlank(line[0]))
    ensures LineMeaning(raw).None? <==> '=' !in line || line[0] == '#' || line[0] == '='
  {
    if line != "" { KeyStands(line); }
  }

  /** Exactly these lines give nothing. */
  lemma IdleIff(raw: string)
    ensures LineGives(raw, []) <==> IsIdle(raw)
  {
    var a, b := TrimMeans(raw);
    EqualsInside(raw, a, b);
    StartInside(raw, a, b);
    NothingMeant(raw, raw[a..b]);
    NothingIff(raw);
  }

  lemma {:induction false} ImportedConcat(a: seq<string>, b: seq<string>)
    ensures Imported(a + b) == Imported(a) + Imported(b)
    decreases a
  {
    if a == [] {
      assert a + b == b;
    } else {
      assert (a + b)[0] == a[0] && (a + b)[1..] == a[1..] + b;
      ImportedConcat(a[1..], b);
    }
  }

  lemma ImportedAfter(raw: string, after: seq<string>)
    ensures Imported([raw] + after) == LinePairs(raw) + Imported(after)
  {
    assert ([raw] + after)[0] == raw && ([raw] + after)[1..] == after;
  }

  lemma ImportedAround(before: seq<string>, raw: string, after: seq<string>)
    requires LinePairs(raw) == []
    ensures Imported(before + [raw] + after) == Imported(before + after)
  {
    assert before + [raw] + after == before + ([raw] + after);
    ImportedConcat(before, [raw] + after);
    ImportedAfter(raw, after);
    ImportedConcat(before, after);
  }

  lemma OneLinesAround(before: seq<string>, raw: string, after: seq<string>)
    requires AllOneLine(before) && AllOneLine(after) && OneLine(raw)
    ensures AllOneLine(before + [raw] + after) && AllOneLine(before + after)
  {
    var all := before + [raw] + after;
    forall i | 0 <= i < |all| ensures OneLine(all[i]) {
      if i > |before| { assert all[i] == after[i - |before| - 1]; }
    }
  }

  /** Such a line can stand anywhere and changes nothing. */
  lemma IdleAddsNothing(before: seq<string>, raw: string, after: seq<string>)
    requires before + after != [] && AllOneLine(before) && AllOneLine(after) && OneLine(raw) && IsIdle(raw)
    ensures Imported(Lines(Unlines(before + [raw] + after))) == Imported(Lines(Unlines(before + after)))
  {
    OneLinesAround(before, raw, after);
    LinesOfText(before + [raw] + after);
    LinesOfText(before + after);
    IdleIff(raw);
    LineGivesIff(raw, []);
    ImportedAround(before, raw, after);
  }
}
