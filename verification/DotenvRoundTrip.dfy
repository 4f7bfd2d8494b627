/** Exactly when importing an exported environment gives it back. */
module DotenvRoundTrip {
  import opened Basics
  import opened Text
  import opened Vaults
  import opened Dotenv

  /** A name the line syntax can carry: no separator inside, no comment sign in front. */
  predicate PlainName(name: string) {
    (forall i :: 0 <= i < |name| ==> name[i] != '=') && (name != "" ==> name[0] != '#')
  }

  predicate OneLine(value: string) { forall i :: 0 <= i < |value| ==> value[i] != '\n' }

  predicate ValidNames(pairs: seq<Pair>) { forall i :: 0 <= i < |pairs| ==> ValidName(pairs[i].0) }

  predicate Portable(pairs: seq<Pair>) {
    forall i :: 0 <= i < |pairs| ==> PlainName(pairs[i].0) && OneLine(pairs[i].1)
  }

  // ---------- escaping ----------

  function EscapedChar(c: char): string {
    if c == '\\' then "\\\\" else if c == '"' then "\\\"" else [c]
  }

  /** The two replaces do not get in each other's way: each character is escaped on its own. */
  lemma EscapedStep(s: string)
    requires s != ""
    ensures Escaped(s) == EscapedChar(s[0]) + Escaped(s[1..])
  {
    var rest := ReplaceChar(s[1..], '\\', "\\\\");
    if s[0] == '\\' {
      QuotesIn("\\\\", rest);
      NoQuotes("\\\\");
    } else {
      QuotesIn([s[0]], rest);
      var escaped := if s[0] == '"' then "\\\"" else [s[0]];
      assert ReplaceChar([s[0]], '"', "\\\"") == escaped + ReplaceChar([s[0]][1..], '"', "\\\"");
    }
  }

  lemma {:induction false} QuotesIn(a: string, b: string)
    ensures ReplaceChar(a + b, '"', "\\\"") == ReplaceChar(a, '"', "\\\"") + ReplaceChar(b, '"', "\\\"")
    decreases a
  {
    if a == "" {
      assert a + b == b;
    } else {
      QuotesIn(a[1..], b);
      assert (a + b)[1..] == a[1..] + b && (a + b)[0] == a[0];
    }
  }

  lemma {:induction false} NoQuotes(s: string)
    requires forall i :: 0 <= i < |s| ==> s[i] != '"'
    ensures ReplaceChar(s, '"', "\\\"") == s
    decreases s
  {
    if s != "" { NoQuotes(s[1..]); }
  }

  lemma {:induction false} EscapedConcat(a: string, b: string)
    ensures Escaped(a + b) == Escaped(a) + Escaped(b)
    decreases a
  {
    if a == "" {
      assert a + b == b;
    } else {
      assert (a + b)[1..] == a[1..] + b && (a + b)[0] == a[0];
      EscapedStep(a + b);
      EscapedStep(a);
      EscapedConcat(a[1..], b);
      Associates(EscapedChar(a[0]), Escaped(a[1..]), Escaped(b));
    }
  }

  /** Resolving the escapes up to the closing quote gives the value back. */
  lemma {:induction false} UnescapedEscaped(value: string, tail: string)
    requires tail != "" && tail[0] == '"'
    ensures Unescaped(Escaped(value) + tail) == value
    decreases value
  {
    if value == "" {
      assert Escaped(value) + tail == tail;
    } else {
      EscapedStep(value);
      UnescapedEscaped(value[1..], tail);
      Associates(EscapedChar(value[0]), Escaped(value[1..]), tail);
      UnescapedChar(value[0], Escaped(value[1..]) + tail);
      assert value == [value[0]] + value[1..];
    }
  }

  lemma UnescapedChar(c: char, more: string)
    ensures Unescaped(EscapedChar(c) + more) == [c] + Unescaped(more)
  {
    var s := EscapedChar(c) + more;
    if c == '\\' || c == '"' {
      assert s[0] == '\\' && s[1] == c && s[2..] == more;
    } else {
      assert s[0] == c && s[1..] == more;
    }
  }

  /** However an escaped one-line value is cut off, no line break comes out of it. */
  lemma {:induction false} CutValueIsOneLine(value: string, cut: string)
    requires OneLine(value) && cut <= Escaped(value)
    ensures OneLine(Unescaped(cut))
    decreases value
  {
    if value != "" && cut != "" {
      EscapedStep(value);
      var c := value[0];
      var n := |EscapedChar(c)|;
      assert cut[0] == Escaped(value)[0] == EscapedChar(c)[0];
      if |cut| >= n {
        assert cut == EscapedChar(c) + cut[n..] && cut[n..] <= Escaped(value[1..]);
        CutValueIsOneLine(value[1..], cut[n..]);
        UnescapedChar(c, cut[n..]);
      }
    }
  }

  lemma {:induction false} EscapedIsOneLine(value: string)
    requires OneLine(value)
    ensures OneLine(Escaped(value))
    decreases value
  {
    if value != "" {
      EscapedStep(value);
      EscapedIsOneLine(value[1..]);
    }
  }

  // ---------- lines ----------

  /** A line without its line feed is the first line. */
  lemma FirstLine(line: string, rest: string)
    requires OneLine(line)
    ensures Lines(line + "\n" + rest) == [StripCr(line)] + Lines(rest)
  {
    var text := line + "\n" + rest;
    assert text[|line|] == '\n' && text[..|line|] == line && text[|line| + 1..] == rest;
    assert forall q :: 0 <= q < |line| ==> text[q] == line[q];
  }

  lemma {:induction false} TrimEndKeeps(kept: string, s: string)
    requires kept != "" && kept <= s && !IsWhitespace(kept[|kept| - 1])
    ensures kept <= TrimEnd(s)
    decreases s
  {
    if IsWhitespace(s[|s| - 1]) {
      assert |kept| < |s|;
      TrimEndKeeps(kept, s[..|s| - 1]);
    }
  }

  /** Where a name starts, trimming takes nothing away, and it stops at the opening quote. */
  lemma TrimmedLine(kept: string, s: string)
    requires kept != "" && kept <= s && !IsWhitespace(kept[0]) && !IsWhitespace(kept[|kept| - 1])
    ensures kept <= Trim(s) <= s
  {
    assert s[0] == kept[0];
    TrimEndKeeps(kept, s);
  }

  lemma Untrimmed(s: string)
    requires s != "" && !IsWhitespace(s[0]) && !IsWhitespace(s[|s| - 1])
    ensures Trim(s) == s
  {
    assert TrimStart(s) == s && TrimEnd(s) == s;
  }

  lemma TrimmedName(name: string)
    requires ValidName(name)
    ensures Trim(name) == name
  {}

  // ---------- one line ----------

  /** A line that starts with a plain name and an opening quote gives that name, and what is unescaped from the rest. */
  lemma QuotedLineMeans(name: string, raw: string)
    requires ValidName(name) && PlainName(name) && name + "=\"" <= raw
    ensures
      var line := Trim(raw);
      && name + "=\"" <= line <= raw
      && LineMeaning(raw) == Some((name, ValueOf(Trim(line[|name| + 1..]))))
  {
    var start := name + "=\"";
    TrimmedLine(start, raw);
    var line := Trim(raw);
    assert line[0] == start[0] == name[0];
    FirstEquals(line, name);
    assert line[..|name|] == name;
    TrimmedName(name);
  }

  lemma FirstEquals(line: string, name: string)
    requires PlainName(name) && name + "=\"" <= line
    ensures FindChar(line, '=', 0) == Some(|name|)
  {
    var start := name + "=\"";
    assert forall q :: 0 <= q < |start| ==> line[q] == start[q];
    assert start[|name|] == '=' && forall q :: 0 <= q < |name| ==> start[q] == name[q];
  }

  lemma RestOfLine(name: string, rest: string)
    ensures (name + "=\"" + rest)[|name| + 1..] == "\"" + rest
  {}

  lemma UntrimmedQuoted(start: string, tail: string)
    requires start != "" && !IsWhitespace(start[0]) && tail != "" && tail[|tail| - 1] == '"'
    ensures Trim(start + tail) == start + tail
  {
    var s := start + tail;
    assert s[0] == start[0] && s[|s| - 1] == '"';
    Untrimmed(s);
  }

  lemma QuotedValue(tail: string)
    ensures ValueOf("\"" + tail) == Unescaped(tail)
  {
    assert ("\"" + tail)[1..] == tail;
  }

  /** A quoted value that ends with a quote loses nothing to trimming. */
  lemma ClosedValue(tail: string)
    requires tail != "" && tail[|tail| - 1] == '"'
    ensures ValueOf(Trim("\"" + tail)) == Unescaped(tail)
  {
    UntrimmedQuoted("\"", tail);
    QuotedValue(tail);
  }

  lemma ClosedLineMeans(name: string, tail: string)
    requires ValidName(name) && PlainName(name) && tail != "" && tail[|tail| - 1] == '"'
    ensures LineMeaning(name + "=\"" + tail) == Some((name, Unescaped(tail)))
  {
    QuotedLineMeans(name, name + "=\"" + tail);
    UntrimmedQuoted(name + "=\"", tail);
    RestOfLine(name, tail);
    ClosedValue(tail);
  }

  lemma CutValue(escaped: string, rest: string) returns (cut: string)
    requires "\"" <= rest <= "\"" + escaped
    ensures cut <= escaped && ValueOf(Trim(rest)) == Unescaped(cut)
  {
    TrimmedLine("\"", rest);
    cut := Trim(rest)[1..];
    assert ("\"" + escaped)[1..] == escaped;
  }

  /** A cut-off quoted value: what comes out is unescaped from a beginning of what was put in. */
  lemma CutLineMeans(name: string, escaped: string, raw: string) returns (cut: string)
    requires ValidName(name) && PlainName(name) && name + "=\"" <= raw <= name + "=\"" + escaped
    ensures cut <= escaped && LineMeaning(raw) == Some((name, Unescaped(cut)))
  {
    QuotedLineMeans(name, raw);
    var line := Trim(raw);
    RestOfPrefix(name, escaped, line);
    cut := CutValue(escaped, line[|name| + 1..]);
  }

  lemma RestOfPrefix(name: string, escaped: string, line: string)
    requires name + "=\"" <= line <= name + "=\"" + escaped
    ensures "\"" <= line[|name| + 1..] <= "\"" + escaped
  {
    RestOfLine(name, escaped);
    var rest := line[|name| + 1..];
    assert rest == (name + "=\"" + escaped)[|name| + 1..][..|rest|];
  }

  lemma GoodLineMeans(name: string, value: string)
    requires ValidName(name) && PlainName(name)
    ensures LineMeaning(name + "=\"" + Escaped(value) + "\"") == Some((name, value))
  {
    Associates(name + "=\"", Escaped(value), "\"");
    ClosedLineMeans(name, Escaped(value) + "\"");
    UnescapedEscaped(value, "\"");
  }

  // ---------- the round trip ----------

  function ExportedLine(p: Pair): string { p.0 + "=\"" + Escaped(p.1) + "\"" }

  lemma ExportedHead(pairs: seq<Pair>)
    requires pairs != []
    ensures Exported(pairs) == ExportedLine(pairs[0]) + "\n" + Exported(pairs[1..])
  {}

  lemma PortableLine(p: Pair, rest: string)
    requires ValidName(p.0) && PlainName(p.0) && OneLine(p.1)
    ensures Imported(Lines(ExportedLine(p) + "\n" + rest)) == [p] + Imported(Lines(rest))
  {
    EscapedIsOneLine(p.1);
    var line := ExportedLine(p);
    FirstLine(line, rest);
    assert StripCr(line) == line;
    GoodLineMeans(p.0, p.1);
  }

  /** The pairs survive export and import, in order. */
  predicate ComesBack(pairs: seq<Pair>) { Imported(Lines(Exported(pairs))) == pairs }

  /** Portable pairs come back, the same and in the same order. */
  lemma {:induction false} PortableComesBack(pairs: seq<Pair>)
    requires ValidNames(pairs) && Portable(pairs)
    ensures ComesBack(pairs)
    decreases pairs
  {
    if pairs != [] {
      PortableComesBack(pairs[1..]);
      ConsComesBack(pairs);
    }
  }

  lemma ConsComesBack(pairs: seq<Pair>)
    requires pairs != [] && ValidName(pairs[0].0) && PlainName(pairs[0].0) && OneLine(pairs[0].1)
    requires ComesBack(pairs[1..])
    ensures ComesBack(pairs)
  {
    ExportedHead(pairs);
    PortableLine(pairs[0], Exported(pairs[1..]));
    assert pairs == [pairs[0]] + pairs[1..];
  }

  /** The part of a value in front of its first line feed. */
  lemma {:induction false} FirstFeed(value: string) returns (k: nat)
    requires !OneLine(value)
    ensures k < |value| && value[k] == '\n' && OneLine(value[..k])
    decreases value
  {
    if value[0] == '\n' {
      k := 0;
    } else {
      var i :| 0 <= i < |value| && value[i] == '\n';
      assert value[1..][i - 1] == '\n';
      var n := FirstFeed(value[1..]);
      k := n + 1;
      assert value[..k] == [value[0]] + value[1..][..n];
    }
  }

  /** A value with a line feed comes back without one. */
  lemma BrokenLine(p: Pair, rest: string)
    requires ValidName(p.0) && PlainName(p.0) && !OneLine(p.1)
    ensures Imported(Lines(ExportedLine(p) + "\n" + rest)) != []
    ensures OneLine(Imported(Lines(ExportedLine(p) + "\n" + rest))[0].1)
  {
    var k := FirstFeed(p.1);
    var u, more := p.1[..k], p.1[k + 1..];
    EscapedAround(p.1, k);
    var line, later := p.0 + "=\"" + Escaped(u), Escaped(more) + "\"" + "\n" + rest;
    assert ExportedLine(p) + "\n" + rest == line + "\n" + later;
    CutLine(p.0, u, later);
  }

  lemma EscapedAround(value: string, k: nat)
    requires k < |value| && value[k] == '\n'
    ensures Escaped(value) == Escaped(value[..k]) + "\n" + Escaped(value[k + 1..])
  {
    var u, more := value[..k], value[k + 1..];
    assert value == u + ("\n" + more) && ("\n" + more)[1..] == more;
    EscapedConcat(u, "\n" + more);
    EscapedStep("\n" + more);
    Associates(Escaped(u), "\n", Escaped(more));
  }

  /** A line that breaks off inside its value. */
  lemma CutLine(name: string, u: string, later: string)
    requires ValidName(name) && PlainName(name) && OneLine(u)
    ensures
      var pairs := Imported(Lines(name + "=\"" + Escaped(u) + "\n" + later));
      pairs != [] && OneLine(pairs[0].1)
  {
    var line := name + "=\"" + Escaped(u);
    EscapedIsOneLine(u);
    FirstLine(line, later);
    assert name + "=\"" <= StripCr(line);
    var cut := CutLineMeans(name, Escaped(u), StripCr(line));
    CutValueIsOneLine(u, cut);
  }

  /** No line gives a name with a separator in it or a comment sign in front. */
  lemma ImportedNameIsPlain(raw: string)
    ensures LineMeaning(raw).Some? ==> PlainName(LineMeaning(raw).value.0)
  {
    var line := Trim(raw);
    var eq := FindChar(line, '=', 0);
    if eq.Some? && line[0] != '#' { KeyIsPlain(line, eq.value); }
  }

  /** Trimming cuts a piece out; a text that starts with something else than a blank keeps its start. */
  lemma TrimIsPart(s: string)
    ensures forall i :: 0 <= i < |Trim(s)| ==> Trim(s)[i] == s[|s| - |TrimStart(s)| + i]
    ensures s != "" && !IsWhitespace(s[0]) ==> TrimStart(s) == s
  {
    var t := TrimStart(s);
    assert forall i :: 0 <= i < |t| ==> t[i] == s[|s| - |t|..][i];
  }

  lemma KeyIsPlain(line: string, eq: nat)
    requires line != "" && !IsWhitespace(line[0]) && line[0] != '#'
    requires eq < |line| && forall q :: 0 <= q < eq ==> line[q] != '='
    ensures PlainName(Trim(line[..eq]))
  {
    TrimIsPart(line[..eq]);
  }

  lemma {:induction false} ImportedNamesArePlain(lines: seq<string>)
    ensures forall i :: 0 <= i < |Imported(lines)| ==> PlainName(Imported(lines)[i].0)
    decreases lines
  {
    if lines != [] {
      ImportedNameIsPlain(lines[0]);
      ImportedNamesArePlain(lines[1..]);
    }
  }

  lemma {:induction false} HeadIsOneLine(pairs: seq<Pair>)
    requires pairs != [] && ValidName(pairs[0].0) && PlainName(pairs[0].0)
    requires ComesBack(pairs)
    ensures OneLine(pairs[0].1)
  {
    ExportedHead(pairs);
    if !OneLine(pairs[0].1) { BrokenLine(pairs[0], Exported(pairs[1..])); }
  }

  lemma {:induction false} TailComesBack(pairs: seq<Pair>)
    requires pairs != [] && ValidName(pairs[0].0) && PlainName(pairs[0].0) && OneLine(pairs[0].1)
    requires ComesBack(pairs)
    ensures ComesBack(pairs[1..])
  {
    ExportedHead(pairs);
    PortableLine(pairs[0], Exported(pairs[1..]));
    assert ([pairs[0]] + Imported(Lines(Exported(pairs[1..]))))[1..] == Imported(Lines(Exported(pairs[1..])));
  }

  predicate PlainNames(pairs: seq<Pair>) { forall i :: 0 <= i < |pairs| ==> PlainName(pairs[i].0) }

  predicate OneLineValues(pairs: seq<Pair>) { forall i :: 0 <= i < |pairs| ==> OneLine(pairs[i].1) }

  lemma NamesOfTail(pairs: seq<Pair>)
    requires pairs != [] && ValidNames(pairs) && PlainNames(pairs)
    ensures ValidNames(pairs[1..]) && PlainNames(pairs[1..])
  {}

  lemma FromTail(pairs: seq<Pair>)
    requires pairs != [] && OneLine(pairs[0].1) && OneLineValues(pairs[1..])
    ensures OneLineValues(pairs)
  {
    assert pairs == [pairs[0]] + pairs[1..];
  }

  lemma {:induction false} OnlyOneLineComesBack(pairs: seq<Pair>)
    requires ValidNames(pairs) && PlainNames(pairs)
    requires ComesBack(pairs)
    ensures OneLineValues(pairs)
    decreases pairs
  {
    if pairs != [] {
      HeadIsOneLine(pairs);
      TailComesBack(pairs);
      NamesOfTail(pairs);
      OnlyOneLineComesBack(pairs[1..]);
      FromTail(pairs);
    }
  }

  /**
   The exact condition: an environment with valid names comes back from export and import
   if and only if no name contains `=` or starts with `#` and no value contains a line feed.
   */
  lemma {:induction false} RoundTripIff(pairs: seq<Pair>)
    requires ValidNames(pairs)
    ensures ComesBack(pairs) <==> Portable(pairs)
  {
    if Portable(pairs) { PortableComesBack(pairs); }
    if ComesBack(pairs) {
      ImportedNamesArePlain(Lines(Exported(pairs)));
      OnlyOneLineComesBack(pairs);
    }
  }
}
