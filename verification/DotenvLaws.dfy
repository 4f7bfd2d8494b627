/** What importing a text gives, said on its lines and their characters. */
module DotenvLaws {
  import opened Basics
  import opened Text
  import opened Dotenv
  import opened DotenvRoundTrip

  /** `t` is `s` without the blanks at both ends. */
  ghost predicate Trimmed(s: string, t: string) { exists a: nat, b: nat :: TrimsTo(s, a, b) && t == s[a..b] }

  lemma TrimmedMeans(s: string, t: string)
    ensures Trim(s) == t <==> Trimmed(s, t)
  {
    var a, b := TrimMeans(s);
    if Trimmed(s, t) {
      var c: nat, d: nat :| TrimsTo(s, c, d) && t == s[c..d];
      TrimmedIs(s, c, d);
    }
  }

  // ---------- values in double quotes ----------

  /** What the character behind a backslash stands for. */
  ghost predicate Resolves(e: char, c: char) {
    && (e == 'n' ==> c == '\n') && (e == 'r' ==> c == '\r') && (e == 't' ==> c == '\t')
    && (e != 'n' && e != 'r' && e != 't' ==> c == e)
  }

  /** The character read at `p`, with `q` behind what was read: one on, or two from a backslash. */
  ghost predicate ReadsAt(s: string, c: char, p: nat, q: nat) {
    && p < q <= |s| && s[p] != '"'
    && if s[p] == '\\' then q == p + 2 && Resolves(s[p + 1], c) else q == p + 1 && c == s[p]
  }

  /** Reading ends at a quote, at the end, or at a last backslash. */
  ghost predicate ReadingEnds(s: string, p: nat) {
    p == |s| || (p < |s| && s[p] == '"') || (p + 1 == |s| && s[p] == '\\')
  }

  /** `value` is read from `s` with its characters at the positions `ps`. */
  ghost predicate Reads(s: string, ps: seq<nat>, value: string) {
    && |ps| == |value| + 1
    && (forall i: nat :: i < |value| ==> ReadsAt(s, value[i], ps[i], ps[i + 1]))
    && ReadingEnds(s, ps[|value|])
  }

  ghost predicate ReadFrom(s: string, value: string) { exists ps :: Reads(s, ps, value) && ps[0] == 0 }

  lemma UnescapedAt(s: string, p: nat, q: nat, c: char)
    requires ReadsAt(s, c, p, q)
    ensures Unescaped(s[p..]) == [c] + Unescaped(s[q..])
  {
    var rest := s[p..];
    assert rest[0] == s[p] && rest[q - p..] == s[q..];
    if s[p] == '\\' { assert rest[1] == s[p + 1]; }
  }

  lemma {:induction false} UnescapedReads(s: string, p: nat) returns (ps: seq<nat>)
    requires p <= |s|
    ensures Reads(s, ps, Unescaped(s[p..])) && ps[0] == p
    decreases |s| - p
  {
    var rest := s[p..];
    if ReadingEnds(s, p) {
      ps := [p];
    } else {
      assert rest[0] == s[p];
      var q := if s[p] == '\\' then p + 2 else p + 1;
      var c := if s[p] == '\\' then Unescape(s[p + 1]) else s[p];
      UnescapedAt(s, p, q, c);
      var more := UnescapedReads(s, q);
      ps := [p] + more;
      ReadsCons(s, p, q, c, more, Unescaped(s[q..]));
    }
  }

  lemma ReadsCons(s: string, p: nat, q: nat, c: char, more: seq<nat>, value: string)
    requires ReadsAt(s, c, p, q) && Reads(s, more, value) && more[0] == q
    ensures Reads(s, [p] + more, [c] + value)
  {
    var ps, all := [p] + more, [c] + value;
    forall i: nat | i < |all| ensures ReadsAt(s, all[i], ps[i], ps[i + 1]) {
      if i > 0 { assert all[i] == value[i - 1] && ps[i] == more[i - 1] && ps[i + 1] == more[i]; }
    }
  }

  lemma {:induction false} ReadsGive(s: string, ps: seq<nat>, value: string, i: nat)
    requires Reads(s, ps, value) && i <= |value|
    ensures ps[i] <= |s| && Unescaped(s[ps[i]..]) == value[i..]
    decreases |value| - i
  {
    if i < |value| {
      ReadsGive(s, ps, value, i + 1);
      UnescapedAt(s, ps[i], ps[i + 1], value[i]);
      assert value[i..] == [value[i]] + value[i + 1..];
    } else if ps[i] < |s| {
      assert s[ps[i]..][0] == s[ps[i]];
    }
  }

  lemma UnescapedIff(s: string, value: string)
    ensures Unescaped(s) == value <==> ReadFrom(s, value)
  {
    assert s[0..] == s;
    var ps := UnescapedReads(s, 0);
    if ReadFrom(s, value) {
      var given :| Reads(s, given, value) && given[0] == 0;
      ReadsGive(s, given, value, 0);
    }
  }

  // ---------- values ----------

  /** In single quotes: everything up to the next one, or to the end. */
  ghost predicate SingleStands(inner: string, value: string) {
    && value <= inner && '\'' !in value
    && (|value| < |inner| ==> inner[|value|] == '\'')
  }

  ghost predicate CommentAt(s: string, k: int) { 0 <= k && k + 1 < |s| && s[k] == ' ' && s[k + 1] == '#' }

  ghost predicate FirstCommentAt(s: string, k: nat) {
    CommentAt(s, k) && forall j :: 0 <= j < k ==> !CommentAt(s, j)
  }

  /** Without quotes: everything, or what stands in front of the first comment, trimmed. */
  ghost predicate PlainStands(v: string, value: string) {
    if exists k: nat :: CommentAt(v, k) then exists k: nat :: FirstCommentAt(v, k) && Trimmed(v[..k], value)
    else value == v
  }

  ghost predicate Stands(v: string, value: string) {
    if v != "" && v[0] == '"' then ReadFrom(v[1..], value)
    else if v != "" && v[0] == '\'' then SingleStands(v[1..], value)
    else PlainStands(v, value)
  }

  lemma CommentOccurs(s: string, k: int)
    ensures OccursAt(s, " #", k) <==> CommentAt(s, k)
  {
    if 0 <= k && k + 2 <= |s| { assert s[k..k + 2] == [s[k], s[k + 1]]; }
  }

  lemma SingleIff(v: string, value: string)
    requires v != ""
    ensures SingleQuoted(v) == value <==> SingleStands(v[1..], value)
  {
    var inner := v[1..];
    var close := FindChar(inner, '\'', 0);
    if SingleStands(inner, value) {
      assert value == inner[..|value|];
      assert forall q :: 0 <= q < |value| ==> inner[q] == value[q];
    }
  }

  lemma CommentFound(v: string)
    ensures
      var hash := FindFrom(v, " #", 0);
      if hash.Some? then FirstCommentAt(v, hash.value) else forall k: nat :: !CommentAt(v, k)
  {
    var hash := FindFrom(v, " #", 0);
    if hash.Some? { CommentOccurs(v, hash.value); }
    forall k | 0 <= k && (hash.Some? ==> k < hash.value) ensures !CommentAt(v, k) { CommentOccurs(v, k); }
  }

  lemma OnlyFirst(v: string, j: nat, k: nat)
    requires FirstCommentAt(v, j) && FirstCommentAt(v, k)
    ensures j == k
  {
    assert !(j < k) && !(k < j);
  }

  lemma PlainIff(v: string, value: string)
    ensures Unquoted(v) == value <==> PlainStands(v, value)
  {
    CommentFound(v);
    var hash := FindFrom(v, " #", 0);
    if hash.Some? {
      assert CommentAt(v, hash.value);
      TrimmedMeans(v[..hash.value], value);
      if PlainStands(v, value) {
        var k: nat :| FirstCommentAt(v, k) && Trimmed(v[..k], value);
        OnlyFirst(v, k, hash.value);
      }
    }
  }

  lemma ValueIff(v: string, value: string)
    ensures ValueOf(v) == value <==> Stands(v, value)
  {
    if v != "" && v[0] == '"' { UnescapedIff(v[1..], value); }
    else if v != "" && v[0] == '\'' { SingleIff(v, value); }
    else { PlainIff(v, value); }
  }

  // ---------- lines ----------

  /** `raw` is read as `line`, this as `name`, the first equals sign and `rest`, and that as the trimmed value `v`. */
  ghost predicate ReadAs(
    raw: string, line: string, name: string, rest: string, v: string, key: string, value: string)
  {
    && Trimmed(raw, line) && (line != "" ==> line[0] != '#')
    && line == name + "=" + rest && '=' !in name
    && Trimmed(name, key) && key != ""
    && Trimmed(rest, v) && Stands(v, value)
  }

  /** The line gives the value under the key. */
  ghost predicate Gives(raw: string, key: string, value: string) {
    exists line, name, rest, v :: ReadAs(raw, line, name, rest, v, key, value)
  }

  lemma SplitsAtEquals(line: string, name: string, rest: string)
    requires line == name + "=" + rest && '=' !in name
    ensures FindChar(line, '=', 0) == Some(|name|) && line[..|name|] == name && line[|name| + 1..] == rest
  {
    assert line[|name|] == '=';
    assert forall q :: 0 <= q < |name| ==> line[q] == name[q];
  }

  lemma MeaningOf(raw: string, line: string, name: string, rest: string)
    requires line == name + "=" + rest && '=' !in name
    requires Trim(raw) == line && line[0] != '#' && Trim(name) != ""
    ensures LineMeaning(raw) == Some((Trim(name), ValueOf(Trim(rest))))
  {
    SplitsAtEquals(line, name, rest);
  }

  lemma GivesIsMeant(raw: string, key: string, value: string)
    requires Gives(raw, key, value)
    ensures LineMeaning(raw) == Some((key, value))
  {
    var line, name, rest, v :| ReadAs(raw, line, name, rest, v, key, value);
    TrimmedMeans(raw, line);
    TrimmedMeans(name, key);
    TrimmedMeans(rest, v);
    ValueIff(v, value);
    MeaningOf(raw, line, name, rest);
  }

  lemma SplitAt(line: string, eq: nat)
    requires eq < |line| && line[eq] == '=' && forall q :: 0 <= q < eq ==> line[q] != '='
    ensures line == line[..eq] + "=" + line[eq + 1..] && '=' !in line[..eq]
  {
    assert line[..eq] + "=" == line[..eq + 1];
    assert forall q :: 0 <= q < eq ==> line[..eq][q] == line[q];
  }

  lemma Meaning(raw: string) returns (line: string, name: string, rest: string)
    requires LineMeaning(raw).Some?
    ensures Trim(raw) == line && line == name + "=" + rest && '=' !in name && line[0] != '#'
    ensures Trim(name) != "" && LineMeaning(raw).value == (Trim(name), ValueOf(Trim(rest)))
  {
    line := Trim(raw);
    var eq := FindChar(line, '=', 0).value;
    name, rest := line[..eq], line[eq + 1..];
    SplitAt(line, eq);
  }

  lemma MeantIsGiven(raw: string)
    requires LineMeaning(raw).Some?
    ensures Gives(raw, LineMeaning(raw).value.0, LineMeaning(raw).value.1)
  {
    var line, name, rest := Meaning(raw);
    var key, v := Trim(name), Trim(rest);
    TrimmedMeans(raw, line);
    TrimmedMeans(name, key);
    TrimmedMeans(rest, v);
    ValueIff(v, ValueOf(v));
    assert ReadAs(raw, line, name, rest, v, key, ValueOf(v));
  }

  ghost predicate GivesNothing(raw: string) { forall key, value :: !Gives(raw, key, value) }

  lemma NothingIff(raw: string)
    ensures LineMeaning(raw).None? <==> GivesNothing(raw)
  {
    if LineMeaning(raw).Some? {
      MeantIsGiven(raw);
    } else {
      forall key, value | Gives(raw, key, value) ensures false { GivesIsMeant(raw, key, value); }
    }
  }

  /** One line gives one pair, or nothing. */
  ghost predicate LineGives(raw: string, pairs: seq<Pair>) {
    if |pairs| == 1 then Gives(raw, pairs[0].0, pairs[0].1) else pairs == [] && GivesNothing(raw)
  }

  lemma LineGivesIff(raw: string, pairs: seq<Pair>)
    ensures LinePairs(raw) == pairs <==> LineGives(raw, pairs)
  {
    NothingIff(raw);
    if LineMeaning(raw).Some? { MeantIsGiven(raw); }
    if |pairs| == 1 && Gives(raw, pairs[0].0, pairs[0].1) {
      GivesIsMeant(raw, pairs[0].0, pairs[0].1);
      assert pairs == [(pairs[0].0, pairs[0].1)];
    }
  }

  // ---------- texts ----------

  /** The text whose lines are these, with a line feed between each two. */
  function Unlines(lines: seq<string>): string
    requires lines != []
  {
    if |lines| == 1 then lines[0] else lines[0] + "\n" + Unlines(lines[1..])
  }

  ghost predicate AllOneLine(lines: seq<string>) { forall i :: 0 <= i < |lines| ==> OneLine(lines[i]) }

  function Flat(parts: seq<seq<Pair>>): seq<Pair> {
    if parts == [] then [] else parts[0] + Flat(parts[1..])
  }

  /** Each line gives its part. */
  ghost predicate AllGive(lines: seq<string>, parts: seq<seq<Pair>>) {
    |parts| == |lines| && forall i :: 0 <= i < |lines| ==> LineGives(lines[i], parts[i])
  }

  lemma PartsOf(lines: seq<string>) returns (parts: seq<seq<Pair>>)
    ensures AllGive(lines, parts)
  {
    parts := seq(|lines|, i requires 0 <= i < |lines| => LinePairs(lines[i]));
    forall i | 0 <= i < |lines| ensures LineGives(lines[i], parts[i]) { LineGivesIff(lines[i], parts[i]); }
  }

  ghost predicate ArePairs(lines: seq<string>, parts: seq<seq<Pair>>) {
    |parts| == |lines| && forall i :: 0 <= i < |lines| ==> LinePairs(lines[i]) == parts[i]
  }

  lemma {:induction false} PairsFlat(lines: seq<string>, parts: seq<seq<Pair>>)
    requires ArePairs(lines, parts)
    ensures Imported(lines) == Flat(parts)
    decreases lines
  {
    if lines != [] {
      assert LinePairs(lines[0]) == parts[0];
      PairsFlat(lines[1..], parts[1..]);
    }
  }

  lemma AreGiven(lines: seq<string>, parts: seq<seq<Pair>>)
    requires AllGive(lines, parts)
    ensures ArePairs(lines, parts)
  {
    forall i | 0 <= i < |lines| ensures LinePairs(lines[i]) == parts[i] { LineGivesIff(lines[i], parts[i]); }
  }

  lemma BlanksAndMore(s: string, c: char, a: nat)
    requires AllBlank(s, a, |s|) && IsBlank(c)
    ensures AllBlank(s + [c], a, |s| + 1)
  {
    forall k | a <= k < |s| + 1 ensures IsBlank((s + [c])[k]) {
      if k < |s| { assert (s + [c])[k] == s[k]; }
    }
  }

  lemma BlanksStill(s: string, c: char, b: nat)
    requires b <= |s| && AllBlank(s, 0, b)
    ensures AllBlank(s + [c], 0, b)
  {
    forall k | 0 <= k < b ensures IsBlank((s + [c])[k]) { assert (s + [c])[k] == s[k]; }
  }

  lemma NothingButBlanks(s: string, a: nat)
    requires a <= |s| && AllBlank(s, 0, a) && AllBlank(s, a, |s|)
    ensures TrimsTo(s, |s|, |s|)
  {}

  lemma StillTrims(s: string, c: char, a: nat, b: nat)
    requires TrimsTo(s, a, b) && a < b && AllBlank(s + [c], b, |s| + 1)
    ensures TrimsTo(s + [c], a, b) && (s + [c])[a..b] == s[a..b]
  {
    BlanksStill(s, c, a);
    assert (s + [c])[a] == s[a] && (s + [c])[b - 1] == s[b - 1];
  }

  /** One more blank at the end is trimmed away. */
  lemma BlankBehind(s: string, c: char)
    requires IsBlank(c)
    ensures Trim(s + [c]) == Trim(s)
  {
    var a, b := TrimMeans(s);
    BlanksAndMore(s, c, b);
    if a < b {
      StillTrims(s, c, a, b);
      TrimmedIs(s + [c], a, b);
    } else {
      BlanksStill(s, c, a);
      NothingButBlanks(s + [c], a);
      TrimmedIs(s + [c], |s| + 1, |s| + 1);
    }
  }

  lemma ReturnIsBlank()
    ensures IsBlank('\r')
  {
    WhitespaceMeans('\r');
  }

  /** A carriage return at the end of a line is trimmed away in any case. */
  lemma StripCrIrrelevant(line: string)
    ensures LinePairs(StripCr(line)) == LinePairs(line)
  {
    if StripCr(line) != line {
      assert line == StripCr(line) + ['\r'];
      ReturnIsBlank();
      BlankBehind(StripCr(line), '\r');
    }
  }

  lemma {:induction false} LinesOfText(lines: seq<string>)
    requires lines != [] && AllOneLine(lines)
    ensures Imported(Lines(Unlines(lines))) == Imported(lines)
    decreases lines
  {
    var line := lines[0];
    if |lines| == 1 {
      assert lines[1..] == [];
      if line == "" {
        assert LinePairs("") == [];
      } else {
        assert Lines(line) == [line];
      }
    } else {
      LinesOfText(lines[1..]);
      FirstLine(line, Unlines(lines[1..]));
      StripCrIrrelevant(line);
    }
  }

  /** Every text is one of these. */
  lemma {:induction false} TextsAreLines(text: string) returns (lines: seq<string>)
    ensures lines != [] && AllOneLine(lines) && Unlines(lines) == text
    decreases |text|
  {
    if OneLine(text) {
      lines := [text];
    } else {
      var k := FirstFeed(text);
      var more := TextsAreLines(text[k + 1..]);
      lines := [text[..k]] + more;
      assert lines[1..] == more && text == text[..k] + "\n" + text[k + 1..];
    }
  }

  lemma AllGivenFlat(lines: seq<string>, parts: seq<seq<Pair>>)
    requires lines != [] && AllOneLine(lines) && AllGive(lines, parts)
    ensures Imported(Lines(Unlines(lines))) == Flat(parts)
  {
    LinesOfText(lines);
    AreGiven(lines, parts);
    PairsFlat(lines, parts);
  }

  /** `import_dotenv` on any text: what its lines give, one line after the other, and nothing else. */
  lemma ImportedIff(lines: seq<string>, pairs: seq<Pair>)
    requires lines != [] && AllOneLine(lines)
    ensures
      Imported(Lines(Unlines(lines))) == pairs <==> exists parts :: AllGive(lines, parts) && Flat(parts) == pairs
  {
    var parts := PartsOf(lines);
    AllGivenFlat(lines, parts);
    forall given | AllGive(lines, given) ensures Flat(given) == Imported(Lines(Unlines(lines))) {
      AllGivenFlat(lines, given);
    }
  }
}
