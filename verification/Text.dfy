/**
 The string operations of the Rust standard library that the modelled code calls,
 over sequences of characters. Positions count characters; on ASCII text they are
 the byte offsets of the source.
 */
module Text {
  import opened Basics

  /** `needle` stands at position `p` of `text`. */
  predicate OccursAt(text: string, needle: string, p: int) {
    0 <= p && p + |needle| <= |text| && text[p..p + |needle|] == needle
  }

  /** `needle` stands somewhere in `text`. */
  predicate Contains(text: string, needle: string) {
    exists p :: 0 <= p <= |text| && OccursAt(text, needle, p)
  }

  predicate StartsWith(text: string, needle: string) {
    OccursAt(text, needle, 0)
  }

  predicate EndsWith(text: string, needle: string) {
    OccursAt(text, needle, |text| - |needle|)
  }

  /** `str::find` on the tail that starts at `from`, as a position in the whole text. */
  function FindFrom(text: string, needle: string, from: nat): (r: Option<nat>)
    requires from <= |text|
    ensures r.Some? ==> from <= r.value && OccursAt(text, needle, r.value)
    ensures r.Some? ==> forall q :: from <= q < r.value ==> !OccursAt(text, needle, q)
    ensures r.None? ==> forall q :: from <= q ==> !OccursAt(text, needle, q)
    decreases |text| - from
  {
    if OccursAt(text, needle, from) then Some(from)
    else if from == |text| then None
    else FindFrom(text, needle, from + 1)
  }

  /** `str::find` of one character, from `from` on. */
  function FindChar(text: string, c: char, from: nat): (r: Option<nat>)
    requires from <= |text|
    ensures r.Some? ==> from <= r.value < |text| && text[r.value] == c
    ensures r.Some? ==> forall q :: from <= q < r.value ==> text[q] != c
    ensures r.None? ==> forall q :: from <= q < |text| ==> text[q] != c
    decreases |text| - from
  {
    if from == |text| then None else if text[from] == c then Some(from) else FindChar(text, c, from + 1)
  }

  lemma Associates(a: string, b: string, c: string)
    ensures a + b + c == a + (b + c)
  {}

  /** `char::to_ascii_lowercase`. */
  function LowerChar(c: char): char {
    if 'A' <= c <= 'Z' then (c as int + 32) as char else c
  }

  /** `str::to_ascii_lowercase`. */
  function Lower(s: string): (r: string)
    ensures |r| == |s|
    ensures forall i :: 0 <= i < |s| ==> r[i] == LowerChar(s[i])
  {
    seq(|s|, i requires 0 <= i < |s| => LowerChar(s[i]))
  }

  function UpperChar(c: char): char {
    if 'a' <= c <= 'z' then (c as int - 32) as char else c
  }

  /** `str::to_ascii_uppercase`. */
  function Upper(s: string): (r: string)
    ensures |r| == |s|
    ensures forall i :: 0 <= i < |s| ==> r[i] == UpperChar(s[i])
  {
    seq(|s|, i requires 0 <= i < |s| => UpperChar(s[i]))
  }

  /** `char::is_whitespace`: the Unicode White_Space property. */
  predicate IsWhitespace(c: char) {
    var n := c as int;
    || 0x9 <= n <= 0xD || n == 0x20 || n == 0x85 || n == 0xA0 || n == 0x1680
    || 0x2000 <= n <= 0x200A || n == 0x2028 || n == 0x2029 || n == 0x202F || n == 0x205F || n == 0x3000
  }

  /** `char::is_ascii_whitespace`, which leaves out the vertical tab. */
  predicate IsAsciiWhitespace(c: char) {
    c == ' ' || c == '\t' || c == '\n' || c == '\r' || c as int == 0xC
  }

  predicate IsAsciiDigit(c: char) { '0' <= c <= '9' }

  predicate IsAsciiAlphabetic(c: char) { 'a' <= c <= 'z' || 'A' <= c <= 'Z' }

  predicate IsAsciiAlphanumeric(c: char) { IsAsciiDigit(c) || IsAsciiAlphabetic(c) }

  function TrimStart(s: string): (r: string)
    ensures |r| <= |s| && r == s[|s| - |r|..]
    ensures r != "" ==> !IsWhitespace(r[0])
  {
    if s != "" && IsWhitespace(s[0]) then TrimStart(s[1..]) else s
  }

  function TrimEnd(s: string): (r: string)
    ensures r <= s
    ensures r != "" ==> !IsWhitespace(r[|r| - 1])
  {
    if s != "" && IsWhitespace(s[|s| - 1]) then TrimEnd(s[..|s| - 1]) else s
  }

  /** `str::trim`. */
  function Trim(s: string): string {
    TrimEnd(TrimStart(s))
  }

  /** What stands at `k` in the word agrees with its beginning, as far as three characters. */
  predicate BeginsAgain(word: string, k: nat)
    requires k < |word|
  {
    && word[k] == word[0]
    && (k + 1 < |word| ==> word[k + 1] == word[1])
    && (k + 2 < |word| ==> word[k + 2] == word[2])
  }

  predicate Borderless(word: string) {
    forall k: nat :: 0 < k < |word| ==> !BeginsAgain(word, k)
  }

  /** An occurrence that overlaps an earlier one begins again inside the word. */
  lemma OverlapBeginsAgain(text: string, word: string, q: nat, p: nat)
    requires OccursAt(text, word, q) && OccursAt(text, word, p) && q < p < q + |word|
    ensures BeginsAgain(word, p - q)
  {
    Agrees(text, word, q, p, 0);
    if p - q + 1 < |word| { Agrees(text, word, q, p, 1); }
    if p - q + 2 < |word| { Agrees(text, word, q, p, 2); }
  }

  /** No two occurrences of a word that never begins again overlap. */
  lemma OccurrencesApart(text: string, word: string, q: nat, p: nat)
    requires Borderless(word) && OccursAt(text, word, q) && OccursAt(text, word, p) && q < p
    ensures q + |word| <= p
  {
    if p < q + |word| { OverlapBeginsAgain(text, word, q, p); }
  }

  lemma Agrees(text: string, word: string, q: nat, p: nat, j: nat)
    requires OccursAt(text, word, q) && OccursAt(text, word, p) && q < p && p - q + j < |word|
    ensures word[p - q + j] == word[j]
  {
    CharOf(text, word, q, p - q + j);
    CharOf(text, word, p, j);
  }

  lemma CharOf(text: string, word: string, p: nat, i: nat)
    requires OccursAt(text, word, p) && i < |word|
    ensures text[p + i] == word[i]
  {
    assert text[p..p + |word|][i] == text[p + i];
  }

  // ---------- what the operations mean, character by character ----------

  /** Equal, or the two cases of one ASCII letter. */
  predicate SameLetter(c: char, d: char) {
    || c == d
    || ('A' <= c <= 'Z' && d as int == c as int + 32)
    || ('A' <= d <= 'Z' && c as int == d as int + 32)
  }

  predicate SameButCase(a: string, b: string) {
    |a| == |b| && forall i :: 0 <= i < |a| ==> SameLetter(a[i], b[i])
  }

  lemma LowerAlike(a: string, b: string)
    ensures Lower(a) == Lower(b) <==> SameButCase(a, b)
  {
    if Lower(a) == Lower(b) {
      forall i | 0 <= i < |a| ensures SameLetter(a[i], b[i]) {
        assert Lower(a)[i] == Lower(b)[i];
      }
    }
  }

  /** `a` is `s` with its ASCII letters in lower case. */
  predicate IsLowerOf(a: string, s: string) {
    SameButCase(a, s) && forall i :: 0 <= i < |a| ==> !('A' <= a[i] <= 'Z')
  }

  lemma LowerMeans(s: string, a: string)
    ensures Lower(s) == a <==> IsLowerOf(a, s)
  {
    if IsLowerOf(a, s) {
      forall i | 0 <= i < |s| ensures Lower(s)[i] == a[i] {
        assert SameLetter(a[i], s[i]);
      }
    }
  }

  /** `a` is `s` with its ASCII letters in upper case. */
  predicate IsUpperOf(a: string, s: string) {
    SameButCase(a, s) && forall i :: 0 <= i < |a| ==> !('a' <= a[i] <= 'z')
  }

  lemma UpperMeans(s: string, a: string)
    ensures Upper(s) == a <==> IsUpperOf(a, s)
  {
    if IsUpperOf(a, s) {
      forall i | 0 <= i < |s| ensures Upper(s)[i] == a[i] {
        assert SameLetter(a[i], s[i]);
      }
    }
  }

  lemma UpperAlike(a: string, b: string)
    ensures Upper(a) == Upper(b) <==> SameButCase(a, b)
  {
    if Upper(a) == Upper(b) {
      forall i | 0 <= i < |a| ensures SameLetter(a[i], b[i]) {
        assert Upper(a)[i] == Upper(b)[i];
      }
    }
  }

  /** The code points that `char::is_whitespace` accepts. */
  const BLANKS: set<int> := {
    0x9, 0xA, 0xB, 0xC, 0xD, 0x20, 0x85, 0xA0, 0x1680, 0x2000, 0x2001, 0x2002, 0x2003, 0x2004, 0x2005, 0x2006, 0x2007,
    0x2008, 0x2009, 0x200A, 0x2028, 0x2029, 0x202F, 0x205F, 0x3000}

  predicate IsBlank(c: char) { c as int in BLANKS }

  lemma WhitespaceMeans(c: char)
    ensures IsWhitespace(c) <==> IsBlank(c)
  {}

  predicate AllBlank(s: string, a: int, b: int) {
    forall k :: a <= k < b && 0 <= k < |s| ==> IsBlank(s[k])
  }

  /** What is left of `s` from `a` to `b` when the blanks at both ends are taken away. */
  predicate TrimsTo(s: string, a: nat, b: nat) {
    && a <= b <= |s| && AllBlank(s, 0, a) && AllBlank(s, b, |s|)
    && (a < b ==> !IsBlank(s[a]) && !IsBlank(s[b - 1]))
  }

  lemma {:induction false} TrimStartDrops(s: string)
    ensures AllBlank(s, 0, |s| - |TrimStart(s)|)
    decreases s
  {
    if s != "" && IsWhitespace(s[0]) {
      WhitespaceMeans(s[0]);
      TrimStartDrops(s[1..]);
      forall k | 0 <= k < |s| - |TrimStart(s)| ensures IsBlank(s[k]) {
        assert k > 0 ==> s[1..][k - 1] == s[k];
      }
    }
  }

  lemma {:induction false} TrimEndDrops(s: string)
    ensures AllBlank(s, |TrimEnd(s)|, |s|)
    decreases s
  {
    if s != "" && IsWhitespace(s[|s| - 1]) {
      WhitespaceMeans(s[|s| - 1]);
      TrimEndDrops(s[..|s| - 1]);
      forall k | |TrimEnd(s)| <= k < |s| ensures IsBlank(s[k]) {
        assert k < |s| - 1 ==> s[..|s| - 1][k] == s[k];
      }
    }
  }

  lemma BlanksBehind(s: string, a: nat, n: nat)
    requires a + n <= |s| && AllBlank(s[a..], n, |s| - a)
    ensures AllBlank(s, a + n, |s|)
  {
    forall k | a + n <= k < |s| ensures IsBlank(s[k]) { assert s[a..][k - a] == s[k]; }
  }

  /** What is trimmed at its start and then at its end, as a stretch of the whole. */
  lemma TrimSlice(s: string, rest: string, kept: string, a: nat)
    requires |rest| <= |s| && a == |s| - |rest| && rest == s[a..] && kept <= rest
    requires kept != "" ==> rest != "" && !IsWhitespace(rest[0]) && !IsWhitespace(kept[|kept| - 1])
    ensures a + |kept| <= |s| && kept == s[a..a + |kept|]
    ensures kept != "" ==> !IsBlank(s[a]) && !IsBlank(s[a + |kept| - 1])
  {
    if kept != "" {
      WhitespaceMeans(rest[0]);
      WhitespaceMeans(kept[|kept| - 1]);
    }
  }

  /** `str::trim` takes the blanks away at both ends, and nothing else. */
  lemma TrimMeans(s: string) returns (a: nat, b: nat)
    ensures TrimsTo(s, a, b) && Trim(s) == s[a..b]
  {
    a := |s| - |TrimStart(s)|;
    b := a + |Trim(s)|;
    TrimSlice(s, TrimStart(s), Trim(s), a);
    TrimStartDrops(s);
    TrimEndDrops(TrimStart(s));
    BlanksBehind(s, a, |Trim(s)|);
  }

  lemma InsideTrim(s: string, a: nat, b: nat, c: nat, d: nat)
    requires TrimsTo(s, a, b) && TrimsTo(s, c, d) && a < b
    ensures c <= a && b <= d
  {
    assert !(a < c) && !(d <= a) && !(b - 1 < c) && !(d <= b - 1);
  }

  /** There is only one way to do it. */
  lemma TrimmedIs(s: string, a: nat, b: nat)
    requires TrimsTo(s, a, b)
    ensures Trim(s) == s[a..b]
  {
    var c, d := TrimMeans(s);
    if a < b { InsideTrim(s, a, b, c, d); }
    if c < d { InsideTrim(s, c, d, a, b); }
  }

  /** A word stands in a stretch of a text where it stands in the text. */
  lemma OccursInPart(text: string, from: nat, to: nat, word: string, k: nat)
    requires from <= to <= |text| && k + |word| <= to - from
    ensures OccursAt(text[from..to], word, k) <==> OccursAt(text, word, from + k)
  {
    var part := text[from..to][k..k + |word|];
    var whole := text[from + k..from + k + |word|];
    assert |part| == |whole| && forall i :: 0 <= i < |word| ==> part[i] == whole[i];
  }

  predicate NoUpper(word: string) { forall i :: 0 <= i < |word| ==> !('A' <= word[i] <= 'Z') }
}
