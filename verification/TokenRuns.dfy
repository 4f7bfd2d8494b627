/** Token characters, maximal runs of them, and spans that end where a run ends. */
module TokenRuns {
  import opened Basics
  import opened Text
  import opened Findings

  /** `is_token_char`. */
  predicate IsTokenChar(c: char) {
    IsAsciiAlphanumeric(c) || c == '_' || c == '-' || c == '.' || c == '/' || c == '+' || c == '=' || c == ':' ||
    c == '~'
  }

  predicate AllToken(s: string) {
    forall i :: 0 <= i < |s| ==> IsTokenChar(s[i])
  }

  /** Where the token characters from `p` on stop. */
  function TokenEnd(text: string, p: nat): (e: nat)
    requires p <= |text|
    ensures p <= e <= |text|
    ensures forall k :: p <= k < e ==> IsTokenChar(text[k])
    ensures e < |text| ==> !IsTokenChar(text[e])
    decreases |text| - p
  {
    if p < |text| && IsTokenChar(text[p]) then TokenEnd(text, p + 1) else p
  }

  /** Where the token characters in front of `p` start. */
  function TokenBegin(text: string, p: nat): (b: nat)
    requires p <= |text|
    ensures b <= p
    ensures forall k :: b <= k < p ==> IsTokenChar(text[k])
    ensures b > 0 ==> !IsTokenChar(text[b - 1])
  {
    if p > 0 && IsTokenChar(text[p - 1]) then TokenBegin(text, p - 1) else p
  }

  lemma TokenEndIs(text: string, p: nat, e: nat)
    requires p <= e <= |text|
    requires forall k :: p <= k < e ==> IsTokenChar(text[k])
    requires e < |text| ==> !IsTokenChar(text[e])
    ensures e == TokenEnd(text, p)
  {
    var t := TokenEnd(text, p);
    assert !(t < e) && !(e < t);
  }

  /** Positions of one run share its end. */
  lemma SameRun(text: string, p: nat, q: nat)
    requires p <= |text| && p <= q < TokenEnd(text, p)
    ensures TokenEnd(text, q) == TokenEnd(text, p)
  {
    TokenEndIs(text, q, TokenEnd(text, p));
  }

  /** A prefix of token characters lies inside the run it starts. */
  lemma PrefixInRun(text: string, prefix: string, p: nat)
    requires OccursAt(text, prefix, p) && AllToken(prefix)
    ensures p + |prefix| <= TokenEnd(text, p)
  {
    assert forall k :: p <= k < p + |prefix| ==> text[k] == text[p..p + |prefix|][k - p] == prefix[k - p];
  }

  /** A nonempty span that ends where its token run ends. */
  predicate TokenSpan(text: string, f: Finding) {
    f.start < f.end <= |text| && f.end == TokenEnd(text, f.start)
  }

  /** Overlapping spans that end at run ends have the same end, so they nest. */
  lemma {:induction false} TokenSpansNest(text: string, fs: seq<Finding>)
    requires forall f :: f in fs ==> TokenSpan(text, f)
    ensures Nested(fs)
  {
    forall a, b | a in fs && b in fs && Overlap(a, b) ensures Within(a, b) || Within(b, a) {
      if a.start <= b.start { SameRun(text, a.start, b.start); } else { SameRun(text, b.start, a.start); }
    }
  }
}
