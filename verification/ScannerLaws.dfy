/** What each scanner reports, written out on the characters of the text. */
module ScannerLaws {
  import opened Basics
  import opened Text
  import opened Findings
  import opened TokenRuns
  import opened Visits
  import opened Scanners
  import opened FieldScanners
  import opened BlockScanners

  // ---------- runs and reports ----------

  predicate InToken(c: char) {
    'a' <= c <= 'z' || 'A' <= c <= 'Z' || '0' <= c <= '9' || c in "_-./+=:~"
  }

  /** The characters that a token may hold go on from `s` to `e`, and no further. */
  predicate TokenRun(input: string, s: nat, e: nat) {
    && s <= e <= |input| && (forall k :: s <= k < e ==> InToken(input[k]))
    && (e < |input| ==> !InToken(input[e]))
  }

  lemma InTokenIff(c: char)
    ensures IsTokenChar(c) <==> InToken(c)
  {
    assert "_-./+=:~"[0] == '_' && "_-./+=:~"[1] == '-' && "_-./+=:~"[2] == '.' && "_-./+=:~"[3] == '/';
    assert "_-./+=:~"[4] == '+' && "_-./+=:~"[5] == '=' && "_-./+=:~"[6] == ':' && "_-./+=:~"[7] == '~';
  }

  lemma TokenRunIff(input: string, s: nat, e: nat)
    requires s <= |input|
    ensures TokenRun(input, s, e) <==> TokenEnd(input, s) == e
  {
    forall k | 0 <= k < |input| ensures IsTokenChar(input[k]) <==> InToken(input[k]) { InTokenIff(input[k]); }
    if TokenRun(input, s, e) { TokenEndIs(input, s, e); }
  }

  /** The four characters at both ends of a value longer than eight. */
  predicate PreviewShows(preview: string, value: string) {
    && (value == "" ==> preview == "")
    && (1 <= |value| <= 8 ==> preview == "***")
    && (|value| >= 9 ==>
          |preview| == 11 && preview[..4] == value[..4] && preview[4..7] == "***"
          && preview[7..] == value[|value| - 4..])
  }

  /** High confidence is always sealed, medium in protection mode, low when aggressive. */
  predicate SealedWhen(confidence: Confidence, options: Options) {
    confidence == High || (confidence == Medium && options.protectionMode) || (confidence == Low && options.aggressive)
  }

  /** `f` reports the span from `s` to `e`. */
  predicate Reports(
    crypto: Crypto, input: string, options: Options, f: Finding, kind: string, s: nat, e: nat, confidence: Confidence)
  {
    && s <= e <= |input| && f.kind == kind && f.start == s && f.end == e && f.value == input[s..e]
    && f.fingerprint == crypto.fingerprint(input[s..e]) && f.confidence == confidence
    && (f.shouldSeal <==> SealedWhen(confidence, options)) && PreviewShows(f.preview, input[s..e])
  }

  lemma PreviewIff(preview: string, value: string)
    ensures preview == RedactedPreview(value) <==> PreviewShows(preview, value)
  {
    if |value| >= 9 {
      var r := value[..4] + "***" + value[|value| - 4..];
      assert |r| == 11 && r[..4] == value[..4] && r[4..7] == "***" && r[7..] == value[|value| - 4..];
      if PreviewShows(preview, value) {
        assert preview == preview[..4] + preview[4..7] + preview[7..];
      }
    }
  }

  lemma ReportsIff(
    crypto: Crypto, input: string, options: Options, f: Finding, kind: string, s: nat, e: nat, confidence: Confidence)
    requires s <= e <= |input|
    ensures f == FoundAt(crypto, input, kind, s, e, confidence, options)
       <==> Reports(crypto, input, options, f, kind, s, e, confidence)
  {
    PreviewIff(f.preview, input[s..e]);
  }

  // ---------- prefixed tokens ----------

  /** The prefix stands at `p`, and no earlier one stands in the same run. */
  predicate OpensRun(input: string, prefix: string, p: nat) {
    && OccursAt(input, prefix, p)
    && forall q: nat :: q < p && OccursAt(input, prefix, q) ==> exists k :: q <= k < p && !InToken(input[k])
  }

  predicate PrefixedToken(
    crypto: Crypto, input: string, rule: PrefixRule, options: Options, f: Finding, p: nat, e: nat)
  {
    && OpensRun(input, rule.prefix, p) && TokenRun(input, p, e) && e - p >= rule.minLen
    && Reports(crypto, input, options, f, rule.kind, p, e, rule.confidence)
  }

  lemma OpensRunIff(input: string, prefix: string, p: nat)
    requires prefix != "" && AllToken(prefix)
    ensures OpensRun(input, prefix, p) <==> FirstInRun(input, prefix, p)
  {
    if OccursAt(input, prefix, p) {
      StartsWithToken(input, prefix, p);
      forall q: nat | q < p && OccursAt(input, prefix, q)
        ensures TokenEnd(input, q) <= p <==> exists k :: q <= k < p && !InToken(input[k])
      {
        RunReachesIff(input, q, p);
      }
    }
  }

  lemma StartsWithToken(input: string, prefix: string, p: nat)
    requires prefix != "" && AllToken(prefix) && OccursAt(input, prefix, p)
    ensures p < |input| && InToken(input[p])
  {
    CharOf(input, prefix, p, 0);
    InTokenIff(input[p]);
  }

  lemma RunReachesIff(input: string, q: nat, p: nat)
    requires q < p < |input| && InToken(input[p])
    ensures TokenEnd(input, q) <= p <==> exists k :: q <= k < p && !InToken(input[k])
  {
    var e := TokenEnd(input, q);
    TokenRunIff(input, q, e);
    if e <= p { assert !InToken(input[e]); }
  }

  /** A prefixed token is reported exactly for each long enough rest of a run behind the first prefix in it. */
  lemma PrefixedIff(crypto: Crypto, input: string, rule: PrefixRule, options: Options, f: Finding)
    ensures f in PrefixedTokens(crypto, input, rule, options, |input|)
       <==> exists p: nat, e: nat :: PrefixedToken(crypto, input, rule, options, f, p, e)
  {
    PrefixedFindings(crypto, input, rule, options, f);
    forall p: nat, e: nat
      ensures PrefixedToken(crypto, input, rule, options, f, p, e)
         <==> p < |input| && FirstInRun(input, rule.prefix, p) && f in PrefixedAt(crypto, input, rule, options)(p)
              && e == TokenEnd(input, p)
    {
      PrefixedTokenIff(crypto, input, rule, options, f, p, e);
    }
    if f in PrefixedTokens(crypto, input, rule, options, |input|) {
      var p: nat :| p < |input| && FirstInRun(input, rule.prefix, p)
                    && f in PrefixedAt(crypto, input, rule, options)(p);
      assert PrefixedToken(crypto, input, rule, options, f, p, TokenEnd(input, p));
    }
  }

  lemma PrefixedTokenIff(
    crypto: Crypto, input: string, rule: PrefixRule, options: Options, f: Finding, p: nat, e: nat)
    ensures PrefixedToken(crypto, input, rule, options, f, p, e)
       <==> p < |input| && FirstInRun(input, rule.prefix, p) && f in PrefixedAt(crypto, input, rule, options)(p)
            && e == TokenEnd(input, p)
  {
    OpensRunIff(input, rule.prefix, p);
    if OccursAt(input, rule.prefix, p) {
      StartsWithToken(input, rule.prefix, p);
      TokenRunIff(input, p, e);
      ReportsIff(crypto, input, options, f, rule.kind, p, TokenEnd(input, p), rule.confidence);
    }
  }

  // ---------- words in any case ----------

  /** The word stands at `p`, its letters in any case. */
  predicate Spelled(input: string, word: string, p: nat) {
    p + |word| <= |input| && SameButCase(input[p..p + |word|], word)
  }

  lemma SpelledIff(input: string, word: string, p: nat)
    requires NoUpper(word)
    ensures OccursAt(Lower(input), word, p) <==> Spelled(input, word, p)
  {
    if p + |word| <= |input| {
      assert Lower(input)[p..p + |word|] == Lower(input[p..p + |word|]);
      LowerMeans(input[p..p + |word|], word);
    }
  }

  // ---------- bearer tokens ----------

  predicate BearerToken(crypto: Crypto, input: string, options: Options, f: Finding, p: nat, e: nat) {
    && Spelled(input, "bearer ", p) && EvenBefore(input, p) && TokenRun(input, p + 7, e) && e - (p + 7) >= 16
    && Reports(crypto, input, options, f, "bearer-token", p + 7, e, High)
  }

  lemma BearerWord(input: string, p: nat)
    ensures OccursAt(Lower(input), BEARER, p) <==> Spelled(input, "bearer ", p)
  {
    SpelledIff(input, "bearer ", p);
  }

  lemma BearerTokenIff(crypto: Crypto, input: string, options: Options, f: Finding, p: nat, e: nat)
    ensures BearerToken(crypto, input, options, f, p, e)
       <==> p < |input| && BearerVisited(input, p) && f in BearerAt(crypto, input, options)(p)
            && e == TokenEnd(input, p + 7)
  {
    BearerWord(input, p);
    if OccursAt(Lower(input), BEARER, p) {
      VisitedIsEven(input, p);
      TokenRunIff(input, p + 7, e);
      ReportsIff(crypto, input, options, f, "bearer-token", p + 7, TokenEnd(input, p + 7), High);
    }
  }

  /** A bearer token is reported exactly behind each `bearer `, in any case, that is not itself such a token. */
  lemma BearerIff(crypto: Crypto, input: string, options: Options, f: Finding)
    ensures f in Bearers(crypto, input, options, |input|)
       <==> exists p: nat, e: nat :: BearerToken(crypto, input, options, f, p, e)
  {
    BearerFindings(crypto, input, options, f);
    forall p: nat, e: nat
      ensures BearerToken(crypto, input, options, f, p, e)
         <==> p < |input| && BearerVisited(input, p) && f in BearerAt(crypto, input, options)(p)
              && e == TokenEnd(input, p + 7)
    {
      BearerTokenIff(crypto, input, options, f, p, e);
    }
    if f in Bearers(crypto, input, options, |input|) {
      var p: nat :| p < |input| && BearerVisited(input, p) && f in BearerAt(crypto, input, options)(p);
      assert BearerToken(crypto, input, options, f, p, TokenEnd(input, p + 7));
    }
  }

  // ---------- assigned values ----------

  predicate Separates(c: char) { c == '=' || c == ':' || IsBlank(c) }

  /** Blanks of ASCII but the vertical tab, `=`, `:` and quotes stand between a key and its value. */
  predicate Filler(c: char) { c in " \t\n\r=:\"'" || c as int == 0xC }

  /** The first separator from `p` on. */
  predicate FirstSeparator(input: string, p: nat, q: nat) {
    p <= q < |input| && Separates(input[q]) && forall k :: p <= k < q ==> !Separates(input[k])
  }

  /** The first character from `q` on that is no filler, or the end of the text. */
  predicate FirstOfValue(input: string, q: nat, t: nat) {
    && q <= t <= |input| && (forall k :: q <= k < t ==> Filler(input[k]))
    && (t < |input| ==> !Filler(input[t]))
  }

  /** The key at `p`, in any case, has the token from `t` to `e` assigned, behind the separator at `q`. */
  predicate AssignedToken(
    crypto: Crypto, input: string, rule: KeyRule, options: Options, f: Finding, p: nat, q: nat, t: nat, e: nat)
  {
    && Spelled(input, rule.key, p) && FirstSeparator(input, p + |rule.key|, q) && FirstOfValue(input, q, t)
    && TokenRun(input, t, e) && e - t >= 8
    && Reports(crypto, input, options, f, rule.kind, t, e, rule.confidence)
  }

  lemma SeparatesIff(c: char)
    ensures IsSeparator(c) <==> Separates(c)
  {
    WhitespaceMeans(c);
  }

  lemma FillerIff(c: char)
    ensures IsSkipped(c) <==> Filler(c)
  {
    var s := " \t\n\r=:\"'";
    assert s[0] == ' ' && s[1] == '\t' && s[2] == '\n' && s[3] == '\r' && s[4] == '=' && s[5] == ':';
    assert s[6] == '"' && s[7] == '\'';
  }

  lemma {:induction false} SeparatorIff(input: string, p: nat, q: nat)
    requires p <= |input|
    ensures SeparatorFrom(input, p) == Some(q) <==> FirstSeparator(input, p, q)
    decreases |input| - p
  {
    if p < |input| {
      SeparatesIff(input[p]);
      if !IsSeparator(input[p]) { SeparatorIff(input, p + 1, q); }
    }
  }

  lemma FirstOfValueIff(input: string, q: nat, t: nat)
    requires q <= |input|
    ensures SkipFrom(input, q) == t <==> FirstOfValue(input, q, t)
  {
    forall k | 0 <= k < |input| ensures IsSkipped(input[k]) <==> Filler(input[k]) { FillerIff(input[k]); }
    var r := SkipFrom(input, q);
    if FirstOfValue(input, q, t) { assert !(r < t) && !(t < r); }
  }

  lemma ValueStartIs(input: string, key: string, p: nat, q: nat, t: nat)
    requires p + |key| <= |input| && FirstSeparator(input, p + |key|, q) && FirstOfValue(input, q, t)
    ensures ValueStart(input, key, p) == t
  {
    SeparatorIff(input, p + |key|, q);
    FirstOfValueIff(input, q, t);
  }

  lemma ValueIsBehindSeparator(input: string, key: string, p: nat) returns (q: nat, t: nat)
    requires p + |key| <= |input| && SeparatorFrom(input, p + |key|).Some?
    ensures FirstSeparator(input, p + |key|, q) && FirstOfValue(input, q, t)
  {
    q := SeparatorFrom(input, p + |key|).value;
    t := SkipFrom(input, q);
    SeparatorIff(input, p + |key|, q);
    FirstOfValueIff(input, q, t);
  }

  /** What is reported for the key at `p` stands where its value starts. */
  lemma KeyAtFrom(crypto: Crypto, input: string, rule: KeyRule, options: Options, f: Finding, p: nat)
    returns (q: nat, t: nat)
    requires p + |rule.key| <= |input| && f in KeyAt(crypto, input, rule, options)(p)
    ensures FirstSeparator(input, p + |rule.key|, q) && FirstOfValue(input, q, t)
    ensures f in AssignedAt(crypto, input, rule, options, t)
  {
    assert SeparatorFrom(input, p + |rule.key|).None? ==> AssignedAt(crypto, input, rule, options, |input|) == [];
    q, t := ValueIsBehindSeparator(input, rule.key, p);
    ValueStartIs(input, rule.key, p, q, t);
  }

  lemma AssignedAtIff(crypto: Crypto, input: string, rule: KeyRule, options: Options, f: Finding, t: nat)
    requires t <= |input|
    ensures f in AssignedAt(crypto, input, rule, options, t)
       <==> exists e: nat :: TokenRun(input, t, e) && e - t >= 8
                             && Reports(crypto, input, options, f, rule.kind, t, e, rule.confidence)
  {
    var end := TokenEnd(input, t);
    ReportsIff(crypto, input, options, f, rule.kind, t, end, rule.confidence);
    TokenRunIff(input, t, end);
    forall e: nat | TokenRun(input, t, e) ensures e == end { TokenRunIff(input, t, e); }
  }

  lemma AssignedToFrom(crypto: Crypto, input: string, rule: KeyRule, options: Options, f: Finding, p: nat)
    returns (q: nat, t: nat, e: nat)
    requires NoUpper(rule.key) && AssignedTo(crypto, input, rule, options, p, f)
    ensures AssignedToken(crypto, input, rule, options, f, p, q, t, e)
  {
    SpelledIff(input, rule.key, p);
    q, t := KeyAtFrom(crypto, input, rule, options, f, p);
    AssignedAtIff(crypto, input, rule, options, f, t);
    e :| TokenRun(input, t, e) && e - t >= 8
         && Reports(crypto, input, options, f, rule.kind, t, e, rule.confidence);
  }

  lemma AssignedTokenCounts(
    crypto: Crypto, input: string, rule: KeyRule, options: Options, f: Finding, p: nat, q: nat, t: nat, e: nat)
    requires NoUpper(rule.key) && AssignedToken(crypto, input, rule, options, f, p, q, t, e)
    ensures AssignedTo(crypto, input, rule, options, p, f)
  {
    SpelledIff(input, rule.key, p);
    ValueStartIs(input, rule.key, p, q, t);
    AssignedAtIff(crypto, input, rule, options, f, t);
  }

  // ---------- high-entropy tokens ----------

  /** A word that hints at a secret stands in the 48 characters in front of `s`, in any case. */
  predicate HintedAt(input: string, s: nat, i: nat, q: nat)
    requires i < |HINTS|
  {
    Spelled(input, HINTS[i], q) && s - 48 <= q && q + |HINTS[i]| <= s
  }

  ghost predicate EntropyToken(crypto: Crypto, input: string, options: Options, f: Finding, s: nat, e: nat) {
    && TokenRun(input, s, e) && e - s >= 24 && (s > 0 ==> !InToken(input[s - 1]))
    && crypto.highEntropy(input[s..e])
    && !("lockrail://" <= input[s..e])
    && (exists k :: s <= k < e && '0' <= input[k] <= '9')
    && (exists k :: s <= k < e && ('a' <= input[k] <= 'z' || 'A' <= input[k] <= 'Z'))
    && (exists i: nat, q: nat :: i < |HINTS| && HintedAt(input, s, i, q))
    && Reports(crypto, input, options, f, "high-entropy-token", s, e, Low)
  }

  lemma HintsAreLower(i: nat)
    requires i < |HINTS|
    ensures NoUpper(HINTS[i])
  {}

  lemma WindowHolds(input: string, s: nat, from: nat, word: string)
    requires from <= s <= |input| && NoUpper(word)
    ensures Contains(Lower(input[from..s]), word)
       <==> exists q: nat :: from <= q && q + |word| <= s && Spelled(input, word, q)
  {
    var window := Lower(input[from..s]);
    assert window == Lower(input)[from..s];
    if Contains(window, word) {
      var k :| 0 <= k <= |window| && OccursAt(window, word, k);
      OccursInPart(Lower(input), from, s, word, k);
      SpelledIff(input, word, from + k);
    }
    if q: nat :| from <= q && q + |word| <= s && Spelled(input, word, q) {
      OccursInPart(Lower(input), from, s, word, q - from);
      SpelledIff(input, word, q);
    }
  }

  lemma HintIff(input: string, s: nat, i: nat)
    requires s <= |input| && i < |HINTS|
    ensures
      var from := if s >= 48 then s - 48 else 0;
      Contains(Lower(input[from..s]), HINTS[i]) <==> exists q: nat :: HintedAt(input, s, i, q)
  {
    var from := if s >= 48 then s - 48 else 0;
    HintsAreLower(i);
    WindowHolds(input, s, from, HINTS[i]);
    if Contains(Lower(input[from..s]), HINTS[i]) {
      var q: nat :| from <= q && q + |HINTS[i]| <= s && Spelled(input, HINTS[i], q);
      assert HintedAt(input, s, i, q);
    }
    if q: nat :| HintedAt(input, s, i, q) {
      assert from <= q && q + |HINTS[i]| <= s && Spelled(input, HINTS[i], q);
    }
  }

  lemma ContextIff(input: string, s: nat)
    requires s <= |input|
    ensures ContextSuggests(input, s) <==> exists i: nat, q: nat :: i < |HINTS| && HintedAt(input, s, i, q)
  {
    var from := if s >= 48 then s - 48 else 0;
    forall i: nat | i < |HINTS|
      ensures Contains(Lower(input[from..s]), HINTS[i]) <==> exists q: nat :: HintedAt(input, s, i, q)
    {
      HintIff(input, s, i);
    }
  }

  lemma SuspiciousIff(crypto: Crypto, input: string, s: nat, e: nat)
    requires s <= e <= |input|
    ensures Suspicious(crypto, input, s, e)
       <==> && e - s >= 24 && crypto.highEntropy(input[s..e]) && !("lockrail://" <= input[s..e])
            && (exists k :: s <= k < e && '0' <= input[k] <= '9')
            && (exists k :: s <= k < e && ('a' <= input[k] <= 'z' || 'A' <= input[k] <= 'Z'))
            && exists i: nat, q: nat :: i < |HINTS| && HintedAt(input, s, i, q)
  {
    ContextIff(input, s);
    OpeningIff(input[s..e]);
    DigitIff(input, s, e);
    LetterIff(input, s, e);
  }

  lemma OpeningIff(value: string)
    ensures StartsWith(value, "lockrail://") <==> "lockrail://" <= value
  {
    if |value| >= 11 { assert value[0..11] == value[..11]; }
  }

  lemma DigitIff(input: string, s: nat, e: nat)
    requires s <= e <= |input|
    ensures (exists k :: 0 <= k < e - s && IsAsciiDigit(input[s..e][k]))
       <==> exists k :: s <= k < e && '0' <= input[k] <= '9'
  {
    if k :| 0 <= k < e - s && IsAsciiDigit(input[s..e][k]) { assert '0' <= input[s + k] <= '9'; }
    if k :| s <= k < e && '0' <= input[k] <= '9' { assert IsAsciiDigit(input[s..e][k - s]); }
  }

  lemma LetterIff(input: string, s: nat, e: nat)
    requires s <= e <= |input|
    ensures (exists k :: 0 <= k < e - s && IsAsciiAlphabetic(input[s..e][k]))
       <==> exists k :: s <= k < e && ('a' <= input[k] <= 'z' || 'A' <= input[k] <= 'Z')
  {
    if k :| 0 <= k < e - s && IsAsciiAlphabetic(input[s..e][k]) {
      assert 'a' <= input[s + k] <= 'z' || 'A' <= input[s + k] <= 'Z';
    }
    if k :| s <= k < e && ('a' <= input[k] <= 'z' || 'A' <= input[k] <= 'Z') {
      assert IsAsciiAlphabetic(input[s..e][k - s]);
    }
  }

  lemma EntropyTokenIff(crypto: Crypto, input: string, options: Options, f: Finding, s: nat, e: nat)
    ensures EntropyToken(crypto, input, options, f, s, e)
       <==> s < |input| && EntropyHit(crypto, input, s) && e == TokenEnd(input, s)
            && f == EntropyAt(crypto, input, options, s)
  {
    if s < |input| {
      TokenRunIff(input, s, e);
      InTokenIff(input[s]);
      if s > 0 { InTokenIff(input[s - 1]); }
      SuspiciousIff(crypto, input, s, TokenEnd(input, s));
      ReportsIff(crypto, input, options, f, "high-entropy-token", s, TokenEnd(input, s), Low);
    }
  }

  /** A high-entropy token is reported exactly for each such maximal run. */
  lemma EntropyIff(crypto: Crypto, input: string, options: Options, f: Finding)
    ensures f in EntropyRuns(crypto, input, options, |input|)
       <==> exists s: nat, e: nat :: EntropyToken(crypto, input, options, f, s, e)
  {
    EntropyFindings(crypto, input, options, |input|, f);
    forall s: nat, e: nat
      ensures EntropyToken(crypto, input, options, f, s, e)
         <==> s < |input| && EntropyHit(crypto, input, s) && e == TokenEnd(input, s)
              && f == EntropyAt(crypto, input, options, s)
    {
      EntropyTokenIff(crypto, input, options, f, s, e);
    }
    if f in EntropyRuns(crypto, input, options, |input|) {
      assert EntropyToken(crypto, input, options, f, f.start, TokenEnd(input, f.start));
    }
  }

  // ---------- JWTs and database URLs ----------

  predicate InJwt(c: char) { 'a' <= c <= 'z' || 'A' <= c <= 'Z' || '0' <= c <= '9' || c in "-_." }

  /** What ends a URL: a blank of ASCII but the vertical tab, a quote of any kind, or a closing bracket of any kind. */
  predicate EndsUrl(c: char) { c in " \t\n\r\"'`)]}" || c as int == 0xC }

  /** The characters that `ok` accepts go on from `s` to `e`, and no further. */
  predicate RunOf(input: string, ok: char -> bool, s: nat, e: nat) {
    && s <= e <= |input| && (forall k :: s <= k < e ==> ok(input[k])) && (e < |input| ==> !ok(input[e]))
  }

  lemma RunOfIff(input: string, ok: char -> bool, same: char -> bool, s: nat, e: nat)
    requires s <= |input| && forall c :: ok(c) <==> same(c)
    ensures RunEnd(input, s, ok) == e <==> RunOf(input, same, s, e)
  {
    if RunOf(input, same, s, e) { RunEndIs(input, s, e, ok); }
  }

  lemma InJwtIff(c: char)
    ensures IsJwtChar(c) <==> InJwt(c)
  {
    assert "-_."[0] == '-' && "-_."[1] == '_' && "-_."[2] == '.';
  }

  lemma EndsUrlIff(c: char)
    ensures InUrl(c) <==> !EndsUrl(c)
  {
    var s := " \t\n\r\"'`)]}";
    assert s[0] == ' ' && s[1] == '\t' && s[2] == '\n' && s[3] == '\r' && s[4] == '"' && s[5] == '\'';
    assert s[6] == '`' && s[7] == ')' && s[8] == ']' && s[9] == '}';
  }

  /** The dots between `s` and `e` are those at `i` and `j`. */
  predicate DotsAt(input: string, s: nat, e: nat, i: nat, j: nat)
    requires s <= e <= |input|
  {
    forall k :: s <= k < e ==> (input[k] == '.' <==> k == i || k == j)
  }

  lemma {:induction false} NoDots(input: string, s: nat, e: nat)
    requires s <= e <= |input|
    ensures CountChar(input[s..e], '.') == 0 <==> forall k :: s <= k < e ==> input[k] != '.'
    decreases e - s
  {
    if s < e {
      NoDots(input, s + 1, e);
      assert input[s..e][1..] == input[s + 1..e];
    }
  }

  ghost predicate SingleDot(input: string, s: nat, e: nat)
    requires s <= e <= |input|
  {
    exists i: nat :: s <= i < e && DotsAt(input, s, e, i, i)
  }

  ghost predicate TwoDots(input: string, s: nat, e: nat)
    requires s <= e <= |input|
  {
    exists i: nat, j: nat :: s <= i < j < e && DotsAt(input, s, e, i, j)
  }

  lemma DotsBehind(input: string, s: nat, e: nat, i: nat, j: nat)
    requires s < e <= |input| && s < i <= j < e
    ensures input[s] != '.' ==> (DotsAt(input, s, e, i, j) <==> DotsAt(input, s + 1, e, i, j))
    ensures input[s] == '.' ==> (DotsAt(input, s, e, s, j) <==> DotsAt(input, s + 1, e, j, j))
  {}

  /** With no dot in front, the dots are those of the rest; with one in front, the rest has one less. */
  lemma SingleDotStep(input: string, s: nat, e: nat)
    requires s < e <= |input|
    ensures input[s] != '.' ==> (SingleDot(input, s, e) <==> SingleDot(input, s + 1, e))
    ensures input[s] == '.' ==> (SingleDot(input, s, e) <==> forall k :: s < k < e ==> input[k] != '.')
  {
    if input[s] == '.' {
      if forall k :: s < k < e ==> input[k] != '.' { assert DotsAt(input, s, e, s, s); }
      if i: nat :| s <= i < e && DotsAt(input, s, e, i, i) { assert i == s; }
    } else {
      forall i: nat | s < i < e ensures DotsAt(input, s, e, i, i) <==> DotsAt(input, s + 1, e, i, i) {
        DotsBehind(input, s, e, i, i);
      }
      if SingleDot(input, s + 1, e) {
        var m := s + 1;
        var i: nat :| m <= i < e && DotsAt(input, m, e, i, i);
        assert DotsAt(input, s, e, i, i);
      }
      if i: nat :| s <= i < e && DotsAt(input, s, e, i, i) { assert i > s && DotsAt(input, s + 1, e, i, i); }
    }
  }

  lemma TwoDotsStep(input: string, s: nat, e: nat)
    requires s < e <= |input|
    ensures input[s] != '.' ==> (TwoDots(input, s, e) <==> TwoDots(input, s + 1, e))
    ensures input[s] == '.' ==> (TwoDots(input, s, e) <==> SingleDot(input, s + 1, e))
  {
    if TwoDots(input, s, e) {
      var i: nat, j: nat :| s <= i < j < e && DotsAt(input, s, e, i, j);
      assert input[s] == '.' ==> i == s;
      if input[s] == '.' { DotsBehind(input, s, e, j, j); } else { DotsBehind(input, s, e, i, j); }
    }
    if input[s] != '.' && TwoDots(input, s + 1, e) {
      var m := s + 1;
      var i: nat, j: nat :| m <= i < j < e && DotsAt(input, m, e, i, j);
      DotsBehind(input, s, e, i, j);
    }
    if input[s] == '.' && SingleDot(input, s + 1, e) {
      var m := s + 1;
      var j: nat :| m <= j < e && DotsAt(input, m, e, j, j);
      DotsBehind(input, s, e, j, j);
    }
  }

  lemma {:induction false} DotsAreCounted(input: string, s: nat, e: nat)
    requires s <= e <= |input|
    ensures CountChar(input[s..e], '.') == 1 <==> SingleDot(input, s, e)
    ensures CountChar(input[s..e], '.') == 2 <==> TwoDots(input, s, e)
    decreases e - s
  {
    if s < e {
      DotsAreCounted(input, s + 1, e);
      NoDots(input, s + 1, e);
      SingleDotStep(input, s, e);
      TwoDotsStep(input, s, e);
      assert input[s..e][1..] == input[s + 1..e];
    }
  }

  /** The marker stands at `p`, and no earlier one in a run of the class that reaches it. */
  ghost predicate OpensRunOf(input: string, text: string, marker: string, ok: char -> bool, p: nat) {
    && OccursAt(text, marker, p)
    && forall q: nat :: q < p && OccursAt(text, marker, q) ==> Broken(input, ok, q, p)
  }

  ghost predicate Broken(input: string, ok: char -> bool, q: nat, p: nat) {
    exists k :: q <= k < p && k < |input| && !ok(input[k])
  }

  ghost predicate Jwt(crypto: Crypto, input: string, options: Options, f: Finding, p: nat, e: nat) {
    && OpensRunOf(input, input, "eyJ", InJwt, p) && RunOf(input, InJwt, p, e)
    && TwoDots(input, p, e) && e - p >= 40
    && Reports(crypto, input, options, f, "jwt", p, e, Medium)
  }

  lemma FirstOfRunIff(
    input: string, text: string, marker: string, next: nat -> nat, ok: char -> bool, same: char -> bool, p: nat)
    requires marker != "" && |text| == |input| && forall c :: ok(c) <==> same(c)
    requires forall q: nat :: OccursAt(text, marker, q) ==> q <= |input| && next(q) == RunEnd(input, q, ok)
    requires forall q: nat :: OccursAt(text, marker, q) ==> q < |input| && ok(input[q])
    ensures FirstOfRun(text, marker, next, p) <==> OpensRunOf(input, text, marker, same, p)
  {
    if OccursAt(text, marker, p) {
      forall q: nat | q < p && OccursAt(text, marker, q) ensures next(q) <= p <==> Broken(input, same, q, p) {
        var e := RunEnd(input, q, ok);
        if e <= p { assert !same(input[e]); }
      }
    }
  }

  lemma JwtIffAt(crypto: Crypto, input: string, options: Options, f: Finding, p: nat, e: nat)
    requires OccursAt(input, "eyJ", p)
    ensures RunOf(input, InJwt, p, e) && TwoDots(input, p, e) && e - p >= 40
            && Reports(crypto, input, options, f, "jwt", p, e, Medium)
       <==> f in JwtAt(crypto, input, options)(p) && e == RunEnd(input, p, IsJwtChar)
  {
    forall c ensures IsJwtChar(c) <==> InJwt(c) { InJwtIff(c); }
    var end := RunEnd(input, p, IsJwtChar);
    RunOfIff(input, IsJwtChar, InJwt, p, e);
    DotsAreCounted(input, p, end);
    ReportsIff(crypto, input, options, f, "jwt", p, end, Medium);
  }

  lemma JwtOpens(input: string, p: nat)
    ensures FirstOfRun(input, JWT_MARKER, JwtNext(input), p) <==> OpensRunOf(input, input, "eyJ", InJwt, p)
  {
    forall c ensures IsJwtChar(c) <==> InJwt(c) { InJwtIff(c); }
    JwtRuns(input);
    forall q: nat | OccursAt(input, JWT_MARKER, q) ensures q < |input| && IsJwtChar(input[q]) {
      CharOf(input, JWT_MARKER, q, 0);
    }
    FirstOfRunIff(input, input, JWT_MARKER, JwtNext(input), IsJwtChar, InJwt, p);
  }

  /** A JWT is reported exactly for the rest of each run behind its first `eyJ`, if it is long and has two dots. */
  lemma JwtIff(crypto: Crypto, input: string, options: Options, f: Finding)
    ensures f in Jwts(crypto, input, options, |input|)
       <==> exists p: nat, e: nat :: Jwt(crypto, input, options, f, p, e)
  {
    JwtFindings(crypto, input, options, f);
    if f in Jwts(crypto, input, options, |input|) {
      var p: nat :| p < |input| && FirstOfRun(input, JWT_MARKER, JwtNext(input), p)
                    && f in JwtAt(crypto, input, options)(p);
      JwtOpens(input, p);
      JwtIffAt(crypto, input, options, f, p, RunEnd(input, p, IsJwtChar));
      assert Jwt(crypto, input, options, f, p, RunEnd(input, p, IsJwtChar));
    }
    if p: nat, e: nat :| Jwt(crypto, input, options, f, p, e) {
      JwtOpens(input, p);
      JwtIffAt(crypto, input, options, f, p, e);
    }
  }

  predicate StaysInUrl(c: char) { !EndsUrl(c) }

  /** The scheme stands at `p`, in any case, and no earlier one in a run that reaches it. */
  ghost predicate OpensUrl(input: string, scheme: string, p: nat) {
    && Spelled(input, scheme, p)
    && forall q: nat :: q < p && Spelled(input, scheme, q) ==> Broken(input, StaysInUrl, q, p)
  }

  ghost predicate DatabaseUrl(
    crypto: Crypto, input: string, options: Options, f: Finding, scheme: string, p: nat, e: nat)
  {
    && OpensUrl(input, scheme, p) && RunOf(input, StaysInUrl, p, e)
    && (exists k :: p <= k < e && input[k] == '@') && e - p >= 16
    && Reports(crypto, input, options, f, "database-url", p, e, High)
  }

  lemma SqlSchemesAreLower()
    ensures NoUpper("postgresql://") && NoUpper("postgres://") && NoUpper("mysql://")
  {}

  lemma StoreSchemesAreLower()
    ensures NoUpper("mongodb+srv://") && NoUpper("mongodb://") && NoUpper("redis://") && NoUpper("rediss://")
    ensures NoUpper("amqp://") && NoUpper("amqps://")
  {}

  lemma SchemesAreLower(i: nat)
    requires i < |SCHEMES|
    ensures NoUpper(SCHEMES[i]) && SCHEMES[i] != ""
  {
    SqlSchemesAreLower();
    StoreSchemesAreLower();
  }

  lemma UrlOpens(input: string, i: nat, p: nat)
    requires i < |SCHEMES|
    ensures FirstOfRun(Lower(input), SCHEMES[i], UrlNext(input, SCHEMES[i]), p) <==> OpensUrl(input, SCHEMES[i], p)
  {
    var scheme := SCHEMES[i];
    SchemesAreLower(i);
    SchemesAreInUrl(i);
    forall c ensures InUrl(c) <==> StaysInUrl(c) { EndsUrlIff(c); }
    forall q: nat | OccursAt(Lower(input), scheme, q)
      ensures q < |input| && UrlNext(input, scheme)(q) == RunEnd(input, q, InUrl) && InUrl(input[q])
    {
      SchemeInRun(input, scheme, q);
    }
    FirstOfRunIff(input, Lower(input), scheme, UrlNext(input, scheme), InUrl, StaysInUrl, p);
    forall q: nat ensures OccursAt(Lower(input), scheme, q) <==> Spelled(input, scheme, q) {
      SpelledIff(input, scheme, q);
    }
  }

  lemma UrlIffAt(crypto: Crypto, input: string, options: Options, f: Finding, p: nat, e: nat)
    requires p <= |input|
    ensures RunOf(input, StaysInUrl, p, e) && (exists k :: p <= k < e && input[k] == '@') && e - p >= 16
            && Reports(crypto, input, options, f, "database-url", p, e, High)
       <==> f in UrlAt(crypto, input, options)(p) && e == RunEnd(input, p, InUrl)
  {
    forall c ensures InUrl(c) <==> StaysInUrl(c) { EndsUrlIff(c); }
    var end := RunEnd(input, p, InUrl);
    RunOfIff(input, InUrl, StaysInUrl, p, e);
    HoldsIff(input, p, end, '@');
    ReportsIff(crypto, input, options, f, "database-url", p, end, High);
  }

  lemma HoldsIff(input: string, s: nat, e: nat, c: char)
    requires s <= e <= |input|
    ensures c in input[s..e] <==> exists k :: s <= k < e && input[k] == c
  {
    if c in input[s..e] {
      var i :| 0 <= i < e - s && input[s..e][i] == c;
      assert input[s + i] == c;
    }
    if k :| s <= k < e && input[k] == c { assert input[s..e][k - s] == c; }
  }

  /** A URL is reported for a scheme exactly for the rest of each run behind its first occurrence in it. */
  lemma UrlIff(crypto: Crypto, input: string, options: Options, i: nat, f: Finding)
    requires i < |SCHEMES|
    ensures f in SchemeUrls(crypto, input, options, SCHEMES[i], |input|)
       <==> exists p: nat, e: nat :: DatabaseUrl(crypto, input, options, f, SCHEMES[i], p, e)
  {
    UrlFindings(crypto, input, options, i, f);
    if f in SchemeUrls(crypto, input, options, SCHEMES[i], |input|) {
      var p: nat :| p < |input| && FirstOfRun(Lower(input), SCHEMES[i], UrlNext(input, SCHEMES[i]), p)
                    && f in UrlAt(crypto, input, options)(p);
      UrlOpens(input, i, p);
      UrlIffAt(crypto, input, options, f, p, RunEnd(input, p, InUrl));
      assert DatabaseUrl(crypto, input, options, f, SCHEMES[i], p, RunEnd(input, p, InUrl));
    }
    if p: nat, e: nat :| DatabaseUrl(crypto, input, options, f, SCHEMES[i], p, e) {
      SchemesAreLower(i);
      UrlOpens(input, i, p);
      UrlIffAt(crypto, input, options, f, p, e);
    }
  }

  // ---------- private key blocks ----------

  /** The first place from `p` on where the word stands. */
  predicate FirstFrom(input: string, word: string, p: nat, at: nat) {
    p <= at && OccursAt(input, word, at) && forall q: nat :: p <= q < at ==> !OccursAt(input, word, q)
  }

  /** The block that opens at `p` is closed in front of `e`: five dashes follow the first end marker. */
  ghost predicate Closes(input: string, p: nat, e: nat) {
    exists b: nat, c: nat :: EndsAt(input, p, b, c, e)
  }

  predicate EndsAt(input: string, p: nat, b: nat, c: nat, e: nat) {
    FirstFrom(input, "-----END ", p, b) && FirstFrom(input, "-----", b + 9, c) && e == c + 5
  }

  /** Where the search goes on after the marker at `p`: behind its block, or behind the marker. */
  ghost predicate GoesOn(input: string, p: nat, r: nat) {
    Closes(input, p, r) || (r == p + 11 && forall e: nat :: !Closes(input, p, e))
  }

  /** The begin marker at `p` is not inside what follows an earlier one that is reached. */
  ghost predicate Reached(input: string, p: nat)
    decreases p
  {
    && OccursAt(input, "-----BEGIN ", p)
    && forall q: nat, r: nat | q < p && Reached(input, q) && GoesOn(input, q, r) :: r <= p
  }

  const KEY_WORDS: seq<string> := ["PRIVATE KEY", "OPENSSH", "PGP"]

  ghost predicate KeyBlock(crypto: Crypto, input: string, options: Options, f: Finding, p: nat, e: nat) {
    && Reached(input, p) && Closes(input, p, e)
    && (exists i: nat, q: nat :: i < |KEY_WORDS| && Named(input, i, p, q, e))
    && Reports(crypto, input, options, f, "private-key-block", p, e, High)
  }

  predicate Named(input: string, i: nat, p: nat, q: nat, e: nat)
    requires i < |KEY_WORDS|
  {
    p <= q && OccursAt(input, KEY_WORDS[i], q) && q + |KEY_WORDS[i]| <= e
  }

  lemma ClosesIff(input: string, p: nat, e: nat)
    requires p <= |input|
    ensures Closes(input, p, e) <==> KeyBlockEnd(input, p) == Some(e)
  {
    var b := FindFrom(input, END_MARKER, p);
    if b.Some? {
      FirstFromIff(input, END_MARKER, p, b.value);
      var c := FindFrom(input, CLOSE_MARKER, b.value + 9);
      if c.Some? {
        FirstFromIff(input, CLOSE_MARKER, b.value + 9, c.value);
        assert EndsAt(input, p, b.value, c.value, c.value + 5);
      }
    }
    forall b': nat, c': nat | EndsAt(input, p, b', c', e) ensures KeyBlockEnd(input, p) == Some(e) {
      OnlyFirst(input, END_MARKER, p, b');
      OnlyFirst(input, CLOSE_MARKER, b' + 9, c');
    }
  }

  lemma OnlyFirst(input: string, word: string, p: nat, at: nat)
    requires FirstFrom(input, word, p, at)
    ensures p <= |input| && FindFrom(input, word, p) == Some(at)
  {
    var r := FindFrom(input, word, p);
    assert r.Some? && !(r.value < at) && !(at < r.value);
  }

  lemma FirstFromIff(input: string, word: string, p: nat, at: nat)
    requires p <= |input| && FindFrom(input, word, p) == Some(at)
    ensures FirstFrom(input, word, p, at)
  {}

  lemma GoesOnIff(input: string, p: nat, r: nat)
    requires p <= |input|
    ensures GoesOn(input, p, r) <==> KeyBlockNext(input)(p) == r
  {
    forall e: nat ensures Closes(input, p, e) <==> KeyBlockEnd(input, p) == Some(e) { ClosesIff(input, p, e); }
  }

  lemma {:induction false} ReachedIff(input: string, p: nat)
    ensures Reached(input, p) <==> Visited(input, BEGIN_MARKER, KeyBlockNext(input), p)
    decreases p
  {
    if OccursAt(input, BEGIN_MARKER, p) {
      forall q: nat | q < p
        ensures Reached(input, q) <==> Visited(input, BEGIN_MARKER, KeyBlockNext(input), q)
        ensures GoesOn(input, q, KeyBlockNext(input)(q))
      {
        ReachedIff(input, q);
        GoesOnIff(input, q, KeyBlockNext(input)(q));
      }
      forall q: nat, r: nat | q < p && GoesOn(input, q, r) ensures r == KeyBlockNext(input)(q) {
        GoesOnIff(input, q, r);
      }
      if Reached(input, p) {
        forall q: nat | q < p && Visited(input, BEGIN_MARKER, KeyBlockNext(input), q)
          ensures KeyBlockNext(input)(q) <= p
        {
          assert GoesOn(input, q, KeyBlockNext(input)(q));
        }
      }
    }
  }

  lemma NamedIff(input: string, p: nat, e: nat)
    requires p <= e <= |input|
    ensures NamesPrivateKey(input[p..e]) <==> exists i: nat, q: nat :: i < |KEY_WORDS| && Named(input, i, p, q, e)
  {
    forall i: nat | i < |KEY_WORDS|
      ensures Contains(input[p..e], KEY_WORDS[i]) <==> exists q: nat :: Named(input, i, p, q, e)
    {
      PartHolds(input, p, e, KEY_WORDS[i], i);
    }
    assert KEY_WORDS[0] == "PRIVATE KEY" && KEY_WORDS[1] == "OPENSSH" && KEY_WORDS[2] == "PGP";
  }

  lemma PartHolds(input: string, p: nat, e: nat, word: string, i: nat)
    requires p <= e <= |input| && i < |KEY_WORDS| && word == KEY_WORDS[i]
    ensures Contains(input[p..e], word) <==> exists q: nat :: Named(input, i, p, q, e)
  {
    if Contains(input[p..e], word) {
      var k :| 0 <= k <= e - p && OccursAt(input[p..e], word, k);
      OccursInPart(input, p, e, word, k);
      assert Named(input, i, p, p + k, e);
    }
    if q: nat :| Named(input, i, p, q, e) { OccursInPart(input, p, e, word, q - p); }
  }

  /** A private key block is reported exactly from each begin marker that is reached, if it closes and names a key. */
  lemma KeyBlockIff(crypto: Crypto, input: string, options: Options, f: Finding)
    ensures f in KeyBlocks(crypto, input, options, |input|)
       <==> exists p: nat, e: nat :: KeyBlock(crypto, input, options, f, p, e)
  {
    EmittedFrom(input, BEGIN_MARKER, KeyBlockNext(input), KeyBlockAt(crypto, input, options), |input|, f);
    forall p: nat, e: nat
      ensures KeyBlock(crypto, input, options, f, p, e)
         <==> p < |input| && Visited(input, BEGIN_MARKER, KeyBlockNext(input), p)
              && f in KeyBlockAt(crypto, input, options)(p) && KeyBlockEnd(input, p) == Some(e)
    {
      KeyBlockIffAt(crypto, input, options, f, p, e);
    }
    if f in KeyBlocks(crypto, input, options, |input|) {
      var p: nat :| p < |input| && Visited(input, BEGIN_MARKER, KeyBlockNext(input), p)
                    && f in KeyBlockAt(crypto, input, options)(p);
      assert KeyBlock(crypto, input, options, f, p, KeyBlockEnd(input, p).value);
    }
  }

  lemma KeyBlockIffAt(crypto: Crypto, input: string, options: Options, f: Finding, p: nat, e: nat)
    ensures KeyBlock(crypto, input, options, f, p, e)
       <==> p < |input| && Visited(input, BEGIN_MARKER, KeyBlockNext(input), p)
            && f in KeyBlockAt(crypto, input, options)(p) && KeyBlockEnd(input, p) == Some(e)
  {
    ReachedIff(input, p);
    if OccursAt(input, BEGIN_MARKER, p) {
      ClosesIff(input, p, e);
      if KeyBlockEnd(input, p) == Some(e) {
        NamedIff(input, p, e);
        ReportsIff(crypto, input, options, f, "private-key-block", p, e, High);
      }
    }
  }
}
