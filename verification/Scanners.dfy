/**
 The scanners of the sealing engine. Each is a loop over the text that jumps from one
 occurrence of its marker to the next.
 */
module Scanners {
  import opened Basics
  import opened Text
  import opened Findings
  import opened TokenRuns
  import opened Visits

  /** The fingerprint of a value, and the entropy test on a token; both are parameters. */
  datatype Crypto = Crypto(fingerprint: string -> string, highEntropy: string -> bool)

  function RedactedPreview(value: string): string {
    if |value| == 0 then ""
    else if |value| <= 8 then "***"
    else value[..4] + "***" + value[|value| - 4..]
  }

  /** What `push_finding` pushes. */
  function Found(
    crypto: Crypto, kind: string, start: nat, end: nat, value: string, confidence: Confidence, options: Options)
    : Finding
  {
    Finding(kind, start, end, value, crypto.fingerprint(value), confidence, ShouldSeal(confidence, options),
            RedactedPreview(value))
  }

  /** The finding for the span from `start` to `end`, with the text of the span as its value. */
  function FoundAt(
    crypto: Crypto, input: string, kind: string, start: nat, end: nat, confidence: Confidence, options: Options)
    : Finding
    requires start <= end <= |input|
  {
    Found(crypto, kind, start, end, input[start..end], confidence, options)
  }

  /** Every finding is what `FoundAt` gives for its own span, kind and confidence. */
  predicate Genuine(crypto: Crypto, input: string, options: Options, f: Finding) {
    f.start < f.end <= |input| && f == FoundAt(crypto, input, f.kind, f.start, f.end, f.confidence, options)
  }

  // ---------- prefixed tokens ----------

  datatype RawPrefixRule = PrefixRule(prefix: string, kind: string, minLen: nat, confidence: Confidence)

  /** A kind that fits between two slashes of a handle. */
  predicate PlainKind(kind: string) { forall i :: 0 <= i < |kind| ==> kind[i] != '/' }

  /** The rules in use: a nonempty prefix of token characters, and a plain kind. */
  type PrefixRule = r: RawPrefixRule | r.prefix != "" && AllToken(r.prefix) && PlainKind(r.kind)
    witness PrefixRule("-", "", 0, Low)

  /** Where `scan_prefixed` resumes after an occurrence at `p`. */
  function PrefixNext(input: string, prefix: string): nat -> nat {
    (p: nat) => if p <= |input| && TokenEnd(input, p) > p + |prefix| then TokenEnd(input, p) else p + |prefix|
  }

  /** The rest of the token run at `p`, if it is long enough. */
  function PrefixedAt(crypto: Crypto, input: string, rule: PrefixRule, options: Options): nat -> seq<Finding> {
    (p: nat) =>
      if p <= |input| && TokenEnd(input, p) - p >= rule.minLen
      then [FoundAt(crypto, input, rule.kind, p, TokenEnd(input, p), rule.confidence, options)] else []
  }

  ghost function PrefixedTokens(
    crypto: Crypto, input: string, rule: PrefixRule, options: Options, limit: nat): seq<Finding>
  {
    Emitted(input, rule.prefix, PrefixNext(input, rule.prefix), PrefixedAt(crypto, input, rule, options), limit)
  }

  ghost predicate PrefixScanned(
    crypto: Crypto, input: string, rule: PrefixRule, options: Options, offset: nat, out: seq<Finding>)
  {
    && offset <= |input|
    && Scanned(input, rule.prefix, PrefixNext(input, rule.prefix), PrefixedAt(crypto, input, rule, options), offset,
               out)
  }

  /** The inner loop: the first character, whatever it is, and the token characters after it. */
  method ConsumeRun(input: string, start: nat) returns (end: nat)
    requires start < |input|
    ensures end == TokenEnd(input, start + 1)
  {
    end := start;
    while end < |input| && (end == start || IsTokenChar(input[end]))
      invariant start <= end <= |input|
      invariant forall k :: start < k < end ==> IsTokenChar(input[k])
    {
      end := end + 1;
    }
    TokenEndIs(input, start + 1, end);
  }

  /** `scan_prefixed`. */
  method ScanPrefixed(crypto: Crypto, input: string, rule: PrefixRule, options: Options) returns (out: seq<Finding>)
    ensures out == PrefixedTokens(crypto, input, rule, options, |input|)
  {
    out := [];
    var offset: nat := 0;
    while true
      invariant PrefixScanned(crypto, input, rule, options, offset, out)
      decreases |input| - offset
    {
      var pos := FindFrom(input, rule.prefix, offset);
      if pos.None? {
        NoMorePrefixes(crypto, input, rule, options, offset, out);
        break;
      }
      NextPrefix(crypto, input, rule, options, offset, pos.value, out);
      offset, out := PushPrefixed(crypto, input, rule, options, pos.value, out);
    }
  }

  lemma NoMorePrefixes(
    crypto: Crypto, input: string, rule: PrefixRule, options: Options, offset: nat, out: seq<Finding>)
    requires PrefixScanned(crypto, input, rule, options, offset, out)
    requires forall q :: offset <= q ==> !OccursAt(input, rule.prefix, q)
    ensures out == PrefixedTokens(crypto, input, rule, options, |input|)
  {
    NoMore(input, rule.prefix, PrefixNext(input, rule.prefix), PrefixedAt(crypto, input, rule, options), offset,
           |input|, out);
  }

  lemma NextPrefix(
    crypto: Crypto, input: string, rule: PrefixRule, options: Options, offset: nat, p: nat, out: seq<Finding>)
    requires PrefixScanned(crypto, input, rule, options, offset, out) && offset <= p && OccursAt(input, rule.prefix, p)
    requires forall q :: offset <= q < p ==> !OccursAt(input, rule.prefix, q)
    ensures p < PrefixNext(input, rule.prefix)(p)
    ensures PrefixScanned(crypto, input, rule, options, PrefixNext(input, rule.prefix)(p), out
                          + PrefixedAt(crypto, input, rule, options)(p))
  {
    Visit(input, rule.prefix, PrefixNext(input, rule.prefix), PrefixedAt(crypto, input, rule, options), offset, p, out);
  }

  /** The body of the loop for the occurrence at `start`: read its run and push it if it is long enough. */
  method PushPrefixed(
    crypto: Crypto, input: string, rule: PrefixRule, options: Options, start: nat, before: seq<Finding>)
    returns (offset: nat, out: seq<Finding>)
    requires OccursAt(input, rule.prefix, start)
    ensures offset == PrefixNext(input, rule.prefix)(start)
    ensures out == before + PrefixedAt(crypto, input, rule, options)(start)
  {
    out := before;
    var end := ConsumeRun(input, start);
    PrefixInRun(input, rule.prefix, start);
    if end > start && end - start >= rule.minLen {
      out := out + [Found(crypto, rule.kind, start, end, input[start..end], rule.confidence, options)];
    }
    offset := if end > start + |rule.prefix| then end else start + |rule.prefix|;
  }

  /** The first occurrence of the prefix in its token run. */
  ghost predicate FirstInRun(input: string, prefix: string, p: nat) {
    OccursAt(input, prefix, p) && forall q: nat :: q < p && OccursAt(input, prefix, q) ==> TokenEnd(input, q) <= p
  }

  /** Every run with an occurrence has a visited one, no later than any other. */
  lemma RunHasVisited(input: string, prefix: string, p: nat) returns (v: nat)
    requires AllToken(prefix) && OccursAt(input, prefix, p)
    ensures v <= p && Visited(input, prefix, PrefixNext(input, prefix), v) && TokenEnd(input, v) == TokenEnd(input, p)
  {
    v := p;
    if !Visited(input, prefix, PrefixNext(input, prefix), p) {
      v :| v < p && Visited(input, prefix, PrefixNext(input, prefix), v) && PrefixNext(input, prefix)(v) > p;
      PrefixInRun(input, prefix, v);
      SameRun(input, v, p);
    }
  }

  /** The loop stops at exactly the first occurrence of each run. */
  lemma VisitedIsFirst(input: string, prefix: string, p: nat)
    requires prefix != "" && AllToken(prefix)
    ensures Visited(input, prefix, PrefixNext(input, prefix), p) <==> FirstInRun(input, prefix, p)
  {
    if Visited(input, prefix, PrefixNext(input, prefix), p) {
      forall q: nat | q < p && OccursAt(input, prefix, q) ensures TokenEnd(input, q) <= p {
        var v := RunHasVisited(input, prefix, q);
        PrefixInRun(input, prefix, v);
      }
    }
    if FirstInRun(input, prefix, p) {
      forall q: nat | q < p && Visited(input, prefix, PrefixNext(input, prefix), q)
        ensures PrefixNext(input, prefix)(q) <= p
      {
        PrefixInRun(input, prefix, q);
      }
    }
  }

  /** One finding for each first occurrence whose rest of the run is long enough, and nothing else. */
  lemma PrefixedFindings(crypto: Crypto, input: string, rule: PrefixRule, options: Options, f: Finding)
    ensures f in PrefixedTokens(crypto, input, rule, options, |input|) <==>
            exists p: nat :: p < |input| && FirstInRun(input, rule.prefix, p) &&
                             f in PrefixedAt(crypto, input, rule, options)(p)
  {
    EmittedFrom(input, rule.prefix, PrefixNext(input, rule.prefix), PrefixedAt(crypto, input, rule, options), |input|,
                f);
    forall p: nat
      ensures Visited(input, rule.prefix, PrefixNext(input, rule.prefix), p) <==> FirstInRun(input, rule.prefix, p)
    {
      VisitedIsFirst(input, rule.prefix, p);
    }
  }

  /**
   Every occurrence of the prefix whose rest of the run is long enough lies, with all of
   that rest, inside some finding of the pass.
   */
  lemma EveryOccurrenceFound(
    crypto: Crypto, input: string, rule: PrefixRule, options: Options, p: nat) returns (f: Finding)
    requires OccursAt(input, rule.prefix, p) && TokenEnd(input, p) - p >= rule.minLen
    ensures f in PrefixedTokens(crypto, input, rule, options, |input|) && f.start <= p && f.end == TokenEnd(input, p)
  {
    var v := RunHasVisited(input, rule.prefix, p);
    f := FoundAt(crypto, input, rule.kind, v, TokenEnd(input, v), rule.confidence, options);
    assert f in PrefixedAt(crypto, input, rule, options)(v);
    EmittedFrom(input, rule.prefix, PrefixNext(input, rule.prefix), PrefixedAt(crypto, input, rule, options), |input|,
                f);
  }

  /** The findings of one pass are in order and disjoint. */
  lemma PrefixedDisjoint(crypto: Crypto, input: string, rule: PrefixRule, options: Options)
    ensures Disjoint(PrefixedTokens(crypto, input, rule, options, |input|))
  {
    EmittedDisjoint(input, rule.prefix, PrefixNext(input, rule.prefix), PrefixedAt(crypto, input, rule, options),
                    |input|);
  }

  // ---------- bearer tokens ----------

  const BEARER: string := "bearer "

  /** A scanner that starts slicing past the end of the text panics. */
  datatype Panic = OutOfBounds

  /** Where `scan_bearer` resumes after an occurrence at `p`. */
  function BearerNext(input: string): nat -> nat {
    (p: nat) => if p + 7 <= |input| && TokenEnd(input, p + 7) > p + 8 then TokenEnd(input, p + 7) else p + 8
  }

  /** The token behind an occurrence at `p`, if it has sixteen or more characters. */
  function BearerAt(crypto: Crypto, input: string, options: Options): nat -> seq<Finding> {
    (p: nat) =>
      if p + 7 <= |input| && TokenEnd(input, p + 7) - (p + 7) >= 16
      then [FoundAt(crypto, input, "bearer-token", p + 7, TokenEnd(input, p + 7), High, options)] else []
  }

  ghost predicate BearerVisited(input: string, p: nat) {
    Visited(Lower(input), BEARER, BearerNext(input), p)
  }

  ghost function Bearers(crypto: Crypto, input: string, options: Options, limit: nat): seq<Finding> {
    Emitted(Lower(input), BEARER, BearerNext(input), BearerAt(crypto, input, options), limit)
  }

  /** The text ends in a visited `bearer `, so the scan resumes past the end. */
  ghost predicate BearerAtEnd(input: string) {
    |input| >= 7 && BearerVisited(input, |input| - 7)
  }

  ghost predicate BearersSoFar(crypto: Crypto, input: string, options: Options, offset: nat, out: seq<Finding>) {
    && offset <= |input| + 1 && (offset == |input| + 1 ==> BearerAtEnd(input))
    && Scanned(Lower(input), BEARER, BearerNext(input), BearerAt(crypto, input, options), offset, out)
  }

  method ConsumeToken(input: string, start: nat) returns (end: nat)
    requires start <= |input|
    ensures end == TokenEnd(input, start)
  {
    end := start;
    while end < |input| && IsTokenChar(input[end])
      invariant start <= end <= |input|
      invariant forall k :: start <= k < end ==> IsTokenChar(input[k])
    {
      end := end + 1;
    }
    TokenEndIs(input, start, end);
  }

  /** `scan_bearer`: panics exactly when the text ends in a visited `bearer `. */
  method ScanBearer(crypto: Crypto, input: string, options: Options) returns (r: Result<seq<Finding>, Panic>)
    ensures r.Err? <==> BearerAtEnd(input)
    ensures r.Ok? ==> r.value == Bearers(crypto, input, options, |input|)
  {
    var lower := Lower(input);
    var out: seq<Finding> := [];
    var offset: nat := 0;
    while true
      invariant BearersSoFar(crypto, input, options, offset, out)
      decreases |input| + 1 - offset
    {
      if offset > |input| {
        return Err(OutOfBounds);
      }
      var pos := FindFrom(lower, BEARER, offset);
      if pos.None? {
        NoMoreBearers(crypto, input, options, offset, out);
        return Ok(out);
      }
      NextBearer(crypto, input, options, offset, pos.value, out);
      offset, out := PushBearer(crypto, input, options, pos.value, out);
    }
  }

  lemma NoMoreBearers(crypto: Crypto, input: string, options: Options, offset: nat, out: seq<Finding>)
    requires BearersSoFar(crypto, input, options, offset, out) && offset <= |input|
    requires forall q :: offset <= q ==> !OccursAt(Lower(input), BEARER, q)
    ensures !BearerAtEnd(input) && out == Bearers(crypto, input, options, |input|)
  {
    NoMore(Lower(input), BEARER, BearerNext(input), BearerAt(crypto, input, options), offset, |input|, out);
  }

  lemma BearerJump(input: string, p: nat)
    requires p + 7 <= |input|
    ensures p < BearerNext(input)(p) <= |input| + 1
    ensures BearerNext(input)(p) == |input| + 1 <==> p == |input| - 7
  {}

  lemma NextBearer(crypto: Crypto, input: string, options: Options, offset: nat, p: nat, out: seq<Finding>)
    requires BearersSoFar(crypto, input, options, offset, out) && offset <= p && OccursAt(Lower(input), BEARER, p)
    requires forall q :: offset <= q < p ==> !OccursAt(Lower(input), BEARER, q)
    ensures p < BearerNext(input)(p)
    ensures BearersSoFar(crypto, input, options, BearerNext(input)(p), out + BearerAt(crypto, input, options)(p))
  {
    BearerJump(input, p);
    Visit(Lower(input), BEARER, BearerNext(input), BearerAt(crypto, input, options), offset, p, out);
  }

  /** The body of the loop for the occurrence at `p`: read the token behind it and push it if it is long enough. */
  method PushBearer(crypto: Crypto, input: string, options: Options, p: nat, before: seq<Finding>)
    returns (offset: nat, out: seq<Finding>)
    requires p + 7 <= |input|
    ensures offset == BearerNext(input)(p) && out == before + BearerAt(crypto, input, options)(p)
  {
    out := before;
    var start := p + 7;
    var end := ConsumeToken(input, start);
    if end - start >= 16 {
      out := out + [Found(crypto, "bearer-token", start, end, input[start..end], High, options)];
    }
    offset := if end > start + 1 then end else start + 1;
  }

  /** Every visited word with a long enough token behind it is reported, and nothing else is. */
  lemma BearerFindings(crypto: Crypto, input: string, options: Options, f: Finding)
    ensures f in Bearers(crypto, input, options, |input|) <==>
            exists p: nat :: p < |input| && BearerVisited(input, p) && f in BearerAt(crypto, input, options)(p)
  {
    EmittedFrom(Lower(input), BEARER, BearerNext(input), BearerAt(crypto, input, options), |input|, f);
  }

  /** The word that ends where the token run of `p` starts, if there is one. */
  function WordBefore(input: string, p: nat): (r: Option<nat>)
    requires p <= |input|
    ensures r.Some? ==> r.value < p && OccursAt(Lower(input), BEARER, r.value)
  {
    var begin := TokenBegin(input, p);
    if begin >= 7 && OccursAt(Lower(input), BEARER, begin - 7) then Some(begin - 7) else None
  }

  /** An even number of words is reached by stepping from `p` to the word before, and so on. */
  predicate EvenBefore(input: string, p: nat)
    requires p <= |input|
    decreases p
  {
    WordBefore(input, p).Some? ==> !EvenBefore(input, WordBefore(input, p).value)
  }

  /** Of a chain of words, each the token of the one before it, the scan visits every other one. */
  lemma {:induction false} VisitedIsEven(input: string, p: nat)
    requires OccursAt(Lower(input), BEARER, p)
    ensures BearerVisited(input, p) <==> EvenBefore(input, p)
    decreases p
  {
    var before := WordBefore(input, p);
    if before.Some? {
      VisitedIsEven(input, before.value);
      VisitedUnlessTheOneBefore(input, p);
    } else {
      VisitedIfNoneBefore(input, p);
    }
  }

  lemma VisitedUnlessTheOneBefore(input: string, p: nat)
    requires OccursAt(Lower(input), BEARER, p) && WordBefore(input, p).Some?
    ensures BearerVisited(input, p) <==> !BearerVisited(input, WordBefore(input, p).value)
  {
    var begin := TokenBegin(input, p);
    forall q: nat | q < p && BearerVisited(input, q) && BearerNext(input)(q) > p ensures q == begin - 7 {
      BearerCovers(input, begin, q, p);
    }
    BearerCovers(input, begin, begin - 7, p);
    OneJumper(Lower(input), BEARER, BearerNext(input), begin - 7, p);
  }

  lemma VisitedIfNoneBefore(input: string, p: nat)
    requires OccursAt(Lower(input), BEARER, p) && WordBefore(input, p).None?
    ensures BearerVisited(input, p)
  {
    forall q: nat | q < p && BearerVisited(input, q) ensures BearerNext(input)(q) <= p {
      BearerCovers(input, TokenBegin(input, p), q, p);
    }
  }

  /** The panic, said of the text alone: it ends in `bearer `, with an even number of words chained before that one. */
  predicate EndsInEvenBearer(input: string) {
    |input| >= 7 && EndsWith(Lower(input), BEARER) && EvenBefore(input, |input| - 7)
  }

  lemma PanicIff(input: string)
    ensures BearerAtEnd(input) <==> EndsInEvenBearer(input)
  {
    if |input| >= 7 && EndsWith(Lower(input), BEARER) { VisitedIsEven(input, |input| - 7); }
  }

  /** The shortest text that panics. */
  lemma BearerAlonePanics()
    ensures BearerAtEnd(BEARER)
  {
    LowerIsSame(BEARER);
    assert BEARER[0..7] == BEARER && TokenBegin(BEARER, 0) == 0;
    PanicIff(BEARER);
  }

  lemma LowerIsSame(s: string)
    requires forall i :: 0 <= i < |s| ==> !('A' <= s[i] <= 'Z')
    ensures Lower(s) == s
  {}

  /** The word is a run of token characters and the space behind it ends that run. */
  lemma BearerShape(input: string, q: nat)
    requires OccursAt(Lower(input), BEARER, q)
    ensures !IsTokenChar(input[q + 6])
    ensures forall k :: q <= k < q + 6 ==> IsTokenChar(input[k])
  {
    var word := Lower(input)[q..q + 7];
    assert word == BEARER;
    assert forall k :: 0 <= k < 7 ==> word[k] == LowerChar(input[q + k]);
    assert BEARER[0] == 'b' && BEARER[1] == 'e' && BEARER[2] == 'a' && BEARER[3] == 'r' && BEARER[4] == 'e' &&
           BEARER[5] == 'r' && BEARER[6] == ' ';
  }

  lemma BearersApart(input: string, q: nat, last: nat)
    requires q < last && OccursAt(Lower(input), BEARER, q) && OccursAt(Lower(input), BEARER, last)
    ensures q + 7 <= last && IsTokenChar(input[last]) && !IsTokenChar(input[q + 6])
  {
    BearerShape(input, q);
    BearerShape(input, last);
  }

  /** Only the word directly in front of the run of `p` can jump over `p`. */
  lemma BearerCovers(input: string, run: nat, q: nat, p: nat)
    requires q < p && OccursAt(Lower(input), BEARER, q) && OccursAt(Lower(input), BEARER, p)
    requires run == TokenBegin(input, p)
    ensures BearerNext(input)(q) > p <==> q + 7 == run
  {
    BearersApart(input, q, p);
    NextReaches(input, q, p);
    BeginReaches(input, p);
    RunReaches(input, q + 7, run, p);
  }

  lemma NextReaches(input: string, q: nat, p: nat)
    requires q + 7 <= p < |input| && IsTokenChar(input[p])
    ensures BearerNext(input)(q) > p <==> TokenEnd(input, q + 7) > p
  {}

  lemma BeginReaches(input: string, p: nat)
    requires p < |input| && IsTokenChar(input[p])
    ensures TokenEnd(input, TokenBegin(input, p)) > p
  {}

  /** A run that starts behind a non-token character reaches `last` only if it is the run of `last`. */
  lemma RunReaches(input: string, p: nat, run: nat, last: nat)
    requires 0 < p <= last < |input| && !IsTokenChar(input[p - 1])
    requires run <= last < TokenEnd(input, run) && (run > 0 ==> !IsTokenChar(input[run - 1]))
    ensures TokenEnd(input, p) > last <==> p == run
  {}
}
