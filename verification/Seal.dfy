/** The sealing engine: all scanners in order, overlaps resolved, findings replaced. */
module Seal {
  import opened Basics
  import opened Text
  import opened Findings
  import opened TokenRuns
  import opened Visits
  import opened Scanners
  import opened FieldScanners
  import opened KeyShapes
  import opened BlockScanners
  import opened Replace

  /** The findings of the prefix rules, rule after rule. */
  ghost function AllPrefixed(
    crypto: Crypto, input: string, rules: seq<PrefixRule>, options: Options, n: nat): seq<Finding>
    requires n <= |rules|
  {
    if n == 0 then []
    else
      AllPrefixed(crypto, input, rules, options, n - 1)
      + PrefixedTokens(crypto, input, rules[n - 1], options, |input|)
  }

  datatype Tables = Tables(prefixes: seq<PrefixRule>, keys: seq<KeyRule>)

  /** What the scanners in front of the block scanners report. */
  ghost function EarlyFindings(crypto: Crypto, input: string, tables: Tables, options: Options): seq<Finding> {
    AllPrefixed(crypto, input, tables.prefixes, options, |tables.prefixes|) + Bearers(crypto, input, options, |input|)
  }

  ghost function BlockFindings(crypto: Crypto, input: string, options: Options): seq<Finding> {
    Jwts(crypto, input, options, |input|) + KeyBlocks(crypto, input, options, |input|)
    + DatabaseUrls(crypto, input, options, |SCHEMES|)
  }

  ghost function LateFindings(crypto: Crypto, input: string, tables: Tables, options: Options): seq<Finding> {
    Assignments(crypto, input, tables.keys, options, |tables.keys|) + EntropyRuns(crypto, input, options, |input|)
  }

  /** Everything the scanners report, in the order they run. */
  ghost function RawFindings(crypto: Crypto, input: string, tables: Tables, options: Options): seq<Finding> {
    EarlyFindings(crypto, input, tables, options) + BlockFindings(crypto, input, options)
    + LateFindings(crypto, input, tables, options)
  }

  method ScanPrefixes(
    crypto: Crypto, input: string, rules: seq<PrefixRule>, options: Options) returns (out: seq<Finding>)
    ensures out == AllPrefixed(crypto, input, rules, options, |rules|)
  {
    out := [];
    for n := 0 to |rules|
      invariant out == AllPrefixed(crypto, input, rules, options, n)
    {
      var found := ScanPrefixed(crypto, input, rules[n], options);
      out := out + found;
    }
  }

  /** `scan_text`: all scanners in order, then `normalize_findings`. */
  method ScanText(
    crypto: Crypto, input: string, tables: Tables, options: Options) returns (r: Result<seq<Finding>, Panic>)
    ensures r.Err? <==> BearerAtEnd(input)
    ensures r.Ok? ==> r.value == Normalized(RawFindings(crypto, input, tables, options))
  {
    var prefixed := ScanPrefixes(crypto, input, tables.prefixes, options);
    var bearers := ScanBearer(crypto, input, options);
    if bearers.Err? {
      return Err(OutOfBounds);
    }
    var jwts := ScanJwt(crypto, input, options);
    var blocks := ScanPrivateKeyBlocks(crypto, input, options);
    var urls := ScanDatabaseUrls(crypto, input, options);
    var values := ScanAssignment(crypto, input, tables.keys, options);
    var runs := ScanGenericEntropy(crypto, input, options);
    var out := NormalizeFindings((prefixed + bearers.value) + (jwts + blocks + urls) + (values + runs));
    return Ok(out);
  }

  // ---------- every finding is genuine ----------

  predicate AllGenuine(crypto: Crypto, input: string, options: Options, fs: seq<Finding>) {
    forall f :: f in fs ==> Genuine(crypto, input, options, f) && PlainKind(f.kind)
  }

  predicate AllTokenSpans(input: string, fs: seq<Finding>) {
    forall f :: f in fs ==> TokenSpan(input, f)
  }

  lemma PrefixedAreGenuine(crypto: Crypto, input: string, rule: PrefixRule, options: Options)
    ensures AllGenuine(crypto, input, options, PrefixedTokens(crypto, input, rule, options, |input|))
    ensures AllTokenSpans(input, PrefixedTokens(crypto, input, rule, options, |input|))
  {
    forall f | f in PrefixedTokens(crypto, input, rule, options, |input|)
      ensures Genuine(crypto, input, options, f) && PlainKind(f.kind) && TokenSpan(input, f)
    {
      PrefixedFindings(crypto, input, rule, options, f);
      var p: nat :| p < |input| && FirstInRun(input, rule.prefix, p) &&
                    f in PrefixedAt(crypto, input, rule, options)(p);
      PrefixInRun(input, rule.prefix, p);
    }
  }

  lemma {:induction false} AllPrefixedAreGenuine(
    crypto: Crypto, input: string, rules: seq<PrefixRule>, options: Options, n: nat)
    requires n <= |rules|
    ensures AllGenuine(crypto, input, options, AllPrefixed(crypto, input, rules, options, n))
    ensures AllTokenSpans(input, AllPrefixed(crypto, input, rules, options, n))
  {
    if n > 0 {
      AllPrefixedAreGenuine(crypto, input, rules, options, n - 1);
      PrefixedAreGenuine(crypto, input, rules[n - 1], options);
    }
  }

  lemma BearersAreGenuine(crypto: Crypto, input: string, options: Options)
    ensures AllGenuine(crypto, input, options, Bearers(crypto, input, options, |input|))
    ensures AllTokenSpans(input, Bearers(crypto, input, options, |input|))
  {
    forall f | f in Bearers(crypto, input, options, |input|)
      ensures Genuine(crypto, input, options, f) && PlainKind(f.kind) && TokenSpan(input, f)
    {
      BearerFindings(crypto, input, options, f);
    }
  }

  lemma AssignmentsAreGenuine(crypto: Crypto, input: string, keys: seq<KeyRule>, options: Options)
    ensures AllGenuine(crypto, input, options, Assignments(crypto, input, keys, options, |keys|))
    ensures AllTokenSpans(input, Assignments(crypto, input, keys, options, |keys|))
  {
    forall f | f in Assignments(crypto, input, keys, options, |keys|)
      ensures Genuine(crypto, input, options, f) && PlainKind(f.kind) && TokenSpan(input, f)
    {
      var i, p := AssignmentJustified(crypto, input, keys, options, |keys|, f);
      assert f in AssignedAt(crypto, input, keys[i], options, ValueStart(input, keys[i].key, p));
    }
  }

  lemma RunsAreGenuine(crypto: Crypto, input: string, options: Options)
    ensures AllGenuine(crypto, input, options, EntropyRuns(crypto, input, options, |input|))
    ensures AllTokenSpans(input, EntropyRuns(crypto, input, options, |input|))
  {
    forall f | f in EntropyRuns(crypto, input, options, |input|)
      ensures Genuine(crypto, input, options, f) && PlainKind(f.kind) && TokenSpan(input, f)
    {
      EntropyFindings(crypto, input, options, |input|, f);
    }
  }

  lemma JwtsAreGenuine(crypto: Crypto, input: string, options: Options)
    ensures AllGenuine(crypto, input, options, Jwts(crypto, input, options, |input|))
  {
    forall f | f in Jwts(crypto, input, options, |input|)
      ensures Genuine(crypto, input, options, f) && PlainKind(f.kind)
    {
      EmittedFrom(input, JWT_MARKER, JwtNext(input), JwtAt(crypto, input, options), |input|, f);
    }
  }

  lemma KeyBlocksAreGenuine(crypto: Crypto, input: string, options: Options)
    ensures AllGenuine(crypto, input, options, KeyBlocks(crypto, input, options, |input|))
  {
    forall f | f in KeyBlocks(crypto, input, options, |input|)
      ensures Genuine(crypto, input, options, f) && PlainKind(f.kind)
    {
      EmittedFrom(input, BEGIN_MARKER, KeyBlockNext(input), KeyBlockAt(crypto, input, options), |input|, f);
    }
  }

  lemma {:induction false} UrlsAreGenuine(crypto: Crypto, input: string, options: Options, n: nat)
    requires n <= |SCHEMES|
    ensures AllGenuine(crypto, input, options, DatabaseUrls(crypto, input, options, n))
  {
    if n > 0 {
      UrlsAreGenuine(crypto, input, options, n - 1);
      forall f | f in SchemeUrls(crypto, input, options, SCHEMES[n - 1], |input|)
        ensures Genuine(crypto, input, options, f) && PlainKind(f.kind)
      {
        EmittedFrom(Lower(input), SCHEMES[n - 1], UrlNext(input, SCHEMES[n - 1]), UrlAt(crypto, input, options),
                    |input|, f);
      }
    }
  }

  lemma RawAreGenuine(crypto: Crypto, input: string, tables: Tables, options: Options)
    ensures AllGenuine(crypto, input, options, RawFindings(crypto, input, tables, options))
    ensures AllTokenSpans(input, EarlyFindings(crypto, input, tables, options))
    ensures AllTokenSpans(input, LateFindings(crypto, input, tables, options))
  {
    AllPrefixedAreGenuine(crypto, input, tables.prefixes, options, |tables.prefixes|);
    BearersAreGenuine(crypto, input, options);
    JwtsAreGenuine(crypto, input, options);
    KeyBlocksAreGenuine(crypto, input, options);
    UrlsAreGenuine(crypto, input, options, |SCHEMES|);
    AssignmentsAreGenuine(crypto, input, tables.keys, options);
    RunsAreGenuine(crypto, input, options);
  }

  // ---------- no finding ends in a blank ----------

  predicate BlankFree(input: string, fs: seq<Finding>) {
    forall f :: f in fs ==> 0 < f.end <= |input| && input[f.end - 1] != ' '
  }

  lemma TokenSpansAreBlankFree(input: string, fs: seq<Finding>)
    requires AllTokenSpans(input, fs)
    ensures BlankFree(input, fs)
  {
    forall f | f in fs ensures 0 < f.end <= |input| && input[f.end - 1] != ' ' { assert TokenSpan(input, f); }
  }

  lemma JwtsAreBlankFree(crypto: Crypto, input: string, options: Options)
    ensures BlankFree(input, Jwts(crypto, input, options, |input|))
  {
    forall f | f in Jwts(crypto, input, options, |input|) ensures 0 < f.end <= |input| && input[f.end - 1] != ' ' {
      EmittedFrom(input, JWT_MARKER, JwtNext(input), JwtAt(crypto, input, options), |input|, f);
    }
  }

  lemma KeyBlockEndsInDash(input: string, p: nat)
    requires KeyBlockEnd(input, p).Some?
    ensures KeyBlockEnd(input, p).value > p && input[KeyBlockEnd(input, p).value - 1] == '-'
  {
    var close := KeyBlockEnd(input, p).value - |CLOSE_MARKER|;
    LastOfMarker(input, CLOSE_MARKER, close);
  }

  lemma LastOfMarker(input: string, marker: string, p: nat)
    requires OccursAt(input, marker, p) && marker != ""
    ensures input[p + |marker| - 1] == marker[|marker| - 1]
  {
    assert input[p..p + |marker|][|marker| - 1] == input[p + |marker| - 1];
  }

  lemma KeyBlocksAreBlankFree(crypto: Crypto, input: string, options: Options)
    ensures BlankFree(input, KeyBlocks(crypto, input, options, |input|))
  {
    forall f | f in KeyBlocks(crypto, input, options, |input|) ensures 0 < f.end <= |input| && input[f.end - 1] != ' ' {
      EmittedFrom(input, BEGIN_MARKER, KeyBlockNext(input), KeyBlockAt(crypto, input, options), |input|, f);
      KeyBlockEndsInDash(input, f.start);
    }
  }

  lemma {:induction false} UrlsAreBlankFree(crypto: Crypto, input: string, options: Options, n: nat)
    requires n <= |SCHEMES|
    ensures BlankFree(input, DatabaseUrls(crypto, input, options, n))
  {
    if n > 0 {
      UrlsAreBlankFree(crypto, input, options, n - 1);
      forall f | f in SchemeUrls(crypto, input, options, SCHEMES[n - 1], |input|)
        ensures 0 < f.end <= |input| && input[f.end - 1] != ' '
      {
        EmittedFrom(Lower(input), SCHEMES[n - 1], UrlNext(input, SCHEMES[n - 1]), UrlAt(crypto, input, options),
                    |input|, f);
      }
    }
  }

  lemma RawAreBlankFree(crypto: Crypto, input: string, tables: Tables, options: Options)
    ensures BlankFree(input, RawFindings(crypto, input, tables, options))
  {
    RawAreGenuine(crypto, input, tables, options);
    TokenSpansAreBlankFree(input, EarlyFindings(crypto, input, tables, options));
    TokenSpansAreBlankFree(input, LateFindings(crypto, input, tables, options));
    JwtsAreBlankFree(crypto, input, options);
    KeyBlocksAreBlankFree(crypto, input, options);
    UrlsAreBlankFree(crypto, input, options, |SCHEMES|);
  }

  /** So scanning the value of a finding again never panics. */
  lemma FoundValuesAreSafe(crypto: Crypto, input: string, tables: Tables, options: Options, f: Finding)
    requires f in RawFindings(crypto, input, tables, options)
    ensures !EndsInEvenBearer(f.value)
  {
    RawAreGenuine(crypto, input, tables, options);
    RawAreBlankFree(crypto, input, tables, options);
    ValueIsSafe(crypto, input, options, f);
  }

  lemma ValueIsSafe(crypto: Crypto, input: string, options: Options, f: Finding)
    requires Genuine(crypto, input, options, f) && input[f.end - 1] != ' '
    ensures !EndsInEvenBearer(f.value)
  {
    assert f.value == input[f.start..f.end];
    BearerEndsInBlank(f.value);
  }

  lemma BearerEndsInBlank(value: string)
    requires value != "" && value[|value| - 1] != ' '
    ensures !EndsWith(Lower(value), BEARER)
  {
    var n := |value| - 7;
    if n >= 0 { assert Lower(value)[n..n + 7][6] == LowerChar(value[n + 6]) && BEARER[6] == ' '; }
  }

  // ---------- sealing ----------

  /** The findings marked to be sealed, in order. */
  function Sealable(fs: seq<Finding>): seq<Finding> {
    if fs == [] then [] else (if fs[0].shouldSeal then [fs[0]] else []) + Sealable(fs[1..])
  }

  lemma {:induction false} SealableMembers(fs: seq<Finding>)
    ensures forall f :: f in Sealable(fs) <==> f in fs && f.shouldSeal
    decreases fs
  {
    if fs != [] {
      SealableMembers(fs[1..]);
      assert fs == [fs[0]] + fs[1..];
    }
  }

  lemma {:induction false} SealableDisjoint(fs: seq<Finding>)
    requires Disjoint(fs)
    ensures Disjoint(Sealable(fs))
    decreases fs
  {
    if fs != [] {
      SealableDisjoint(fs[1..]);
      SealableMembers(fs[1..]);
      forall k | k in Sealable(fs[1..]) ensures fs[0].end <= k.start {
        var i :| 0 <= i < |fs[1..]| && fs[1..][i] == k;
        assert fs[i + 1] == k;
      }
      assert forall j :: 0 <= j < |Sealable(fs[1..])| ==> Sealable(fs[1..])[j] in Sealable(fs[1..]);
    }
  }

  /** Spans of genuine findings stay inside the text. */
  lemma GenuineSpans(crypto: Crypto, input: string, options: Options, fs: seq<Finding>)
    requires AllGenuine(crypto, input, options, fs) && Disjoint(fs)
    ensures Spans(input, fs)
  {
    assert forall i :: 0 <= i < |fs| ==> fs[i] in fs;
  }

  lemma NormalizedAreGenuine(crypto: Crypto, input: string, options: Options, fs: seq<Finding>)
    requires AllGenuine(crypto, input, options, fs)
    ensures Proper(fs) && Disjoint(Normalized(fs)) && AllGenuine(crypto, input, options, Normalized(fs))
  {
    assert forall i :: 0 <= i < |fs| ==> fs[i] in fs;
    NormalizedIsDisjoint(fs);
    forall f | f in Normalized(fs) ensures f in fs {
      assert f in multiset(Normalized(fs));
    }
  }

  /** What `scan_text` returns, filtered for sealing, always meets the precondition of the rewriting loop. */
  lemma SealedMeetsSpans(crypto: Crypto, input: string, tables: Tables, options: Options)
    ensures Spans(input, Sealable(Normalized(RawFindings(crypto, input, tables, options))))
    ensures AllGenuine(crypto, input, options, Sealable(Normalized(RawFindings(crypto, input, tables, options))))
  {
    var raw := RawFindings(crypto, input, tables, options);
    RawAreGenuine(crypto, input, tables, options);
    NormalizedAreGenuine(crypto, input, options, raw);
    SealableDisjoint(Normalized(raw));
    SealableMembers(Normalized(raw));
    GenuineSpans(crypto, input, options, Sealable(Normalized(raw)));
  }

  datatype SealResult = SealResult(safeText: string, findings: seq<Finding>)

  /** `seal_text`. */
  method SealText(
    crypto: Crypto, input: string, tables: Tables, options: Options) returns (r: Result<SealResult, Panic>)
    ensures r.Err? <==> BearerAtEnd(input)
    ensures r.Ok? ==> r.value.findings == Normalized(RawFindings(crypto, input, tables, options))
    ensures r.Ok? ==> Spans(input, Sealable(r.value.findings))
                      && r.value.safeText == PerPosition(input, Sealable(r.value.findings), 0)
  {
    var findings := ScanText(crypto, input, tables, options);
    if findings.Err? {
      return Err(OutOfBounds);
    }
    SealedMeetsSpans(crypto, input, tables, options);
    var sealed := Sealable(findings.value);
    var safeText := ReplaceWithHandles(input, sealed);
    RewrittenPerPosition(input, sealed, 0);
    return Ok(SealResult(safeText, findings.value));
  }

  // ---------- coverage ----------

  const DISPLAY: Options := Options(true, true)

  /** What the token-run scanners report. */
  ghost function TokenFindings(crypto: Crypto, input: string, tables: Tables, options: Options): seq<Finding> {
    EarlyFindings(crypto, input, tables, options) + LateFindings(crypto, input, tables, options)
  }

  /** The spans of the token-run scanners nest, so resolving their overlaps keeps exactly the maximal ones. */
  lemma TokenFindingsCovered(crypto: Crypto, input: string, tables: Tables, options: Options)
    ensures Nested(TokenFindings(crypto, input, tables, options))
    ensures AllCovered(Normalized(TokenFindings(crypto, input, tables, options)),
                       TokenFindings(crypto, input, tables, options))
    ensures AreTheMaximal(Normalized(TokenFindings(crypto, input, tables, options)),
                          TokenFindings(crypto, input, tables, options))
  {
    var fs := TokenFindings(crypto, input, tables, options);
    RawAreGenuine(crypto, input, tables, options);
    assert AllTokenSpans(input, fs);
    TokenSpansNest(input, fs);
    assert forall i :: 0 <= i < |fs| ==> fs[i] in fs;
    NormalizedIsMaximal(fs);
  }

  /** No marker of a block scanner stands in the text. */
  predicate Plain(input: string) {
    && !Contains(input, JWT_MARKER) && !Contains(input, BEGIN_MARKER)
    && forall i :: 0 <= i < |SCHEMES| ==> !Contains(Lower(input), SCHEMES[i])
  }

  lemma {:induction false} NoUrls(crypto: Crypto, input: string, options: Options, n: nat)
    requires n <= |SCHEMES| && forall i :: 0 <= i < |SCHEMES| ==> !Contains(Lower(input), SCHEMES[i])
    ensures DatabaseUrls(crypto, input, options, n) == []
  {
    if n > 0 {
      NoUrls(crypto, input, options, n - 1);
      NothingVisited(Lower(input), SCHEMES[n - 1], UrlNext(input, SCHEMES[n - 1]), UrlAt(crypto, input, options), 0,
                     |input|);
    }
  }

  lemma PlainHasNoBlocks(crypto: Crypto, input: string, tables: Tables, options: Options)
    requires Plain(input)
    ensures BlockFindings(crypto, input, options) == []
    ensures RawFindings(crypto, input, tables, options) == TokenFindings(crypto, input, tables, options)
  {
    NoJwts(crypto, input, options);
    NoKeyBlocks(crypto, input, options);
    NoUrls(crypto, input, options, |SCHEMES|);
  }

  lemma NoJwts(crypto: Crypto, input: string, options: Options)
    requires !Contains(input, JWT_MARKER)
    ensures Jwts(crypto, input, options, |input|) == []
  {
    NothingVisited(input, JWT_MARKER, JwtNext(input), JwtAt(crypto, input, options), 0, |input|);
  }

  lemma NoKeyBlocks(crypto: Crypto, input: string, options: Options)
    requires !Contains(input, BEGIN_MARKER)
    ensures KeyBlocks(crypto, input, options, |input|) == []
  {
    NothingVisited(input, BEGIN_MARKER, KeyBlockNext(input), KeyBlockAt(crypto, input, options), 0, |input|);
  }

  /** With aggressive and protection mode on, everything is sealed. */
  lemma {:induction false} DisplaySealsAll(crypto: Crypto, input: string, fs: seq<Finding>)
    requires AllGenuine(crypto, input, DISPLAY, fs)
    ensures Sealable(fs) == fs
    decreases fs
  {
    if fs != [] {
      assert fs[0] in fs && forall f :: f in fs[1..] ==> f in fs;
      DisplaySealsAll(crypto, input, fs[1..]);
    }
  }

  /** No block finding touches the token run from `begin` to `end`. */
  ghost predicate RunIsClear(blocks: seq<Finding>, begin: nat, end: nat) {
    forall b :: b in blocks ==> b.end <= begin || end <= b.start
  }

  /** In a run that no block finding touches, every token span lies in one that prevails. */
  lemma ClearRunPrevails(input: string, tokens: seq<Finding>, blocks: seq<Finding>, raw: seq<Finding>, f: Finding)
    returns (m: Finding)
    requires AllTokenSpans(input, tokens) && f in tokens && f.start <= |input|
    requires forall h :: h in raw ==> h in tokens || h in blocks
    requires RunIsClear(blocks, TokenBegin(input, f.start), f.end)
    ensures m in tokens && Within(f, m) && Prevails(raw, m)
  {
    TokenSpansNest(input, tokens);
    assert forall i :: 0 <= i < |tokens| ==> tokens[i] in tokens;
    m := NestedPrevail(tokens, f);
    StaysInRun(input, f, m);
    StillPrevails(input, tokens, blocks, raw, f, m);
  }

  lemma StillPrevails(
    input: string, tokens: seq<Finding>, blocks: seq<Finding>, raw: seq<Finding>, f: Finding, m: Finding)
    requires Prevails(tokens, m) && f.start <= |input|
    requires forall h :: h in raw ==> h in tokens || h in blocks
    requires RunIsClear(blocks, TokenBegin(input, f.start), f.end)
    requires TokenBegin(input, f.start) <= m.start && m.end == f.end
    ensures Prevails(raw, m)
  {}

  /** A token span that holds another one lies in the same run. */
  lemma StaysInRun(input: string, f: Finding, m: Finding)
    requires TokenSpan(input, f) && TokenSpan(input, m) && Within(f, m)
    ensures TokenBegin(input, f.start) <= m.start && m.end == f.end
  {
    SameRun(input, m.start, f.start);
  }

  /** A span that stays among all that the scanners report, and is marked for sealing, contains the position. */
  ghost predicate InStaying(raw: seq<Finding>, p: nat) {
    var sorted := SortByKey(raw);
    exists i: nat :: i < |sorted| && Stays(sorted, i) && sorted[i].shouldSeal && sorted[i].start <= p < sorted[i].end
  }

  /**
   Exactly which positions are sealed, on every text: those inside a reported span that is longer than
   each earlier one that stands and overlaps it, and no shorter than any later one that overlaps it.
   */
  lemma SealedIff(crypto: Crypto, input: string, tables: Tables, options: Options, p: nat)
    ensures Inside(Sealable(Normalized(RawFindings(crypto, input, tables, options))), p)
       <==> InStaying(RawFindings(crypto, input, tables, options), p)
  {
    RawAreGenuine(crypto, input, tables, options);
    NormalizedAreGenuine(crypto, input, options, RawFindings(crypto, input, tables, options));
    InsideIff(RawFindings(crypto, input, tables, options), p);
  }

  lemma InsideIff(raw: seq<Finding>, p: nat)
    requires Proper(raw)
    ensures Inside(Sealable(Normalized(raw)), p) <==> InStaying(raw, p)
  {
    if Inside(Sealable(Normalized(raw)), p) { InsideStays(raw, p); }
    if InStaying(raw, p) { StayingIsInside(raw, p); }
  }

  lemma InsideStays(raw: seq<Finding>, p: nat)
    requires Proper(raw) && Inside(Sealable(Normalized(raw)), p)
    ensures InStaying(raw, p)
  {
    SealableMembers(Normalized(raw));
    var k :| k in Sealable(Normalized(raw)) && k.start <= p < k.end;
    NormalizedIff(raw, k);
  }

  lemma StayingIsInside(raw: seq<Finding>, p: nat)
    requires Proper(raw) && InStaying(raw, p)
    ensures Inside(Sealable(Normalized(raw)), p)
  {
    var sorted := SortByKey(raw);
    var i: nat :| i < |sorted| && Stays(sorted, i) && sorted[i].shouldSeal && sorted[i].start <= p < sorted[i].end;
    StayingIsKept(raw, i);
    SealableMembers(Normalized(raw));
    assert sorted[i] in Sealable(Normalized(raw));
  }

  /** So no position of a span that lies in a prevailing one is copied into the redacted text. */
  lemma PrevailingIsSealed(crypto: Crypto, input: string, tables: Tables, f: Finding, m: Finding, p: nat)
    requires m in RawFindings(crypto, input, tables, DISPLAY) && Within(f, m) && f.start <= p < f.end
    requires Prevails(RawFindings(crypto, input, tables, DISPLAY), m)
    ensures Inside(Sealable(Normalized(RawFindings(crypto, input, tables, DISPLAY))), p)
  {
    var raw := RawFindings(crypto, input, tables, DISPLAY);
    RawAreGenuine(crypto, input, tables, DISPLAY);
    NormalizedAreGenuine(crypto, input, DISPLAY, raw);
    NormalizedKeeps(raw, m);
    DisplaySealsAll(crypto, input, Normalized(raw));
  }

  /**
   No position inside a span that a token-run scanner reports is copied into the redacted text, when
   no block finding touches the token run of that span, and also when the spans of all scanners nest.
   */
  lemma RedactionCovers(crypto: Crypto, input: string, tables: Tables, f: Finding, p: nat)
    requires f in TokenFindings(crypto, input, tables, DISPLAY) && f.start <= p < f.end && f.start <= |input|
    requires RunIsClear(BlockFindings(crypto, input, DISPLAY), TokenBegin(input, f.start), f.end)
             || Nested(RawFindings(crypto, input, tables, DISPLAY))
    ensures Inside(Sealable(Normalized(RawFindings(crypto, input, tables, DISPLAY))), p)
  {
    RawAreGenuine(crypto, input, tables, DISPLAY);
    RawIsTokenOrBlock(crypto, input, tables, DISPLAY);
    var m := PrevailingAround(
      input, TokenFindings(crypto, input, tables, DISPLAY), BlockFindings(crypto, input, DISPLAY),
      RawFindings(crypto, input, tables, DISPLAY), f);
    PrevailingIsSealed(crypto, input, tables, f, m, p);
  }

  lemma RawIsTokenOrBlock(crypto: Crypto, input: string, tables: Tables, options: Options)
    ensures AllTokenSpans(input, EarlyFindings(crypto, input, tables, options))
            && AllTokenSpans(input, LateFindings(crypto, input, tables, options))
            ==> AllTokenSpans(input, TokenFindings(crypto, input, tables, options))
    ensures forall h :: h in RawFindings(crypto, input, tables, options) <==>
                        h in TokenFindings(crypto, input, tables, options) || h in BlockFindings(crypto, input, options)
    ensures AllGenuine(crypto, input, options, RawFindings(crypto, input, tables, options))
            ==> Proper(RawFindings(crypto, input, tables, options))
  {
    var raw := RawFindings(crypto, input, tables, options);
    assert forall i :: 0 <= i < |raw| ==> raw[i] in raw;
  }

  lemma PrevailingAround(input: string, tokens: seq<Finding>, blocks: seq<Finding>, raw: seq<Finding>, f: Finding)
    returns (m: Finding)
    requires AllTokenSpans(input, tokens) && f in tokens && f.start <= |input| && Proper(raw)
    requires forall h :: h in raw <==> h in tokens || h in blocks
    requires RunIsClear(blocks, TokenBegin(input, f.start), f.end) || Nested(raw)
    ensures m in raw && Within(f, m) && Prevails(raw, m)
  {
    if Nested(raw) {
      m := NestedPrevail(raw, f);
    } else {
      m := ClearRunPrevails(input, tokens, blocks, raw, f);
    }
  }

  lemma {:induction false} RuleIsScanned(
    crypto: Crypto, input: string, rules: seq<PrefixRule>, options: Options, n: nat, i: nat, f: Finding)
    requires i < n <= |rules| && f in PrefixedTokens(crypto, input, rules[i], options, |input|)
    ensures f in AllPrefixed(crypto, input, rules, options, n)
  {
    if i < n - 1 { RuleIsScanned(crypto, input, rules, options, n - 1, i, f); }
    InEither(AllPrefixed(crypto, input, rules, options, n - 1),
             PrefixedTokens(crypto, input, rules[n - 1], options, |input|), f);
  }

  /**
   So no character of a prefixed token that is long enough reaches the display, unless a block
   finding touches its run.
   */
  lemma PrefixedTokenHidden(crypto: Crypto, input: string, tables: Tables, i: nat, p: nat, k: nat)
    requires i < |tables.prefixes| && OccursAt(input, tables.prefixes[i].prefix, p)
    requires TokenEnd(input, p) - p >= tables.prefixes[i].minLen && p <= k < TokenEnd(input, p)
    requires RunIsClear(BlockFindings(crypto, input, DISPLAY), TokenBegin(input, p), TokenEnd(input, p))
             || Nested(RawFindings(crypto, input, tables, DISPLAY))
    ensures Inside(Sealable(Normalized(RawFindings(crypto, input, tables, DISPLAY))), k)
  {
    var f := EveryOccurrenceFound(crypto, input, tables.prefixes[i], DISPLAY, p);
    PrefixedAreGenuine(crypto, input, tables.prefixes[i], DISPLAY);
    RunOfPart(input, f.start, p);
    RuleIsScanned(crypto, input, tables.prefixes, DISPLAY, |tables.prefixes|, i, f);
    RedactionCovers(crypto, input, tables, f, k);
  }

  lemma RunOfPart(input: string, start: nat, p: nat)
    requires start <= p < |input| && p < TokenEnd(input, start)
    ensures TokenBegin(input, start) == TokenBegin(input, p)
  {
    var b, c := TokenBegin(input, start), TokenBegin(input, p);
    assert forall k :: start <= k < p ==> IsTokenChar(input[k]);
    assert !(b < c) && !(c < b);
  }

  /** In a text without any marker of a block scanner, whatever the token-run scanners report is hidden. */
  lemma PlainTextIsCovered(crypto: Crypto, input: string, tables: Tables, f: Finding, p: nat)
    requires Plain(input)
    requires f in TokenFindings(crypto, input, tables, DISPLAY) && f.start <= p < f.end && f.start <= |input|
    ensures Inside(Sealable(Normalized(RawFindings(crypto, input, tables, DISPLAY))), p)
  {
    PlainHasNoBlocks(crypto, input, tables, DISPLAY);
    RedactionCovers(crypto, input, tables, f, p);
  }

  // ---------- the tables in use ----------

  const MODEL_PROVIDER_RULES: seq<PrefixRule> := [
    PrefixRule("sk-proj-", "openai-key", 18, High),
    PrefixRule("sk-ant-", "anthropic-key", 18, High)]

  const FORGE_RULES: seq<PrefixRule> := [
    PrefixRule("ghp_", "github-token", 20, High),
    PrefixRule("github_pat_", "github-token", 24, High)]

  const GITLAB_RULES: seq<PrefixRule> := [
    PrefixRule("glpat-", "gitlab-token", 16, High)]

  const SLACK_RULES: seq<PrefixRule> := [
    PrefixRule("xoxb-", "slack-bot-token", 16, High),
    PrefixRule("xoxp-", "slack-user-token", 16, High)]

  const STRIPE_RULES: seq<PrefixRule> := [
    PrefixRule("sk_live_", "stripe-key", 16, High),
    PrefixRule("sk_test_", "stripe-key", 16, High)]

  const CLOUD_KEY_RULES: seq<PrefixRule> := [
    PrefixRule("AKIA", "aws-access-key-id", 20, High),
    PrefixRule("ASIA", "aws-session-key-id", 20, High),
    PrefixRule("AIza", "google-api-key", 20, High)]

  const HOSTING_RULES: seq<PrefixRule> := [
    PrefixRule("cfp_", "cloudflare-token", 16, High),
    PrefixRule("vercel_", "vercel-token", 16, High)]

  const BACKEND_RULES: seq<PrefixRule> := [
    PrefixRule("ntl_", "netlify-token", 16, High),
    PrefixRule("sbp_", "supabase-token", 16, High)]

  const GITHUB_VARIANT_RULES: seq<PrefixRule> := [
    PrefixRule("ghs_", "github-app-token", 20, High),
    PrefixRule("ghu_", "github-user-token", 20, High)]

  const GITHUB_OAUTH_RULES: seq<PrefixRule> := [
    PrefixRule("gho_", "github-oauth-token", 20, High),
    PrefixRule("ghr_", "github-refresh-token", 20, High)]

  const REGISTRY_RULES: seq<PrefixRule> := [
    PrefixRule("npm_", "npm-token", 24, High),
    PrefixRule("pypi-", "pypi-token", 24, High),
    PrefixRule("hf_", "huggingface-token", 20, High)]

  const SERVICE_RULES: seq<PrefixRule> := [
    PrefixRule("whsec_", "stripe-webhook-secret", 16, High),
    PrefixRule("dp.pt.", "doppler-token", 16, High)]

  const VAULT_RULES: seq<PrefixRule> := [
    PrefixRule("hvs.", "vault-service-token", 20, High),
    PrefixRule("hvb.", "vault-batch-token", 20, High)]

  const MAIL_RULES: seq<PrefixRule> := [
    PrefixRule("SG.", "sendgrid-key", 32, Medium)]

  const PREFIX_RULES: seq<PrefixRule> :=
    MODEL_PROVIDER_RULES + FORGE_RULES + GITLAB_RULES + SLACK_RULES + STRIPE_RULES + CLOUD_KEY_RULES + HOSTING_RULES
    + BACKEND_RULES
    + GITHUB_VARIANT_RULES + GITHUB_OAUTH_RULES + REGISTRY_RULES + SERVICE_RULES + VAULT_RULES + MAIL_RULES

  const API_KEY_RULES: seq<KeyRule> := [
    KeyRule("api_key", "api-key", High),
    KeyRule("apikey", "api-key", High),
    KeyRule("api_secret", "api-secret", High)]

  const PASSWORD_RULES: seq<KeyRule> := [
    KeyRule("token", "token-value", Medium),
    KeyRule("password", "password", High),
    KeyRule("passwd", "password", High)]

  const OAUTH_RULES: seq<KeyRule> := [
    KeyRule("client_secret", "client-secret", High),
    KeyRule("client_token", "client-token", High),
    KeyRule("access_token", "oauth-access-token", High)]

  const SESSION_RULES: seq<KeyRule> := [
    KeyRule("refresh_token", "oauth-refresh-token", High),
    KeyRule("id_token", "oauth-id-token", Medium)]

  const STORE_RULES: seq<KeyRule> := [
    KeyRule("secret_access_key", "aws-secret-access-key", High),
    KeyRule("aws_secret_access_key", "aws-secret-access-key", High)]

  const DATABASE_RULES: seq<KeyRule> := [
    KeyRule("database_url", "database-url", High),
    KeyRule("db_url", "database-url", High),
    KeyRule("connection_string", "database-url", High)]

  const OTHER_KEY_RULES: seq<KeyRule> := [
    KeyRule("private_key", "private-key", High),
    KeyRule("webhook_secret", "webhook-secret", High),
    KeyRule("gemini_api_key", "gemini-api-key", High)]

  const GOOGLE_KEY_RULES: seq<KeyRule> := [
    KeyRule("antigravity_api_key", "antigravity-api-key", High),
    KeyRule("google_api_key", "google-api-key", High),
    KeyRule("gcp_api_key", "gcp-api-key", High)]

  const KEY_RULES: seq<KeyRule> :=
    API_KEY_RULES + PASSWORD_RULES + OAUTH_RULES + SESSION_RULES + STORE_RULES + DATABASE_RULES + OTHER_KEY_RULES
    + GOOGLE_KEY_RULES

  const TABLES: Tables := Tables(PREFIX_RULES, KEY_RULES)

  lemma KeysInUse(i: nat)
    requires i < |TABLES.keys|
    ensures Borderless(TABLES.keys[i].key) && NoUpper(TABLES.keys[i].key)
  {
    TokenKeys();
    CredentialKeys();
    StoreKeys();
    ApiKeys();
    LowerKeys();
    assert TABLES.keys[i] in KEY_RULES;
    KeyIsListed(TABLES.keys[i]);
  }

  lemma KeyIsListed(r: KeyRule)
    requires r in KEY_RULES
    ensures r.key in TOKEN_KEYS + CREDENTIAL_KEYS + STORE_KEYS + API_KEYS
  {}

  /** Every token of eight or more characters assigned to a key in use is reported, wherever the key stands. */
  lemma AssignedTokenReported(crypto: Crypto, input: string, options: Options, i: nat, p: nat, f: Finding)
    requires i < |TABLES.keys| && AssignedTo(crypto, input, TABLES.keys[i], options, p, f)
    ensures f in Assignments(crypto, input, TABLES.keys, options, |TABLES.keys|)
  {
    KeysInUse(i);
    AssignmentReported(crypto, input, TABLES.keys, options, |TABLES.keys|, i, p, f);
  }

  /** `redact_for_display`. */
  method RedactForDisplay(crypto: Crypto, input: string) returns (r: Result<string, Panic>)
    ensures r.Err? <==> BearerAtEnd(input)
    ensures r.Ok? ==>
              var kept := Normalized(RawFindings(crypto, input, TABLES, DISPLAY));
              Spans(input, kept) && r.value == PerPosition(input, kept, 0)
  {
    var result := SealText(crypto, input, TABLES, DISPLAY);
    if result.Err? {
      return Err(OutOfBounds);
    }
    RawAreGenuine(crypto, input, TABLES, DISPLAY);
    NormalizedAreGenuine(crypto, input, DISPLAY, RawFindings(crypto, input, TABLES, DISPLAY));
    DisplaySealsAll(crypto, input, result.value.findings);
    return Ok(result.value.safeText);
  }
}
