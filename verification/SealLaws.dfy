/** What the sealing engine detects, which finding it keeps, and what it puts in its place. */
module SealLaws {
  import opened Basics
  import opened Text
  import opened Findings
  import opened Scanners
  import opened FieldScanners
  import opened BlockScanners
  import opened Replace
  import opened Seal
  import opened ScannerLaws

  // ---------- what is detected ----------

  lemma {:induction false} AllPrefixedFrom(
    crypto: Crypto, input: string, rules: seq<PrefixRule>, options: Options, n: nat, f: Finding)
    requires n <= |rules|
    ensures f in AllPrefixed(crypto, input, rules, options, n)
       <==> exists i: nat :: i < n && f in PrefixedTokens(crypto, input, rules[i], options, |input|)
  {
    if n > 0 {
      AllPrefixedFrom(crypto, input, rules, options, n - 1, f);
      InEither(AllPrefixed(crypto, input, rules, options, n - 1),
               PrefixedTokens(crypto, input, rules[n - 1], options, |input|), f);
    }
  }

  /** A prefixed token is reported exactly when one of the rules reports it. */
  lemma AllPrefixedIff(crypto: Crypto, input: string, rules: seq<PrefixRule>, options: Options, f: Finding)
    ensures f in AllPrefixed(crypto, input, rules, options, |rules|)
       <==> exists i: nat, p: nat, e: nat :: i < |rules| && PrefixedToken(crypto, input, rules[i], options, f, p, e)
  {
    AllPrefixedFrom(crypto, input, rules, options, |rules|, f);
    forall i: nat | i < |rules|
      ensures f in PrefixedTokens(crypto, input, rules[i], options, |input|)
         <==> exists p: nat, e: nat :: PrefixedToken(crypto, input, rules[i], options, f, p, e)
    {
      PrefixedIff(crypto, input, rules[i], options, f);
    }
  }

  /**
   An assigned value is reported exactly when a key in use stands in the text, in any case, and behind the first
   separator after it and the filler there a token of eight or more characters starts.
   */
  lemma AssignmentsIff(crypto: Crypto, input: string, options: Options, f: Finding)
    ensures f in Assignments(crypto, input, TABLES.keys, options, |TABLES.keys|)
       <==> exists i: nat, p: nat, q: nat, t: nat, e: nat ::
              i < |TABLES.keys| && AssignedToken(crypto, input, TABLES.keys[i], options, f, p, q, t, e)
  {
    var keys := TABLES.keys;
    if f in Assignments(crypto, input, keys, options, |keys|) {
      var i, p := AssignmentJustified(crypto, input, keys, options, |keys|, f);
      KeysInUse(i);
      var q, t, e := AssignedToFrom(crypto, input, keys[i], options, f, p);
    }
    if i: nat, p: nat, q: nat, t: nat, e: nat :|
      i < |keys| && AssignedToken(crypto, input, keys[i], options, f, p, q, t, e)
    {
      KeysInUse(i);
      AssignedTokenCounts(crypto, input, keys[i], options, f, p, q, t, e);
      AssignmentReported(crypto, input, keys, options, |keys|, i, p, f);
    }
  }

  ghost predicate OfScheme(crypto: Crypto, input: string, options: Options, i: nat, f: Finding)
    requires i < |SCHEMES|
  {
    f in SchemeUrls(crypto, input, options, SCHEMES[i], |input|)
  }

  /** What holds after each step when it held before or the step brings it holds when some step brings it. */
  lemma {:induction false} Accumulates(some: seq<bool>, one: seq<bool>)
    requires |some| == |one| + 1 && !some[0]
    requires forall i :: 0 <= i < |one| ==> some[i + 1] == (some[i] || one[i])
    ensures some[|one|] <==> exists i :: 0 <= i < |one| && one[i]
    decreases |one|
  {
    if one != [] {
      var n := |one| - 1;
      Accumulates(some[..n + 1], one[..n]);
    }
  }

  lemma UrlsStep(crypto: Crypto, input: string, options: Options, n: nat, f: Finding)
    requires n < |SCHEMES|
    ensures f in DatabaseUrls(crypto, input, options, n + 1)
       <==> f in DatabaseUrls(crypto, input, options, n) ||
            OfScheme(crypto, input, options, n, f)
  {
    InEither(DatabaseUrls(crypto, input, options, n), SchemeUrls(crypto, input, options, SCHEMES[n], |input|), f);
  }

  lemma UrlsFrom(crypto: Crypto, input: string, options: Options, n: nat, f: Finding)
    requires n <= |SCHEMES|
    ensures f in DatabaseUrls(crypto, input, options, n)
       <==> exists i: nat :: i < n && OfScheme(crypto, input, options, i, f)
  {
    var one := seq(n, i requires 0 <= i < n => OfScheme(crypto, input, options, i, f));
    var some := seq(n + 1, i requires 0 <= i <= n => f in DatabaseUrls(crypto, input, options, i));
    forall i | 0 <= i < n ensures some[i + 1] <==> some[i] || one[i] { UrlsStep(crypto, input, options, i, f); }
    Accumulates(some, one);
    assert forall i :: 0 <= i < n ==> one[i] == OfScheme(crypto, input, options, i, f);
  }

  /** A database URL is reported exactly when one of the schemes opens it. */
  lemma UrlsIff(crypto: Crypto, input: string, options: Options, f: Finding)
    ensures f in DatabaseUrls(crypto, input, options, |SCHEMES|)
       <==> exists i: nat, p: nat, e: nat ::
              i < |SCHEMES| && DatabaseUrl(crypto, input, options, f, SCHEMES[i], p, e)
  {
    UrlsFrom(crypto, input, options, |SCHEMES|, f);
    forall i: nat | i < |SCHEMES|
      ensures OfScheme(crypto, input, options, i, f)
         <==> exists p: nat, e: nat :: DatabaseUrl(crypto, input, options, f, SCHEMES[i], p, e)
    {
      UrlIff(crypto, input, options, i, f);
    }
  }

  /** What each scanner reports, in the order in which they run. */
  ghost function ScannerLists(crypto: Crypto, input: string, tables: Tables, options: Options): seq<seq<Finding>> {
    [AllPrefixed(crypto, input, tables.prefixes, options, |tables.prefixes|),
     Bearers(crypto, input, options, |input|),
     Jwts(crypto, input, options, |input|),
     KeyBlocks(crypto, input, options, |input|),
     DatabaseUrls(crypto, input, options, |SCHEMES|),
     Assignments(crypto, input, tables.keys, options, |tables.keys|),
     EntropyRuns(crypto, input, options, |input|)]
  }

  ghost function Joined(lists: seq<seq<Finding>>): seq<Finding> {
    if lists == [] then [] else lists[0] + Joined(lists[1..])
  }

  lemma {:induction false} JoinedSplit(lists: seq<seq<Finding>>, n: nat)
    requires n <= |lists|
    ensures Joined(lists) == Joined(lists[..n]) + Joined(lists[n..])
    decreases n
  {
    if n > 0 {
      JoinedSplit(lists[1..], n - 1);
      assert lists[..n][1..] == lists[1..][..n - 1] && lists[1..][n - 1..] == lists[n..];
      assert lists[0] + (Joined(lists[1..][..n - 1]) + Joined(lists[n..]))
          == lists[0] + Joined(lists[1..][..n - 1]) + Joined(lists[n..]);
    }
  }

  lemma {:induction false} JoinedFrom(lists: seq<seq<Finding>>, f: Finding)
    ensures f in Joined(lists) <==> exists i :: 0 <= i < |lists| && f in lists[i]
    decreases lists
  {
    if lists != [] {
      JoinedFrom(lists[1..], f);
      InEither(lists[0], Joined(lists[1..]), f);
      if i :| 0 <= i < |lists| && f in lists[i] {
        assert i > 0 ==> lists[1..][i - 1] == lists[i];
      }
    }
  }

  lemma SevenJoined(a: seq<Finding>, b: seq<Finding>, c: seq<Finding>, d: seq<Finding>, e: seq<Finding>,
                    g: seq<Finding>, h: seq<Finding>)
    ensures Joined([a, b, c, d, e, g, h]) == (a + b) + (c + d + e) + (g + h)
  {
    assert [a, b, c, d, e, g, h][1..] == [b, c, d, e, g, h] && [b, c, d, e, g, h][1..] == [c, d, e, g, h];
    assert [c, d, e, g, h][1..] == [d, e, g, h] && [d, e, g, h][1..] == [e, g, h];
    assert [e, g, h][1..] == [g, h] && [g, h][1..] == [h] && [h][1..] == [];
    assert Joined([h]) == h + [] == h;
    assert Joined([g, h]) == g + h;
    assert Joined([e, g, h]) == e + (g + h);
    assert Joined([c, d, e, g, h]) == c + (d + (e + (g + h)));
  }

  lemma RawIsJoined(crypto: Crypto, input: string, tables: Tables, options: Options)
    ensures RawFindings(crypto, input, tables, options) == Joined(ScannerLists(crypto, input, tables, options))
  {
    SevenJoined(
      AllPrefixed(crypto, input, tables.prefixes, options, |tables.prefixes|), Bearers(crypto, input, options, |input|),
      Jwts(crypto, input, options, |input|), KeyBlocks(crypto, input, options, |input|),
      DatabaseUrls(crypto, input, options, |SCHEMES|),
      Assignments(crypto, input, tables.keys, options, |tables.keys|), EntropyRuns(crypto, input, options, |input|));
  }

  /** Some scanner detects `f`. */
  ghost predicate Detected(crypto: Crypto, input: string, options: Options, f: Finding) {
    || (exists i: nat, p: nat, e: nat ::
          i < |TABLES.prefixes| && PrefixedToken(crypto, input, TABLES.prefixes[i], options, f, p, e))
    || (exists p: nat, e: nat :: BearerToken(crypto, input, options, f, p, e))
    || (exists p: nat, e: nat :: Jwt(crypto, input, options, f, p, e))
    || (exists p: nat, e: nat :: KeyBlock(crypto, input, options, f, p, e))
    || (exists i: nat, p: nat, e: nat ::
          i < |SCHEMES| && DatabaseUrl(crypto, input, options, f, SCHEMES[i], p, e))
    || (exists i: nat, p: nat, q: nat, t: nat, e: nat ::
          i < |TABLES.keys| && AssignedToken(crypto, input, TABLES.keys[i], options, f, p, q, t, e))
    || (exists s: nat, e: nat :: EntropyToken(crypto, input, options, f, s, e))
  }

  lemma RawFrom(crypto: Crypto, input: string, tables: Tables, options: Options, f: Finding)
    ensures f in RawFindings(crypto, input, tables, options)
       <==> || f in AllPrefixed(crypto, input, tables.prefixes, options, |tables.prefixes|)
            || f in Bearers(crypto, input, options, |input|) || f in Jwts(crypto, input, options, |input|)
            || f in KeyBlocks(crypto, input, options, |input|)
            || f in DatabaseUrls(crypto, input, options, |SCHEMES|)
            || f in Assignments(crypto, input, tables.keys, options, |tables.keys|)
            || f in EntropyRuns(crypto, input, options, |input|)
  {}

  /** On every text, exactly what is detected goes into the resolution of overlaps. */
  lemma DetectedIff(crypto: Crypto, input: string, options: Options, f: Finding)
    ensures f in RawFindings(crypto, input, TABLES, options) <==> Detected(crypto, input, options, f)
  {
    RawFrom(crypto, input, TABLES, options, f);
    AllPrefixedIff(crypto, input, TABLES.prefixes, options, f);
    BearerIff(crypto, input, options, f);
    JwtIff(crypto, input, options, f);
    KeyBlockIff(crypto, input, options, f);
    UrlsIff(crypto, input, options, f);
    AssignmentsIff(crypto, input, options, f);
    EntropyIff(crypto, input, options, f);
  }

  // ---------- which finding is kept ----------

  /** Of findings with one span, the one of the scanner that runs first is kept. */
  lemma EarlierScannerWins(
    crypto: Crypto, input: string, tables: Tables, options: Options, i: nat, f: Finding, k: Finding)
    requires i < |ScannerLists(crypto, input, tables, options)|
    requires f in ScannerLists(crypto, input, tables, options)[i]
    requires k in Normalized(RawFindings(crypto, input, tables, options)) && SameSpan(f, k)
    ensures exists j :: 0 <= j <= i && k in ScannerLists(crypto, input, tables, options)[j]
  {
    var lists := ScannerLists(crypto, input, tables, options);
    RawIsJoined(crypto, input, tables, options);
    RawAreGenuine(crypto, input, tables, options);
    NormalizedAreGenuine(crypto, input, options, RawFindings(crypto, input, tables, options));
    JoinedSplit(lists, i + 1);
    assert lists[..i + 1][i] == lists[i];
    JoinedFrom(lists[..i + 1], f);
    EarlierWins(Joined(lists[..i + 1]), Joined(lists[i + 1..]), f, k);
    JoinedFrom(lists[..i + 1], k);
    var j :| 0 <= j < i + 1 && k in lists[..i + 1][j];
    assert k in lists[j];
  }

  // ---------- what takes its place ----------

  /** The handle in place of a span tells the kind and the fingerprint of the finding, and nothing else. */
  lemma {:induction false} HandleSpells(fs: seq<Finding>, k: Finding)
    requires Disjoint(fs) && Proper(fs) && k in fs
    ensures HandleAt(fs, k.start) == "lockrail://secret/" + k.kind + "/" + k.fingerprint
    decreases fs
  {
    if fs[0] != k {
      var i :| 1 <= i < |fs| && fs[i] == k;
      assert fs[1..][i - 1] == k && fs[0].start < fs[0].end <= k.start;
      HandleSpells(fs[1..], k);
    }
  }
}
