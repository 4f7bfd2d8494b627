/** Findings of the secret scanner: resolving overlaps, and replacing them in the text. */
module Findings {
  import opened Basics
  import opened Text

  datatype Confidence = Low | Medium | High

  datatype Options = Options(aggressive: bool, protectionMode: bool)

  datatype Finding = Finding(
    kind: string, start: nat, end: nat, value: string, fingerprint: string,
    confidence: Confidence, shouldSeal: bool, preview: string)

  predicate ShouldSeal(confidence: Confidence, options: Options) {
    match confidence
    case High => true
    case Medium => options.protectionMode
    case Low => options.aggressive
  }

  // ---------- sorting ----------

  /** The sort key `(start, end)`. */
  predicate KeyLeq(a: Finding, b: Finding) {
    a.start < b.start || (a.start == b.start && a.end <= b.end)
  }

  predicate KeySorted(fs: seq<Finding>) {
    forall i, j :: 0 <= i < j < |fs| ==> KeyLeq(fs[i], fs[j])
  }

  function Insert(f: Finding, fs: seq<Finding>): seq<Finding> {
    if fs == [] || KeyLeq(f, fs[0]) then [f] + fs else [fs[0]] + Insert(f, fs[1..])
  }

  /** `Vec::sort_by_key`, as a stable sort. */
  function SortByKey(fs: seq<Finding>): seq<Finding> {
    if fs == [] then [] else Insert(fs[0], SortByKey(fs[1..]))
  }

  lemma {:induction false} InsertKeeps(f: Finding, fs: seq<Finding>)
    ensures multiset(Insert(f, fs)) == multiset{f} + multiset(fs)
    decreases fs
  {
    if fs == [] || KeyLeq(f, fs[0]) {
    } else {
      InsertKeeps(f, fs[1..]);
      assert Insert(f, fs) == [fs[0]] + Insert(f, fs[1..]);
      assert fs == [fs[0]] + fs[1..];
    }
  }

  lemma {:induction false} InsertSorts(f: Finding, fs: seq<Finding>)
    requires KeySorted(fs)
    ensures KeySorted(Insert(f, fs))
    ensures Insert(f, fs) != [] && (Insert(f, fs)[0] == f || (fs != [] && Insert(f, fs)[0] == fs[0]))
    decreases fs
  {
    if fs != [] && !KeyLeq(f, fs[0]) {
      var rest := Insert(f, fs[1..]);
      InsertSorts(f, fs[1..]);
      assert KeyLeq(fs[0], rest[0]);
      FirstIsLeast(fs[0], rest);
    }
  }

  lemma FirstIsLeast(first: Finding, rest: seq<Finding>)
    requires KeySorted(rest) && (rest != [] ==> KeyLeq(first, rest[0]))
    ensures KeySorted([first] + rest)
  {
    forall j | 0 <= j < |rest| ensures KeyLeq(first, rest[j]) {
      if j > 0 { assert KeyLeq(rest[0], rest[j]); }
    }
  }

  lemma {:induction false} SortSorts(fs: seq<Finding>)
    ensures KeySorted(SortByKey(fs)) && multiset(SortByKey(fs)) == multiset(fs)
    decreases fs
  {
    if fs != [] {
      SortSorts(fs[1..]);
      InsertSorts(fs[0], SortByKey(fs[1..]));
      InsertKeeps(fs[0], SortByKey(fs[1..]));
      assert fs == [fs[0]] + fs[1..];
    }
  }

  /** Sorted by start, and by end among findings with one start. */
  lemma SortOrders(fs: seq<Finding>, i: nat, j: nat)
    requires i < j < |SortByKey(fs)|
    ensures
      var a, b := SortByKey(fs)[i], SortByKey(fs)[j];
      a.start <= b.start && (a.start == b.start ==> a.end <= b.end)
  {
    SortSorts(fs);
  }

  lemma SortKeepsMembers(fs: seq<Finding>)
    ensures forall f :: f in SortByKey(fs) <==> f in fs
  {
    SortSorts(fs);
    assert forall f :: f in fs <==> f in multiset(fs);
    assert forall f :: f in SortByKey(fs) <==> f in multiset(SortByKey(fs));
  }

  lemma {:induction false} SortedStays(fs: seq<Finding>)
    requires KeySorted(fs)
    ensures SortByKey(fs) == fs
    decreases fs
  {
    if fs != [] {
      SortedStays(fs[1..]);
      assert fs == [fs[0]] + fs[1..];
    }
  }

  /** The findings of one span, in order. */
  function WithSpan(fs: seq<Finding>, start: nat, end: nat): seq<Finding> {
    if fs == [] then []
    else (if fs[0].start == start && fs[0].end == end then [fs[0]] else []) + WithSpan(fs[1..], start, end)
  }

  lemma {:induction false} InsertIsStable(f: Finding, fs: seq<Finding>, start: nat, end: nat)
    ensures WithSpan(Insert(f, fs), start, end) == WithSpan([f] + fs, start, end)
    decreases fs
  {
    if fs == [] || KeyLeq(f, fs[0]) {
    } else {
      InsertIsStable(f, fs[1..], start, end);
      assert ([f] + fs)[1..] == fs && ([f] + fs[1..])[1..] == fs[1..] &&
             ([fs[0]] + Insert(f, fs[1..]))[1..] == Insert(f, fs[1..]);
    }
  }

  /** Findings with one span keep their order, so the first emitted one wins a tie. */
  lemma {:induction false} SortIsStable(fs: seq<Finding>, start: nat, end: nat)
    ensures WithSpan(SortByKey(fs), start, end) == WithSpan(fs, start, end)
    decreases fs
  {
    if fs != [] {
      SortIsStable(fs[1..], start, end);
      InsertIsStable(fs[0], SortByKey(fs[1..]), start, end);
      assert ([fs[0]] + SortByKey(fs[1..]))[1..] == SortByKey(fs[1..]);
    }
  }

  // ---------- resolving overlaps ----------

  function Length(f: Finding): int { f.end - f.start }

  /** One round of the loop of `normalize_findings`. */
  function Push(clean: seq<Finding>, f: Finding): seq<Finding> {
    if clean != [] && f.start < clean[|clean| - 1].end then
      if Length(f) > Length(clean[|clean| - 1]) then clean[..|clean| - 1] + [f] else clean
    else clean + [f]
  }

  function Resolve(sorted: seq<Finding>): seq<Finding> {
    if sorted == [] then [] else Push(Resolve(sorted[..|sorted| - 1]), sorted[|sorted| - 1])
  }

  lemma ResolveStep(sorted: seq<Finding>, i: nat)
    requires i < |sorted|
    ensures Resolve(sorted[..i + 1]) == Push(Resolve(sorted[..i]), sorted[i])
  {
    assert sorted[..i + 1][..i] == sorted[..i];
  }

  /** `normalize_findings` as a function; `NormalizeFindings` below computes it. */
  function Normalized(fs: seq<Finding>): seq<Finding> {
    Resolve(SortByKey(fs))
  }

  method NormalizeFindings(out: seq<Finding>) returns (clean: seq<Finding>)
    ensures clean == Normalized(out)
  {
    var sorted := SortByKey(out);
    clean := [];
    for i := 0 to |sorted|
      invariant clean == Resolve(sorted[..i])
    {
      var finding := sorted[i];
      ResolveStep(sorted, i);
      if |clean| > 0 {
        var prev := clean[|clean| - 1];
        if finding.start < prev.end {
          if finding.end - finding.start > prev.end - prev.start {
            clean := clean[..|clean| - 1];
            clean := clean + [finding];
          }
          continue;
        }
      }
      clean := clean + [finding];
    }
    assert sorted[..|sorted|] == sorted;
  }

  predicate Proper(fs: seq<Finding>) {
    forall i :: 0 <= i < |fs| ==> fs[i].start < fs[i].end
  }

  /** Sorted, pairwise disjoint. */
  predicate Disjoint(fs: seq<Finding>) {
    forall i, j :: 0 <= i < j < |fs| ==> fs[i].end <= fs[j].start
  }

  lemma PushKeepsDisjoint(clean: seq<Finding>, f: Finding)
    requires Disjoint(clean) && Proper(clean) && f.start < f.end
    requires forall k :: 0 <= k < |clean| ==> clean[k].start <= f.start
    ensures Disjoint(Push(clean, f)) && Proper(Push(clean, f)) && Push(clean, f) != []
    ensures forall k :: 0 <= k < |Push(clean, f)| ==> Push(clean, f)[k].start <= f.start
  {}

  lemma PushKeepsMembers(clean: seq<Finding>, f: Finding)
    ensures multiset(Push(clean, f)) <= multiset(clean) + multiset{f}
  {
    if clean != [] { assert clean == clean[..|clean| - 1] + [clean[|clean| - 1]]; }
  }

  /** What `Resolve` keeps comes from the input, without repetition. */
  lemma {:induction false} ResolveKeepsMembers(sorted: seq<Finding>)
    ensures multiset(Resolve(sorted)) <= multiset(sorted)
    decreases sorted
  {
    if sorted != [] {
      var n := |sorted| - 1;
      ResolveKeepsMembers(sorted[..n]);
      PushKeepsMembers(Resolve(sorted[..n]), sorted[n]);
      LastMember(sorted);
      SubBagStep(multiset(Resolve(sorted)), multiset(Resolve(sorted[..n])), multiset(sorted[..n]), multiset{sorted[n]});
    }
  }

  lemma LastMember(fs: seq<Finding>)
    requires fs != []
    ensures multiset(fs) == multiset(fs[..|fs| - 1]) + multiset{fs[|fs| - 1]}
  {
    assert fs == fs[..|fs| - 1] + [fs[|fs| - 1]];
  }

  lemma SubBagStep(a: multiset<Finding>, b: multiset<Finding>, c: multiset<Finding>, more: multiset<Finding>)
    requires a <= b + more && b <= c
    ensures a <= c + more
  {}

  lemma SortedPrefix(sorted: seq<Finding>, n: nat)
    requires KeySorted(sorted) && Proper(sorted) && n <= |sorted|
    ensures KeySorted(sorted[..n]) && Proper(sorted[..n])
  {}

  /** What `Resolve` keeps is disjoint and starts no later than the last input. */
  lemma {:induction false} ResolveKeeps(sorted: seq<Finding>)
    requires KeySorted(sorted) && Proper(sorted)
    ensures Disjoint(Resolve(sorted)) && Proper(Resolve(sorted))
    ensures sorted != [] ==> Resolve(sorted) != []
    ensures forall k :: 0 <= k < |Resolve(sorted)| ==>
                          sorted != [] && Resolve(sorted)[k].start <= sorted[|sorted| - 1].start
    decreases sorted
  {
    if sorted != [] {
      var n := |sorted| - 1;
      SortedPrefix(sorted, n);
      ResolveKeeps(sorted[..n]);
      assert n > 0 ==> KeyLeq(sorted[n - 1], sorted[n]);
      PushKeepsDisjoint(Resolve(sorted[..n]), sorted[n]);
    }
  }

  lemma PushAppends(clean: seq<Finding>, f: Finding)
    requires clean != [] ==> clean[|clean| - 1].end <= f.start
    ensures Push(clean, f) == clean + [f]
  {}

  /** Disjoint findings pass through unchanged. */
  lemma {:induction false} DisjointStays(fs: seq<Finding>)
    requires Disjoint(fs) && Proper(fs)
    ensures Resolve(fs) == fs
    decreases fs
  {
    if fs != [] {
      var n := |fs| - 1;
      DisjointStays(fs[..n]);
      PushAppends(fs[..n], fs[n]);
      assert fs == fs[..n] + [fs[n]];
    }
  }

  lemma SortKeepsProper(fs: seq<Finding>)
    requires Proper(fs)
    ensures Proper(SortByKey(fs))
  {
    SortKeepsMembers(fs);
    forall i | 0 <= i < |SortByKey(fs)| ensures SortByKey(fs)[i].start < SortByKey(fs)[i].end {
      assert SortByKey(fs)[i] in fs;
    }
  }

  /** Normalising gives a sorted disjoint sub-collection, and doing it again changes nothing. */
  lemma NormalizedIsDisjoint(fs: seq<Finding>)
    requires Proper(fs)
    ensures Disjoint(Normalized(fs)) && Proper(Normalized(fs))
    ensures multiset(Normalized(fs)) <= multiset(fs)
    ensures Normalized(Normalized(fs)) == Normalized(fs)
  {
    SortSorts(fs);
    SortKeepsProper(fs);
    ResolveKeeps(SortByKey(fs));
    ResolveKeepsMembers(SortByKey(fs));
    SortedStays(Normalized(fs));
    DisjointStays(Normalized(fs));
  }

  // ---------- which spans are kept ----------

  predicate Overlap(a: Finding, b: Finding) { a.start < b.end && b.start < a.end }

  predicate Within(a: Finding, b: Finding) { b.start <= a.start && a.end <= b.end }

  predicate SameSpan(a: Finding, b: Finding) { a.start == b.start && a.end == b.end }

  /** When its turn comes, the span at `i` is longer than each earlier one that stood and overlaps it. */
  ghost predicate Stands(sorted: seq<Finding>, i: nat)
    requires i < |sorted|
    decreases i
  {
    forall j: nat :: j < i && Overlap(sorted[j], sorted[i]) && Stands(sorted, j) ==>
                       Length(sorted[j]) < Length(sorted[i])
  }

  /** It stands, and none of those after it, up to `n`, overlaps it and is longer. */
  ghost predicate StaysUpTo(sorted: seq<Finding>, i: nat, n: nat)
    requires i < n <= |sorted|
  {
    && Stands(sorted, i)
    && forall j :: i < j < n && Overlap(sorted[i], sorted[j]) ==> Length(sorted[j]) <= Length(sorted[i])
  }

  ghost predicate Stays(sorted: seq<Finding>, i: nat)
    requires i < |sorted|
  {
    StaysUpTo(sorted, i, |sorted|)
  }

  /** No standing span ends after the last kept one, and none that reaches past its start is longer. */
  ghost predicate Governs(sorted: seq<Finding>, n: nat, last: Finding)
    requires n <= |sorted|
  {
    forall j: nat :: j < n && Stands(sorted, j) ==>
                       sorted[j].end <= last.end && (last.start < sorted[j].end ==> Length(sorted[j]) <= Length(last))
  }

  ghost predicate StaysAs(sorted: seq<Finding>, n: nat, f: Finding)
    requires n <= |sorted|
  {
    exists i: nat :: i < n && StaysUpTo(sorted, i, n) && sorted[i] == f
  }

  /** `kept` holds exactly the spans that stay among the first `n`; its last one stands and governs. */
  ghost predicate Accounted(sorted: seq<Finding>, n: nat, kept: seq<Finding>)
    requires n <= |sorted|
  {
    && Disjoint(kept) && Proper(kept) && (n == 0 <==> kept == [])
    && (kept != [] ==>
          var last := kept[|kept| - 1];
          Governs(sorted, n, last) && exists l: nat :: l < n && Stands(sorted, l) && sorted[l] == last)
    && forall f :: f in kept <==> StaysAs(sorted, n, f)
  }

  /** The next span stands exactly when it starts after the last kept one or is longer. */
  lemma NextStands(sorted: seq<Finding>, n: nat, kept: seq<Finding>)
    requires KeySorted(sorted) && Proper(sorted) && n < |sorted| && Accounted(sorted, n, kept)
    ensures Stands(sorted, n) <==>
            kept == [] || kept[|kept| - 1].end <= sorted[n].start || Length(kept[|kept| - 1]) < Length(sorted[n])
  {
    if kept != [] {
      var l: nat :| l < n && Stands(sorted, l) && sorted[l] == kept[|kept| - 1];
      assert KeyLeq(sorted[l], sorted[n]);
      forall j: nat | j < n && Overlap(sorted[j], sorted[n]) && Stands(sorted, j)
        ensures kept[|kept| - 1].start < sorted[j].end && sorted[n].start < sorted[j].end <= kept[|kept| - 1].end
      {
        assert KeyLeq(sorted[j], sorted[n]);
      }
    }
  }

  lemma NextGoverns(sorted: seq<Finding>, n: nat, kept: seq<Finding>)
    requires KeySorted(sorted) && Proper(sorted) && n < |sorted| && Accounted(sorted, n, kept)
    ensures Push(kept, sorted[n]) != []
    ensures Governs(sorted, n + 1, Push(kept, sorted[n])[|Push(kept, sorted[n])| - 1])
  {
    NextStands(sorted, n, kept);
    KeptStart(sorted, n, kept);
    if kept == [] {
      assert Push(kept, sorted[n]) == [sorted[n]];
    } else {
      StillGoverns(sorted, n, kept[|kept| - 1]);
    }
  }

  lemma StillGoverns(sorted: seq<Finding>, n: nat, last: Finding)
    requires Proper(sorted) && n < |sorted| && Governs(sorted, n, last) && last.start <= sorted[n].start < sorted[n].end
    requires Stands(sorted, n) <==> last.end <= sorted[n].start || Length(last) < Length(sorted[n])
    ensures Governs(sorted, n + 1, if Stands(sorted, n) then sorted[n] else last)
  {}

  /** `f` is overlapped by `g` and shorter. */
  predicate Beaten(f: Finding, g: Finding) { Overlap(f, g) && Length(f) < Length(g) }

  lemma StaysNext(sorted: seq<Finding>, i: nat, n: nat)
    requires i < n < |sorted|
    ensures StaysUpTo(sorted, i, n + 1) <==> StaysUpTo(sorted, i, n) && !Beaten(sorted[i], sorted[n])
  {}

  lemma StaysOn(sorted: seq<Finding>, n: nat, f: Finding)
    requires n < |sorted| && StaysAs(sorted, n, f) && !Beaten(f, sorted[n])
    ensures StaysAs(sorted, n + 1, f)
  {
    var i: nat :| i < n && StaysUpTo(sorted, i, n) && sorted[i] == f;
    StaysNext(sorted, i, n);
  }

  lemma StayedBefore(sorted: seq<Finding>, n: nat, f: Finding)
    requires n < |sorted| && StaysAs(sorted, n + 1, f)
    ensures (StaysAs(sorted, n, f) && !Beaten(f, sorted[n])) || (Stands(sorted, n) && f == sorted[n])
  {
    var i: nat :| i < n + 1 && StaysUpTo(sorted, i, n + 1) && sorted[i] == f;
    StayedAt(sorted, i, n);
  }

  lemma StayedAt(sorted: seq<Finding>, i: nat, n: nat)
    requires i <= n < |sorted| && StaysUpTo(sorted, i, n + 1)
    ensures if i < n then StaysAs(sorted, n, sorted[i]) && !Beaten(sorted[i], sorted[n]) else Stands(sorted, n)
  {
    if i < n { StaysNext(sorted, i, n); }
  }

  lemma StaysAsNext(sorted: seq<Finding>, n: nat, f: Finding)
    requires n < |sorted|
    ensures StaysAs(sorted, n + 1, f)
       <==> (StaysAs(sorted, n, f) && !Beaten(f, sorted[n])) || (Stands(sorted, n) && f == sorted[n])
  {
    if StaysAs(sorted, n + 1, f) { StayedBefore(sorted, n, f); }
    if StaysAs(sorted, n, f) && !Beaten(f, sorted[n]) { StaysOn(sorted, n, f); }
    if Stands(sorted, n) { assert StaysUpTo(sorted, n, n + 1); }
  }

  /** Pushing `g` takes out what it beats, and puts it in if nothing kept stands in its way. */
  lemma PushMembers(kept: seq<Finding>, g: Finding, f: Finding)
    requires Disjoint(kept) && Proper(kept) && g.start < g.end
    requires kept != [] ==> kept[|kept| - 1].start <= g.start
    ensures f in Push(kept, g) <==>
            || (f in kept && !Beaten(f, g))
            || (f == g && (kept == [] || kept[|kept| - 1].end <= g.start || Length(kept[|kept| - 1]) < Length(g)))
  {
    if kept != [] {
      var last := kept[|kept| - 1];
      assert kept == kept[..|kept| - 1] + [last];
      if f in kept[..|kept| - 1] {
        var k :| 0 <= k < |kept| - 1 && kept[k] == f;
        assert f.end <= last.start && f != last;
      }
    }
  }

  lemma NextIsAccounted(sorted: seq<Finding>, n: nat, kept: seq<Finding>)
    requires KeySorted(sorted) && Proper(sorted) && n < |sorted| && Accounted(sorted, n, kept)
    ensures Accounted(sorted, n + 1, Push(kept, sorted[n]))
  {
    var next := Push(kept, sorted[n]);
    KeptStart(sorted, n, kept);
    PushKeepsDisjoint(kept, sorted[n]);
    NextStands(sorted, n, kept);
    NextGoverns(sorted, n, kept);
    LastStands(sorted, n, kept);
    forall f ensures f in next <==> StaysAs(sorted, n + 1, f) {
      PushMembers(kept, sorted[n], f);
      StaysAsNext(sorted, n, f);
    }
  }

  lemma KeptStart(sorted: seq<Finding>, n: nat, kept: seq<Finding>)
    requires KeySorted(sorted) && n < |sorted| && Accounted(sorted, n, kept)
    ensures forall k :: 0 <= k < |kept| ==> kept[k].start <= sorted[n].start
  {
    if kept != [] {
      var l: nat :| l < n && Stands(sorted, l) && sorted[l] == kept[|kept| - 1];
      assert KeyLeq(sorted[l], sorted[n]);
    }
  }

  lemma LastStands(sorted: seq<Finding>, n: nat, kept: seq<Finding>)
    requires KeySorted(sorted) && Proper(sorted) && n < |sorted| && Accounted(sorted, n, kept)
    ensures
      var next := Push(kept, sorted[n]);
      next != [] && exists l: nat :: l < n + 1 && Stands(sorted, l) && sorted[l] == next[|next| - 1]
  {
    NextStands(sorted, n, kept);
    if kept != [] && Push(kept, sorted[n]) == kept {
      var l: nat :| l < n && Stands(sorted, l) && sorted[l] == kept[|kept| - 1];
    } else {
      assert Stands(sorted, n) && n < n + 1;
    }
  }

  lemma NothingYet(sorted: seq<Finding>)
    ensures Accounted(sorted, 0, [])
  {}

  lemma {:induction false} ResolveIsAccounted(sorted: seq<Finding>, n: nat)
    requires KeySorted(sorted) && Proper(sorted) && n <= |sorted|
    ensures Accounted(sorted, n, Resolve(sorted[..n]))
  {
    if n == 0 {
      NothingYet(sorted);
    } else {
      ResolveIsAccounted(sorted, n - 1);
      NextIsAccounted(sorted, n - 1, Resolve(sorted[..n - 1]));
      ResolveStep(sorted, n - 1);
    }
  }

  /** Exactly the spans that stay are kept. */
  lemma NormalizedIff(fs: seq<Finding>, f: Finding)
    requires Proper(fs)
    ensures f in Normalized(fs)
       <==> exists i: nat :: i < |SortByKey(fs)| && Stays(SortByKey(fs), i) && SortByKey(fs)[i] == f
  {
    var sorted := SortByKey(fs);
    SortSorts(fs);
    SortKeepsProper(fs);
    ResolveIsAccounted(sorted, |sorted|);
    assert sorted[..|sorted|] == sorted;
    assert forall i: nat :: i < |sorted| ==> (Stays(sorted, i) <==> StaysUpTo(sorted, i, |sorted|));
  }

  lemma StayingIsKept(fs: seq<Finding>, i: nat)
    requires Proper(fs) && i < |SortByKey(fs)| && Stays(SortByKey(fs), i)
    ensures SortByKey(fs)[i] in Normalized(fs)
  {
    NormalizedIff(fs, SortByKey(fs)[i]);
  }

  ghost predicate Keeps(kept: seq<Finding>, m: Finding) {
    exists k :: k in kept && SameSpan(k, m)
  }

  /** `m` is longer than whatever else overlaps it. */
  ghost predicate Prevails(fs: seq<Finding>, m: Finding) {
    forall h :: h in fs && Overlap(h, m) ==> SameSpan(h, m) || Length(h) < Length(m)
  }

  /** So a span longer than whatever else overlaps it is kept. */
  lemma NormalizedKeeps(fs: seq<Finding>, m: Finding)
    requires Proper(fs) && m in fs && Prevails(fs, m)
    ensures Keeps(Normalized(fs), m)
  {
    SortKeepsMembers(fs);
    var i := FirstOfSpan(SortByKey(fs), m);
    PrevailingStays(SortByKey(fs), i, m);
    StayingIsKept(fs, i);
  }

  lemma PrevailingStays(sorted: seq<Finding>, i: nat, m: Finding)
    requires Prevails(sorted, m) && i < |sorted| && SameSpan(sorted[i], m)
    requires forall j :: 0 <= j < i ==> !SameSpan(sorted[j], m)
    ensures Stays(sorted, i)
  {
    assert forall j :: 0 <= j < |sorted| ==> sorted[j] in sorted;
  }

  lemma FirstOfSpan(sorted: seq<Finding>, m: Finding) returns (i: nat)
    requires m in sorted
    ensures i < |sorted| && SameSpan(sorted[i], m) && forall j :: 0 <= j < i ==> !SameSpan(sorted[j], m)
  {
    var w :| 0 <= w < |sorted| && sorted[w] == m;
    i := 0;
    while !SameSpan(sorted[i], m)
      invariant i <= w && forall j :: 0 <= j < i ==> !SameSpan(sorted[j], m)
      decreases w - i
    {
      i := i + 1;
    }
  }

  // ---------- ties ----------

  lemma {:induction false} FirstWithSpan(fs: seq<Finding>, f: Finding, i: nat)
    requires i < |fs| && SameSpan(fs[i], f) && forall j :: 0 <= j < i ==> !SameSpan(fs[j], f)
    ensures WithSpan(fs, f.start, f.end) != [] && WithSpan(fs, f.start, f.end)[0] == fs[i]
    decreases fs
  {
    if i > 0 { FirstWithSpan(fs[1..], f, i - 1); }
  }

  lemma {:induction false} WithSpanFrom(a: seq<Finding>, b: seq<Finding>, f: Finding)
    requires f in a
    ensures WithSpan(a + b, f.start, f.end) != [] && WithSpan(a + b, f.start, f.end)[0] in a
    decreases a
  {
    assert (a + b)[0] == a[0] && (a + b)[1..] == a[1..] + b;
    if !(a[0].start == f.start && a[0].end == f.end) { WithSpanFrom(a[1..], b, f); }
  }

  /** A span that stands is the first of its kind: an earlier one would have stood in its place. */
  lemma StandingIsFirst(sorted: seq<Finding>, i: nat, j: nat)
    requires KeySorted(sorted) && Proper(sorted) && j < i < |sorted| && SameSpan(sorted[j], sorted[i])
    ensures !Stands(sorted, i)
  {
    if !Stands(sorted, j) {
      var k: nat :| k < j && Overlap(sorted[k], sorted[j]) && Stands(sorted, k)
                    && Length(sorted[k]) >= Length(sorted[j]);
      assert Overlap(sorted[k], sorted[i]);
    }
  }

  /** Of findings with one span, one that was reported earlier is kept. */
  lemma EarlierWins(a: seq<Finding>, b: seq<Finding>, f: Finding, k: Finding)
    requires Proper(a + b) && f in a && k in Normalized(a + b) && SameSpan(f, k)
    ensures k in a
  {
    var sorted := SortByKey(a + b);
    NormalizedIff(a + b, k);
    var i: nat :| i < |sorted| && Stays(sorted, i) && sorted[i] == k;
    SortSorts(a + b);
    SortKeepsProper(a + b);
    forall j: nat | j < i ensures !SameSpan(sorted[j], k) {
      if SameSpan(sorted[j], k) { StandingIsFirst(sorted, i, j); }
    }
    FirstWithSpan(sorted, k, i);
    SortIsStable(a + b, k.start, k.end);
    WithSpanFrom(a, b, f);
  }

  // ---------- nested families ----------

  /** Overlapping spans nest. */
  ghost predicate Nested(fs: seq<Finding>) {
    forall a, b :: a in fs && b in fs && Overlap(a, b) ==> Within(a, b) || Within(b, a)
  }

  /** Some kept span contains the span of `f`. */
  ghost predicate Covered(kept: seq<Finding>, f: Finding) {
    exists k :: k in kept && Within(f, k)
  }

  ghost predicate AllCovered(kept: seq<Finding>, fs: seq<Finding>) {
    forall f :: f in fs ==> Covered(kept, f)
  }

  /** No span of the family properly contains that of `f`. */
  ghost predicate Maximal(fs: seq<Finding>, f: Finding) {
    forall g :: g in fs && Within(f, g) ==> SameSpan(f, g)
  }

  /** Exactly the maximal spans, in order, each once. */
  ghost predicate AreTheMaximal(kept: seq<Finding>, fs: seq<Finding>) {
    && Disjoint(kept) && Proper(kept)
    && (forall k :: k in kept ==> k in fs && Maximal(fs, k))
    && (forall f :: f in fs && Maximal(fs, f) ==> Keeps(kept, f))
  }

  /** Every span lies in a maximal one. */
  lemma {:induction false} MaximalAbove(fs: seq<Finding>, f: Finding, bound: nat) returns (m: Finding)
    requires Proper(fs) && f in fs && forall g :: g in fs ==> g.end <= bound
    ensures m in fs && Within(f, m) && Maximal(fs, m)
    decreases bound - Length(f)
  {
    if Maximal(fs, f) {
      m := f;
    } else {
      var g :| g in fs && Within(f, g) && !SameSpan(f, g);
      m := MaximalAbove(fs, g, bound);
    }
  }

  lemma {:induction false} EndsAreBounded(fs: seq<Finding>) returns (bound: nat)
    ensures forall g :: g in fs ==> g.end <= bound
    decreases fs
  {
    bound := 0;
    if fs != [] {
      bound := EndsAreBounded(fs[1..]);
      assert forall g :: g in fs ==> g == fs[0] || g in fs[1..];
      bound := if bound < fs[0].end then fs[0].end else bound;
    }
  }

  lemma MaximalPrevails(fs: seq<Finding>, m: Finding)
    requires Nested(fs) && m in fs && Maximal(fs, m)
    ensures Prevails(fs, m)
  {
    forall h | h in fs && Overlap(h, m) && !SameSpan(h, m) ensures Length(h) < Length(m) {
      assert !Within(m, h);
    }
  }

  /** In a nested family every span lies in one that prevails. */
  lemma NestedPrevail(fs: seq<Finding>, f: Finding) returns (m: Finding)
    requires Proper(fs) && Nested(fs) && f in fs
    ensures m in fs && Within(f, m) && Maximal(fs, m) && Prevails(fs, m)
  {
    var bound := EndsAreBounded(fs);
    m := MaximalAbove(fs, f, bound);
    MaximalPrevails(fs, m);
  }

  /** On a family where overlapping spans nest, nothing is lost and exactly the maximal spans are kept. */
  lemma NormalizedIsMaximal(fs: seq<Finding>)
    requires Proper(fs) && Nested(fs)
    ensures AllCovered(Normalized(fs), fs) && AreTheMaximal(Normalized(fs), fs)
  {
    NormalizedIsDisjoint(fs);
    SameOrFewer(Normalized(fs), fs);
    forall f | f in fs ensures Covered(Normalized(fs), f) {
      var m := NestedPrevail(fs, f);
      NormalizedKeeps(fs, m);
    }
    CoverIsTheMaximal(Normalized(fs), fs);
  }

  lemma SameOrFewer(kept: seq<Finding>, fs: seq<Finding>)
    requires multiset(kept) <= multiset(fs)
    ensures forall k :: k in kept ==> k in fs
  {
    forall k | k in kept ensures k in fs {
      assert k in multiset(kept);
    }
  }

  lemma CoverIsTheMaximal(kept: seq<Finding>, fs: seq<Finding>)
    requires Disjoint(kept) && Proper(kept) && AllCovered(kept, fs) && forall k :: k in kept ==> k in fs
    ensures AreTheMaximal(kept, fs)
  {
    KeptAreMaximal(kept, fs);
    forall f | f in fs && Maximal(fs, f) ensures Keeps(kept, f) {
      MaximalIsKept(kept, fs, f);
    }
  }

  lemma KeptAreMaximal(kept: seq<Finding>, fs: seq<Finding>)
    requires Disjoint(kept) && Proper(kept) && AllCovered(kept, fs) && forall k :: k in kept ==> k in fs
    ensures forall k :: k in kept ==> k in fs && Maximal(fs, k)
  {
    forall k | k in kept ensures Maximal(fs, k) {
      CoverIsMaximal(kept, fs, k);
    }
  }

  lemma MaximalIsKept(kept: seq<Finding>, fs: seq<Finding>, f: Finding)
    requires AllCovered(kept, fs) && f in fs && Maximal(fs, f) && forall k :: k in kept ==> k in fs
    ensures Keeps(kept, f)
  {
    assert Covered(kept, f);
    var k :| k in kept && Within(f, k);
  }

  /** Of disjoint spans that cover a family they come from, each is maximal in it. */
  lemma CoverIsMaximal(kept: seq<Finding>, fs: seq<Finding>, k: Finding)
    requires Disjoint(kept) && Proper(kept) && AllCovered(kept, fs) && k in kept
    ensures Maximal(fs, k)
  {
    forall g | g in fs && Within(k, g) ensures SameSpan(k, g) {
      assert Covered(kept, g);
      var l :| l in kept && Within(g, l);
      OnlyItself(kept, k, l);
    }
  }

  lemma OnlyItself(kept: seq<Finding>, k: Finding, l: Finding)
    requires Disjoint(kept) && Proper(kept) && k in kept && l in kept && Within(k, l)
    ensures k == l
  {
    var i :| 0 <= i < |kept| && kept[i] == k;
    var j :| 0 <= j < |kept| && kept[j] == l;
    assert i == j;
  }

  function Span(start: nat, end: nat): Finding {
    Finding("k", start, end, "", "", High, true, "")
  }

  /** Without nesting a span can be lost: a chain of partial overlaps evicts one that touches nothing kept. */
  lemma ChainEvicts()
    ensures Normalized([Span(0, 5), Span(4, 10), Span(9, 20)]) == [Span(9, 20)]
    ensures !Overlap(Span(0, 5), Span(9, 20))
  {
    var a, b, c := Span(0, 5), Span(4, 10), Span(9, 20);
    SortedStays([a, b, c]);
    ResolveThree(a, b, c);
  }

  lemma ResolveThree(a: Finding, b: Finding, c: Finding)
    ensures Resolve([a, b, c]) == Push(Push([a], b), c)
  {
    assert [a, b, c][..2] == [a, b];
    assert [a, b][..1] == [a];
    assert [a][..0] == [];
    assert Resolve([a]) == [a];
    assert Resolve([a, b]) == Push([a], b);
  }
}
