/**
 Scanning by markers: a loop that looks for the next occurrence of a marker, reports what
 it makes of it, and resumes behind it. What such a loop reports, said without the loop.
 */
module Visits {
  import opened Basics
  import opened Text
  import opened Findings

  /** An occurrence that no earlier visited one jumps over; `next` tells where the loop resumes. */
  ghost predicate Visited(text: string, marker: string, next: nat -> nat, p: nat)
    decreases p
  {
    && OccursAt(text, marker, p)
    && forall q: nat | q < p && Visited(text, marker, next, q) :: next(q) <= p
  }

  /** An occurrence that only the one at `from` could jump over is visited exactly when that one is not. */
  lemma OneJumper(text: string, marker: string, next: nat -> nat, from: nat, p: nat)
    requires OccursAt(text, marker, p) && from < p && next(from) > p
    requires forall q: nat :: q < p && Visited(text, marker, next, q) && next(q) > p ==> q == from
    ensures Visited(text, marker, next, p) <==> !Visited(text, marker, next, from)
  {}

  /** Occurrences that another one jumps over resume where it does. */
  ghost predicate SharesRuns(text: string, marker: string, next: nat -> nat) {
    forall q: nat, p: nat :: q < p < next(q) && OccursAt(text, marker, q) && OccursAt(text, marker, p) ==>
                               next(p) == next(q)
  }

  /** An occurrence that no earlier one jumps over. */
  ghost predicate FirstOfRun(text: string, marker: string, next: nat -> nat, p: nat) {
    OccursAt(text, marker, p) && forall q: nat :: q < p && OccursAt(text, marker, q) ==> next(q) <= p
  }

  /** Then which occurrences are visited is seen from the text alone. */
  lemma VisitedIffFirst(text: string, marker: string, next: nat -> nat, p: nat)
    requires SharesRuns(text, marker, next)
    ensures Visited(text, marker, next, p) <==> FirstOfRun(text, marker, next, p)
  {
    if Visited(text, marker, next, p) {
      forall q: nat | q < p && OccursAt(text, marker, q) ensures next(q) <= p {
        if !Visited(text, marker, next, q) {
          var v: nat :| v < q && Visited(text, marker, next, v) && next(v) > q;
          assert next(q) == next(v) <= p;
        }
      }
    }
  }

  /** What is emitted comes from the first occurrence of a run. */
  lemma EmittedFromFirst(
    text: string, marker: string, next: nat -> nat, emit: nat -> seq<Finding>, limit: nat, f: Finding)
    requires SharesRuns(text, marker, next)
    ensures f in Emitted(text, marker, next, emit, limit) <==>
            exists p: nat :: p < limit && FirstOfRun(text, marker, next, p) && f in emit(p)
  {
    EmittedFrom(text, marker, next, emit, limit, f);
    forall p: nat ensures Visited(text, marker, next, p) <==> FirstOfRun(text, marker, next, p) {
      VisitedIffFirst(text, marker, next, p);
    }
  }

  /** What the visited occurrences before `limit` report, in order. */
  ghost function Emitted(
    text: string, marker: string, next: nat -> nat, emit: nat -> seq<Finding>, limit: nat): seq<Finding>
  {
    if limit == 0 then []
    else
      Emitted(text, marker, next, emit, limit - 1)
      + (if Visited(text, marker, next, limit - 1) then emit(limit - 1) else [])
  }

  /** The loop may resume at `offset`. */
  ghost predicate Passed(text: string, marker: string, next: nat -> nat, offset: nat) {
    forall q: nat :: q < offset && Visited(text, marker, next, q) ==> next(q) <= offset
  }

  /** What a pass has reported when it resumes at `offset`. */
  ghost predicate Scanned(
    text: string, marker: string, next: nat -> nat, emit: nat -> seq<Finding>, offset: nat, out: seq<Finding>)
  {
    Passed(text, marker, next, offset) && out == Emitted(text, marker, next, emit, offset)
  }

  lemma {:induction false} NothingVisited(
    text: string, marker: string, next: nat -> nat, emit: nat -> seq<Finding>, from: nat, to: nat)
    requires from <= to
    requires forall q: nat :: from <= q < to ==> !Visited(text, marker, next, q)
    ensures Emitted(text, marker, next, emit, to) == Emitted(text, marker, next, emit, from)
  {
    if from < to { NothingVisited(text, marker, next, emit, from, to - 1); }
  }

  /** One round: the next occurrence is visited, and nothing between it and the resume position is. */
  lemma Visit(
    text: string, marker: string, next: nat -> nat, emit: nat -> seq<Finding>, offset: nat, p: nat, out: seq<Finding>)
    requires Scanned(text, marker, next, emit, offset, out)
    requires offset <= p && OccursAt(text, marker, p) && p < next(p)
    requires forall q :: offset <= q < p ==> !OccursAt(text, marker, q)
    ensures Visited(text, marker, next, p)
    ensures Scanned(text, marker, next, emit, next(p), out + emit(p))
  {
    assert Visited(text, marker, next, p);
    NothingVisited(text, marker, next, emit, offset, p);
    NothingVisited(text, marker, next, emit, p + 1, next(p));
  }

  /** The pass ends when no occurrence is left. */
  lemma NoMore(
    text: string, marker: string, next: nat -> nat, emit: nat -> seq<Finding>, offset: nat, limit: nat,
    out: seq<Finding>)
    requires Scanned(text, marker, next, emit, offset, out) && offset <= limit
    requires forall q :: offset <= q ==> !OccursAt(text, marker, q)
    ensures out == Emitted(text, marker, next, emit, limit)
    ensures forall p: nat :: Visited(text, marker, next, p) ==> p < offset && next(p) <= offset
  {
    NothingVisited(text, marker, next, emit, offset, limit);
  }

  /** What is emitted comes from a visited occurrence. */
  lemma {:induction false} EmittedFrom(
    text: string, marker: string, next: nat -> nat, emit: nat -> seq<Finding>, limit: nat, f: Finding)
    ensures f in Emitted(text, marker, next, emit, limit) <==>
            exists p: nat :: p < limit && Visited(text, marker, next, p) && f in emit(p)
  {
    if limit > 0 { EmittedFrom(text, marker, next, emit, limit - 1, f); }
  }

  /** What each visited occurrence reports stays between it and the resume position. */
  ghost predicate Confined(text: string, marker: string, next: nat -> nat, emit: nat -> seq<Finding>) {
    forall p: nat :: Visited(text, marker, next, p) ==>
                       |emit(p)| <= 1 && forall f :: f in emit(p) ==> p <= f.start && f.end <= next(p)
  }

  /** The findings of one pass are in order and disjoint. */
  lemma {:induction false} EmittedDisjoint(
    text: string, marker: string, next: nat -> nat, emit: nat -> seq<Finding>, limit: nat)
    requires Confined(text, marker, next, emit)
    ensures Disjoint(Emitted(text, marker, next, emit, limit))
  {
    if limit > 0 {
      EmittedDisjoint(text, marker, next, emit, limit - 1);
      var p, before := limit - 1, Emitted(text, marker, next, emit, limit - 1);
      if Visited(text, marker, next, p) {
        forall f | f in before ensures f.end <= p {
          EmittedFrom(text, marker, next, emit, p, f);
        }
        assert forall i :: 0 <= i < |before| ==> before[i] in before;
        assert forall i :: 0 <= i < |emit(p)| ==> emit(p)[i] in emit(p);
      }
    }
  }

  /** What the positions before `limit` report, in order. */
  ghost function Gathered(emit: nat -> seq<Finding>, limit: nat): seq<Finding> {
    if limit == 0 then [] else Gathered(emit, limit - 1) + emit(limit - 1)
  }

  lemma {:induction false} GatheredFrom(emit: nat -> seq<Finding>, limit: nat, f: Finding)
    ensures f in Gathered(emit, limit) <==> exists p: nat :: p < limit && f in emit(p)
  {
    if limit > 0 { GatheredFrom(emit, limit - 1, f); }
  }

  lemma {:induction false} NothingGathered(emit: nat -> seq<Finding>, from: nat, to: nat)
    requires from <= to && forall p: nat :: from <= p < to ==> emit(p) == []
    ensures Gathered(emit, to) == Gathered(emit, from)
  {
    if from < to { NothingGathered(emit, from, to - 1); }
  }

  /** Where the characters of a class stop, from `p` on. */
  function RunEnd(text: string, p: nat, ok: char -> bool): (e: nat)
    requires p <= |text|
    ensures p <= e <= |text|
    ensures forall k :: p <= k < e ==> ok(text[k])
    ensures e < |text| ==> !ok(text[e])
    decreases |text| - p
  {
    if p < |text| && ok(text[p]) then RunEnd(text, p + 1, ok) else p
  }

  /** Positions of one run share its end. */
  lemma RunEndShared(text: string, q: nat, p: nat, ok: char -> bool)
    requires q <= p <= |text| && p <= RunEnd(text, q, ok)
    ensures RunEnd(text, p, ok) == RunEnd(text, q, ok)
  {
    RunEndIs(text, p, RunEnd(text, q, ok), ok);
  }

  lemma RunEndIs(text: string, p: nat, e: nat, ok: char -> bool)
    requires p <= e <= |text| && forall k :: p <= k < e ==> ok(text[k])
    requires e < |text| ==> !ok(text[e])
    ensures RunEnd(text, p, ok) == e
  {
    var r := RunEnd(text, p, ok);
    assert !(r < e) && !(e < r);
  }
}
