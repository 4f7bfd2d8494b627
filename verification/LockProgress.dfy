/** The lock blocks nobody for good: whatever happened before, every call can still be finished. */
module LockProgress {
  import opened Basics
  import opened LockedFile

  /** How many steps a process still has to take. */
  function Left<F, R>(pc: Pc<F, R>): nat {
    match pc
    case Idle => 4
    case Locked => 3
    case HasRead(_, _) => 2
    case HasWritten(_) => 1
    case Finished(_) => 0
  }

  function Remaining<F, R>(pcs: seq<Pc<F, R>>): nat {
    if pcs == [] then 0 else Remaining(pcs[..|pcs| - 1]) + Left(pcs[|pcs| - 1])
  }

  lemma {:induction false} RemainingUpdate<F, R>(pcs: seq<Pc<F, R>>, p: nat, pc: Pc<F, R>)
    requires p < |pcs|
    ensures Remaining(pcs[p := pc]) + Left(pcs[p]) == Remaining(pcs) + Left(pc)
    decreases pcs
  {
    var n := |pcs| - 1;
    if p == n {
      assert pcs[p := pc][..n] == pcs[..n];
    } else {
      RemainingUpdate(pcs[..n], p, pc);
      assert pcs[p := pc][..n] == pcs[..n][p := pc];
    }
  }

  lemma {:induction false} SomeoneUnfinished<F, R>(pcs: seq<Pc<F, R>>) returns (p: nat)
    requires Remaining(pcs) > 0
    ensures p < |pcs| && !pcs[p].Finished?
    decreases pcs
  {
    var n := |pcs| - 1;
    if pcs[n].Finished? { p := SomeoneUnfinished(pcs[..n]); } else { p := n; }
  }

  lemma {:induction false} NobodyUnfinished<F, R>(pcs: seq<Pc<F, R>>, p: nat)
    requires Remaining(pcs) == 0 && p < |pcs|
    ensures pcs[p].Finished?
    decreases pcs
  {
    if p < |pcs| - 1 { NobodyUnfinished(pcs[..|pcs| - 1], p); }
  }

  /** The process is not finished, and waits for no other. */
  predicate CanMove<F, R>(s: System<F, R>, p: nat) {
    p < |s.pcs| && !s.pcs[p].Finished? && (s.holder == None || s.holder == Some(p))
  }

  ghost predicate Timed<F, R>(s: System<F, R>) {
    LockDiscipline(s) && forall i :: 0 <= i < |s.order| ==> s.order[i].now <= s.clock
  }

  lemma NextStaysTimed<F, C, R>(op: Op<F, C, R>, calls: seq<C>, s: System<F, R>, action: Action)
    requires |calls| == |s.pcs| && Timed(s)
    ensures Timed(Next(op, calls, s, action))
  {
    StepKeepsLock(op, calls, s, action);
  }

  /** A step of a process that can move brings it one step on; a step of any other changes nothing. */
  lemma StepCounts<F, C, R>(op: Op<F, C, R>, calls: seq<C>, s: System<F, R>, p: nat)
    requires |calls| == |s.pcs| && LockDiscipline(s)
    ensures
      var t := Next(op, calls, s, Step(p));
      if CanMove(s, p) then Remaining(t.pcs) == Remaining(s.pcs) - 1 else t == s
  {
    if p < |s.pcs| { RemainingUpdate(s.pcs, p, Next(op, calls, s, Step(p)).pcs[p]); }
  }

  /** While a call is unfinished, some process can move. */
  lemma NoDeadlock<F, R>(s: System<F, R>) returns (p: nat)
    requires LockDiscipline(s) && Remaining(s.pcs) > 0
    ensures CanMove(s, p)
  {
    if s.holder.Some? {
      p := s.holder.value;
      assert HoldsLock(s.pcs[p]);
    } else {
      p := SomeoneUnfinished(s.pcs);
    }
  }

  function Moves<F, C, R>(op: Op<F, C, R>, calls: seq<C>, s: System<F, R>, schedule: seq<Action>): nat
    requires |calls| == |s.pcs|
    decreases schedule
  {
    if schedule == [] then 0
    else
      (if schedule[0].Step? && CanMove(s, schedule[0].pid) then 1 else 0)
      + Moves(op, calls, Next(op, calls, s, schedule[0]), schedule[1..])
  }

  /** In every schedule exactly the steps of processes that can move count, and all calls together need no more. */
  lemma {:induction false} MovesCount<F, C, R>(
    op: Op<F, C, R>, calls: seq<C>, s: System<F, R>, schedule: seq<Action>)
    requires |calls| == |s.pcs| && Timed(s)
    ensures Moves(op, calls, s, schedule) + Remaining(Run(op, calls, s, schedule).pcs) == Remaining(s.pcs)
    decreases schedule
  {
    if schedule != [] {
      if schedule[0].Step? { StepCounts(op, calls, s, schedule[0].pid); }
      NextStaysTimed(op, calls, s, schedule[0]);
      MovesCount(op, calls, Next(op, calls, s, schedule[0]), schedule[1..]);
    }
  }

  lemma {:induction false} RunStaysTimed<F, C, R>(
    op: Op<F, C, R>, calls: seq<C>, s: System<F, R>, schedule: seq<Action>)
    requires |calls| == |s.pcs| && Timed(s)
    ensures Timed(Run(op, calls, s, schedule))
    decreases schedule
  {
    if schedule != [] {
      NextStaysTimed(op, calls, s, schedule[0]);
      RunStaysTimed(op, calls, Next(op, calls, s, schedule[0]), schedule[1..]);
    }
  }

  ghost predicate AllFinished<F, R>(s: System<F, R>) {
    forall p :: 0 <= p < |s.pcs| ==> s.pcs[p].Finished?
  }

  lemma {:induction false} FinishFrom<F, C, R>(op: Op<F, C, R>, calls: seq<C>, s: System<F, R>)
    returns (schedule: seq<Action>)
    requires |calls| == |s.pcs| && Timed(s)
    ensures AllFinished(Run(op, calls, s, schedule)) && |schedule| == Remaining(s.pcs)
    decreases Remaining(s.pcs)
  {
    schedule := [];
    if Remaining(s.pcs) > 0 {
      var p := NoDeadlock(s);
      StepCounts(op, calls, s, p);
      NextStaysTimed(op, calls, s, Step(p));
      var later := FinishFrom(op, calls, Next(op, calls, s, Step(p)));
      schedule := [Step(p)] + later;
      assert schedule[1..] == later;
    } else {
      forall p: nat | p < |s.pcs| ensures s.pcs[p].Finished? { NobodyUnfinished(s.pcs, p); }
    }
  }

  /**
   However the processes were interleaved so far, there is no deadlock: some continuation answers every call, in
   as many steps as are left.
   */
  lemma {:induction false} EveryCallCanFinish<F, C, R>(
    op: Op<F, C, R>, calls: seq<C>, clock: int, file: F, schedule: seq<Action>) returns (more: seq<Action>)
    ensures
      var s := Run(op, calls, Init(clock, file, |calls|), schedule);
      |more| == Remaining(s.pcs) && AllFinished(Run(op, calls, s, more))
  {
    RunStaysTimed(op, calls, Init<F, R>(clock, file, |calls|), schedule);
    more := FinishFrom(op, calls, Run(op, calls, Init(clock, file, |calls|), schedule));
  }
}
