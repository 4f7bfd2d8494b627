/**
 Processes that share one file through an exclusive lock. Each process makes one call:
 take the lock, read the clock and the file, write the file, release the lock. The
 steps of different processes interleave freely and time passes in between.

 `FileUsageStore::record_use`, `FileReplayStore::check_and_store` and `AuditLog::append`
 are all of this shape; `op` is what one of them computes from the file it has read.
 */
module LockedFile {
  import opened Basics

  /** From the clock, the file and the call: the file to leave behind, and the answer. */
  type Op<!F, !C, !R> = (int, F, C) -> (F, R)

  datatype Pc<F, R> =
    | Idle
    | Locked
    | HasRead(now: int, snapshot: F)
    | HasWritten(result: R)
    | Finished(answer: R)

  /** A call that took effect: which process, and the clock it had read. */
  datatype Commit = Commit(pid: nat, now: int)

  /** `order` is a history variable: the calls in the order of their writes. */
  datatype System<F, R> = System(clock: int, file: F, holder: Option<nat>, pcs: seq<Pc<F, R>>, order: seq<Commit>)

  datatype Action = Tick(elapsed: nat) | Step(pid: nat)

  function Init<F, R>(clock: int, file: F, processes: nat): System<F, R> {
    System(clock, file, None, seq(processes, i requires 0 <= i < processes => Idle), [])
  }

  /** One action; a process that waits for the lock, or is finished, stands still. */
  function Next<F, C, R>(op: Op<F, C, R>, calls: seq<C>, s: System<F, R>, action: Action): (t: System<F, R>)
    requires |calls| == |s.pcs|
    ensures |t.pcs| == |s.pcs|
  {
    match action
    case Tick(elapsed) => s.(clock := s.clock + elapsed)
    case Step(p) =>
      if p >= |s.pcs| then s else
      match s.pcs[p]
      case Idle => if s.holder.None? then s.(holder := Some(p), pcs := s.pcs[p := Locked]) else s
      case Locked => s.(pcs := s.pcs[p := HasRead(s.clock, s.file)])
      case HasRead(now, snapshot) =>
        var (written, result) := op(now, snapshot, calls[p]);
        s.(file := written, pcs := s.pcs[p := HasWritten(result)], order := s.order + [Commit(p, now)])
      case HasWritten(result) => s.(holder := None, pcs := s.pcs[p := Finished(result)])
      case Finished(_) => s
  }

  function Run<F, C, R>(op: Op<F, C, R>, calls: seq<C>, s: System<F, R>, schedule: seq<Action>): (t: System<F, R>)
    requires |calls| == |s.pcs|
    ensures |t.pcs| == |s.pcs|
    decreases schedule
  {
    if schedule == [] then s else Run(op, calls, Next(op, calls, s, schedule[0]), schedule[1..])
  }

  /** The file after the committed calls run one after another, with nothing in between. */
  function SequentialFile<F, C, R>(op: Op<F, C, R>, calls: seq<C>, file: F, order: seq<Commit>): F
    requires forall i :: 0 <= i < |order| ==> order[i].pid < |calls|
  {
    if order == [] then file
    else
      var last := order[|order| - 1];
      op(last.now, SequentialFile(op, calls, file, order[..|order| - 1]), calls[last.pid]).0
  }

  /** The answer of the `i`-th call of that sequential run. */
  function SequentialResult<F, C, R>(op: Op<F, C, R>, calls: seq<C>, file: F, order: seq<Commit>, i: nat): R
    requires forall j :: 0 <= j < |order| ==> order[j].pid < |calls|
    requires i < |order|
  {
    op(order[i].now, SequentialFile(op, calls, file, order[..i]), calls[order[i].pid]).1
  }

  predicate Answered<F, R>(pc: Pc<F, R>) { pc.HasWritten? || pc.Finished? }

  function Answer<F, R>(pc: Pc<F, R>): R
    requires Answered(pc)
  {
    if pc.HasWritten? then pc.result else pc.answer
  }

  predicate HoldsLock<F, R>(pc: Pc<F, R>) { pc.Locked? || pc.HasRead? || pc.HasWritten? }

  /** Mutual exclusion, and that a snapshot taken under the lock stays current. */
  ghost predicate LockDiscipline<F, R>(s: System<F, R>) {
    && (forall p :: 0 <= p < |s.pcs| ==> (HoldsLock(s.pcs[p]) <==> s.holder == Some(p)))
    && (s.holder.Some? ==> s.holder.value < |s.pcs|)
    && (forall p :: 0 <= p < |s.pcs| && s.pcs[p].HasRead? ==> s.pcs[p].snapshot == s.file && s.pcs[p].now <= s.clock)
    && (forall p :: 0 <= p < |s.pcs| && s.pcs[p].HasRead? ==>
                      forall i :: 0 <= i < |s.order| ==> s.order[i].now <= s.pcs[p].now)
  }

  /** Each process commits at most once, at nondecreasing times not after the clock. */
  ghost predicate Ordered(processes: nat, clock: int, order: seq<Commit>) {
    && (forall i :: 0 <= i < |order| ==> order[i].pid < processes && order[i].now <= clock)
    && (forall i, j :: 0 <= i < j < |order| ==> order[i].pid != order[j].pid && order[i].now <= order[j].now)
  }

  ghost predicate Committed(order: seq<Commit>, p: nat) {
    exists i :: 0 <= i < |order| && order[i].pid == p
  }

  /** Exactly the answered calls are in the history. */
  ghost predicate AnsweredAreCommitted<F, R>(s: System<F, R>) {
    forall p :: 0 <= p < |s.pcs| ==> (Answered(s.pcs[p]) <==> Committed(s.order, p))
  }

  /** This process has the answer that the sequential run gives at place `i`. */
  ghost predicate RightAnswer<F, C, R>(
    op: Op<F, C, R>, calls: seq<C>, file: F, pc: Pc<F, R>, order: seq<Commit>, i: nat)
    requires i < |order| && forall j :: 0 <= j < |order| ==> order[j].pid < |calls|
  {
    Answered(pc) && Answer(pc) == SequentialResult(op, calls, file, order, i)
  }

  ghost predicate SequentialAnswers<F, C, R>(
    op: Op<F, C, R>, calls: seq<C>, file: F, pcs: seq<Pc<F, R>>, order: seq<Commit>)
    requires |calls| == |pcs| && forall j :: 0 <= j < |order| ==> order[j].pid < |calls|
  {
    forall i :: 0 <= i < |order| ==> RightAnswer(op, calls, file, pcs[order[i].pid], order, i)
  }

  /** The history is a sequential order of exactly the answered calls, with their answers and the file they left. */
  ghost predicate Linearized<F, C, R>(op: Op<F, C, R>, calls: seq<C>, file: F, s: System<F, R>)
    requires |calls| == |s.pcs|
  {
    && Ordered(|s.pcs|, s.clock, s.order)
    && AnsweredAreCommitted(s)
    && SequentialAnswers(op, calls, file, s.pcs, s.order)
    && s.file == SequentialFile(op, calls, file, s.order)
  }

  lemma StepKeepsLock<F, C, R>(op: Op<F, C, R>, calls: seq<C>, s: System<F, R>, action: Action)
    requires |calls| == |s.pcs| && LockDiscipline(s)
    requires forall i :: 0 <= i < |s.order| ==> s.order[i].now <= s.clock
    ensures LockDiscipline(Next(op, calls, s, action))
  {}

  lemma StepKeepsOrder<F, C, R>(op: Op<F, C, R>, calls: seq<C>, file: F, s: System<F, R>, action: Action)
    requires |calls| == |s.pcs| && LockDiscipline(s) && Linearized(op, calls, file, s)
    ensures Linearized(op, calls, file, Next(op, calls, s, action))
  {
    if action.Step? && action.pid < |s.pcs| && s.pcs[action.pid].HasRead? {
      CommitKeepsOrder(op, calls, file, s, action.pid);
    } else {
      QuietStep(op, calls, s, action);
      QuietStepKeepsOrder(op, calls, file, s, Next(op, calls, s, action));
    }
  }

  /** A step that commits nothing leaves answered calls alone and answers no other. */
  lemma QuietStep<F, C, R>(op: Op<F, C, R>, calls: seq<C>, s: System<F, R>, action: Action)
    requires |calls| == |s.pcs|
    requires action.Step? && action.pid < |s.pcs| ==> !s.pcs[action.pid].HasRead?
    ensures var t := Next(op, calls, s, action);
            && t.order == s.order && t.file == s.file && s.clock <= t.clock
            && (forall p :: 0 <= p < |s.pcs| ==> (Answered(t.pcs[p]) <==> Answered(s.pcs[p])))
            && (forall p :: 0 <= p < |s.pcs| && Answered(s.pcs[p]) ==> Answer(t.pcs[p]) == Answer(s.pcs[p]))
  {}

  lemma QuietStepKeepsOrder<F, C, R>(op: Op<F, C, R>, calls: seq<C>, file: F, s: System<F, R>, t: System<F, R>)
    requires |calls| == |s.pcs| == |t.pcs| && Linearized(op, calls, file, s)
    requires t.order == s.order && t.file == s.file && s.clock <= t.clock
    requires forall p :: 0 <= p < |s.pcs| ==> (Answered(t.pcs[p]) <==> Answered(s.pcs[p]))
    requires forall p :: 0 <= p < |s.pcs| && Answered(s.pcs[p]) ==> Answer(t.pcs[p]) == Answer(s.pcs[p])
    ensures Linearized(op, calls, file, t)
  {
    forall i | 0 <= i < |t.order|
      ensures RightAnswer(op, calls, file, t.pcs[t.order[i].pid], t.order, i)
    {
      assert RightAnswer(op, calls, file, s.pcs[s.order[i].pid], s.order, i);
    }
  }

  /** What comes after place `i` does not matter to its answer. */
  lemma AnswerFixed<F, C, R>(op: Op<F, C, R>, calls: seq<C>, file: F, order: seq<Commit>, last: Commit, i: nat)
    requires last.pid < |calls| && forall j :: 0 <= j < |order| ==> order[j].pid < |calls|
    requires i < |order|
    ensures SequentialResult(op, calls, file, order + [last], i) == SequentialResult(op, calls, file, order, i)
  {
    assert (order + [last])[..i] == order[..i];
  }

  lemma LastAnswer<F, C, R>(op: Op<F, C, R>, calls: seq<C>, file: F, order: seq<Commit>, last: Commit)
    requires last.pid < |calls| && forall j :: 0 <= j < |order| ==> order[j].pid < |calls|
    ensures var done := op(last.now, SequentialFile(op, calls, file, order), calls[last.pid]);
            && SequentialFile(op, calls, file, order + [last]) == done.0
            && SequentialResult(op, calls, file, order + [last], |order|) == done.1
  {
    assert (order + [last])[..|order|] == order;
  }

  lemma CommitKeepsOrder<F, C, R>(op: Op<F, C, R>, calls: seq<C>, file: F, s: System<F, R>, p: nat)
    requires |calls| == |s.pcs| && LockDiscipline(s) && Linearized(op, calls, file, s)
    requires p < |s.pcs| && s.pcs[p].HasRead?
    ensures Linearized(op, calls, file, Next(op, calls, s, Step(p)))
  {
    var t := Next(op, calls, s, Step(p));
    var last := Commit(p, s.pcs[p].now);
    LastAnswer(op, calls, file, s.order, last);
    assert !Committed(s.order, p) by { assert !Answered(s.pcs[p]); }
    CommitOrdered(|s.pcs|, s.clock, s.order, last);
    forall q | 0 <= q < |t.pcs| ensures Answered(t.pcs[q]) <==> Committed(t.order, q) {
      CommittedGrows(s.order, last, q);
    }
    CommitAnswers(op, calls, file, s.pcs, s.order, last, t.pcs[p]);
  }

  lemma CommitOrdered(processes: nat, clock: int, order: seq<Commit>, last: Commit)
    requires Ordered(processes, clock, order) && !Committed(order, last.pid)
    requires last.pid < processes && last.now <= clock
    requires forall i :: 0 <= i < |order| ==> order[i].now <= last.now
    ensures Ordered(processes, clock, order + [last])
  {}

  lemma CommitAnswers<F, C, R>(
    op: Op<F, C, R>, calls: seq<C>, file: F, pcs: seq<Pc<F, R>>, order: seq<Commit>, last: Commit, pc: Pc<F, R>)
    requires |calls| == |pcs| && last.pid < |calls| && forall j :: 0 <= j < |order| ==> order[j].pid < |calls|
    requires SequentialAnswers(op, calls, file, pcs, order) && !Committed(order, last.pid)
    requires Answered(pc) && Answer(pc) == SequentialResult(op, calls, file, order + [last], |order|)
    ensures SequentialAnswers(op, calls, file, pcs[last.pid := pc], order + [last])
  {
    var longer := order + [last];
    forall i | 0 <= i < |longer|
      ensures RightAnswer(op, calls, file, pcs[last.pid := pc][longer[i].pid], longer, i)
    {
      if i < |order| {
        assert RightAnswer(op, calls, file, pcs[order[i].pid], order, i);
        AnswerFixed(op, calls, file, order, last, i);
      }
    }
  }

  lemma CommittedGrows(order: seq<Commit>, last: Commit, q: nat)
    ensures Committed(order + [last], q) <==> Committed(order, q) || q == last.pid
  {
    var longer := order + [last];
    assert longer[|order|] == last;
    if Committed(order, q) {
      var i :| 0 <= i < |order| && order[i].pid == q;
      assert longer[i].pid == q;
    }
  }

  /** The history only grows: a call that took effect keeps its place before all later ones. */
  lemma {:induction false} HistoryGrows<F, C, R>(op: Op<F, C, R>, calls: seq<C>, s: System<F, R>, schedule: seq<Action>)
    requires |calls| == |s.pcs|
    ensures s.order <= Run(op, calls, s, schedule).order
    ensures s.clock <= Run(op, calls, s, schedule).clock
    decreases schedule
  {
    if schedule != [] {
      HistoryGrows(op, calls, Next(op, calls, s, schedule[0]), schedule[1..]);
    }
  }

  lemma {:induction false} RunKeepsInvariant<F, C, R>(
    op: Op<F, C, R>, calls: seq<C>, file: F, s: System<F, R>, schedule: seq<Action>)
    requires |calls| == |s.pcs| && LockDiscipline(s) && Linearized(op, calls, file, s)
    ensures LockDiscipline(Run(op, calls, s, schedule)) && Linearized(op, calls, file, Run(op, calls, s, schedule))
    decreases schedule
  {
    if schedule != [] {
      StepKeepsLock(op, calls, s, schedule[0]);
      StepKeepsOrder(op, calls, file, s, schedule[0]);
      RunKeepsInvariant(op, calls, file, Next(op, calls, s, schedule[0]), schedule[1..]);
    }
  }

  /**
   Every interleaving has a sequential order with the same answers and the same file:
   the calls that have answered, in the order of their writes, at nondecreasing times.
   */
  lemma Linearizable<F, C, R>(op: Op<F, C, R>, calls: seq<C>, clock: int, file: F, schedule: seq<Action>)
    ensures var s := Run(op, calls, Init(clock, file, |calls|), schedule);
            LockDiscipline(s) && Linearized(op, calls, file, s) && clock <= s.clock
            && forall i :: 0 <= i < |s.order| ==> clock <= s.order[i].now
  {
    var s0 := Init<F, R>(clock, file, |calls|);
    RunKeepsInvariant(op, calls, file, s0, schedule);
    HistoryGrows(op, calls, s0, schedule);
    CommitsAfterStart(op, calls, s0, clock, schedule);
  }

  ghost predicate NotBefore<F, R>(s: System<F, R>, start: int) {
    && start <= s.clock
    && (forall i :: 0 <= i < |s.order| ==> start <= s.order[i].now)
    && (forall p :: 0 <= p < |s.pcs| && s.pcs[p].HasRead? ==> start <= s.pcs[p].now)
  }

  lemma {:induction false} CommitsAfterStart<F, C, R>(
    op: Op<F, C, R>, calls: seq<C>, s: System<F, R>, start: int, schedule: seq<Action>)
    requires |calls| == |s.pcs| && NotBefore(s, start)
    ensures NotBefore(Run(op, calls, s, schedule), start)
    decreases schedule
  {
    if schedule != [] {
      CommitsAfterStart(op, calls, Next(op, calls, s, schedule[0]), start, schedule[1..]);
    }
  }
}
