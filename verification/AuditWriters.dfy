/** Processes that append to one audit log through its lock file. */
module AuditWriters {
  import opened Basics
  import opened LockedFile
  import opened Audit

  datatype AppendCall<M> = AppendCall(action: string, resource: string, metadata: M)

  /** What a writer computes from the rows it read: one row more, which is also its answer. */
  function AppendOp<M>(hash: Hash<M>): Op<seq<Event<M>>, AppendCall<M>, Event<M>> {
    (now, rows, call: AppendCall<M>) =>
      var event := NextEvent(hash, rows, now, call.action, call.resource, call.metadata);
      (rows + [event], event)
  }

  /** Run one after another the writers keep the chain and add one row each. */
  lemma {:induction false} SequentialLog<M>(
    hash: Hash<M>, calls: seq<AppendCall<M>>, rows: seq<Event<M>>, order: seq<Commit>)
    requires forall i :: 0 <= i < |order| ==> order[i].pid < |calls|
    requires WellFormed(hash, rows)
    ensures var log := SequentialFile(AppendOp(hash), calls, rows, order);
            WellFormed(hash, log) && rows <= log && |log| == |rows| + |order|
    decreases order
  {
    if order != [] {
      var n := |order| - 1;
      SequentialLog(hash, calls, rows, order[..n]);
      var c := calls[order[n].pid];
      AppendKeepsChain(hash, SequentialFile(AppendOp(hash), calls, rows, order[..n]), order[n].now, c.action,
                       c.resource, c.metadata);
    }
  }

  /** The row of the call at place `i` is its answer, written from its own arguments and clock. */
  lemma {:induction false} SequentialRow<M>(
    hash: Hash<M>, calls: seq<AppendCall<M>>, rows: seq<Event<M>>, order: seq<Commit>, i: nat)
    requires forall j :: 0 <= j < |order| ==> order[j].pid < |calls|
    requires WellFormed(hash, rows) && i < |order|
    ensures |SequentialFile(AppendOp(hash), calls, rows, order)| == |rows| + |order|
    ensures var row := SequentialFile(AppendOp(hash), calls, rows, order)[|rows| + i];
            row == SequentialResult(AppendOp(hash), calls, rows, order, i)
            && IsRowOf(row, calls[order[i].pid], order[i].now)
    decreases order
  {
    var n := |order| - 1;
    SequentialLog(hash, calls, rows, order);
    SequentialLog(hash, calls, rows, order[..n]);
    if i < n {
      SequentialRow(hash, calls, rows, order[..n], i);
      assert order[..n][..i] == order[..i];
    }
  }

  predicate IsRowOf<M(==)>(event: Event<M>, call: AppendCall<M>, now: int) {
    && event.body.action == call.action && event.body.resource == call.resource
    && event.body.metadata == call.metadata && event.body.timestamp == now
  }

  /**
   In every interleaving of writers the log stays a chain that extends what was there, each
   committed call has exactly one new row, in the order of commit, and no row is anyone else's.
   */
  lemma WritersKeepChain<M>(
    hash: Hash<M>, calls: seq<AppendCall<M>>, clock: int, rows: seq<Event<M>>, schedule: seq<Action>)
    requires WellFormed(hash, rows)
    ensures var s := Run(AppendOp(hash), calls, Init(clock, rows, |calls|), schedule);
            && Ordered(|calls|, s.clock, s.order) && AnsweredAreCommitted(s)
            && WellFormed(hash, s.file) && rows <= s.file && |s.file| == |rows| + |s.order|
            && forall i :: 0 <= i < |s.order| ==>
                             && Answered(s.pcs[s.order[i].pid])
                             && s.file[|rows| + i] == Answer(s.pcs[s.order[i].pid])
                             && IsRowOf(s.file[|rows| + i], calls[s.order[i].pid], s.order[i].now)
                             && s.file[|rows| + i].body.sequence == |rows| + i + 1
  {
    var s := Run(AppendOp(hash), calls, Init(clock, rows, |calls|), schedule);
    Linearizable(AppendOp(hash), calls, clock, rows, schedule);
    SequentialLog(hash, calls, rows, s.order);
    forall i | 0 <= i < |s.order|
      ensures Answered(s.pcs[s.order[i].pid]) && s.file[|rows| + i] == Answer(s.pcs[s.order[i].pid])
      ensures IsRowOf(s.file[|rows| + i], calls[s.order[i].pid], s.order[i].now)
      ensures s.file[|rows| + i].body.sequence == |rows| + i + 1
    {
      assert RightAnswer(AppendOp(hash), calls, rows, s.pcs[s.order[i].pid], s.order, i);
      SequentialRow(hash, calls, rows, s.order, i);
      assert GoodRow(hash, s.file, |rows| + i);
    }
  }

  /** Whatever happens next, the rows already written stay. */
  lemma {:induction false} LogOnlyGrows<M>(
    hash: Hash<M>, calls: seq<AppendCall<M>>, s: System<seq<Event<M>>, Event<M>>, schedule: seq<Action>)
    requires |calls| == |s.pcs| && LockDiscipline(s)
    requires forall i :: 0 <= i < |s.order| ==> s.order[i].now <= s.clock
    ensures s.file <= Run(AppendOp(hash), calls, s, schedule).file
    decreases schedule
  {
    if schedule != [] {
      StepKeepsLock(AppendOp(hash), calls, s, schedule[0]);
      var t := Next(AppendOp(hash), calls, s, schedule[0]);
      CommitTimes(AppendOp(hash), calls, s, schedule[0]);
      LogOnlyGrows(hash, calls, t, schedule[1..]);
    }
  }

  lemma CommitTimes<F, C, R>(op: Op<F, C, R>, calls: seq<C>, s: System<F, R>, action: Action)
    requires |calls| == |s.pcs| && LockDiscipline(s)
    requires forall i :: 0 <= i < |s.order| ==> s.order[i].now <= s.clock
    ensures var t := Next(op, calls, s, action); forall i :: 0 <= i < |t.order| ==> t.order[i].now <= t.clock
  {}
}
