/** The usage stores of the relay: the in-memory one, the file one, and that they agree. */
module Usage {
  import opened Basics
  import opened LockedFile

  datatype UsageError = UsageLimitExceeded

  type Uses = map<string, U64>

  function Current(uses: Uses, capability: string): U64 {
    if capability in uses then uses[capability] else 0
  }

  predicate Exhausted(current: U64, maxUses: Option<U64>) {
    maxUses.Some? && current >= maxUses.value
  }

  /** `record_use` as one atomic step; the counter is a `u64` that wraps in release builds. */
  function RecordUse(uses: Uses, capability: string, maxUses: Option<U64>): (Uses, Result<U64, UsageError>) {
    var current := Current(uses, capability);
    if Exhausted(current, maxUses) then (uses, Err(UsageLimitExceeded))
    else
      var next := (current + 1) % TWO_TO_64;
      (uses[capability := next], Ok(next))
  }

  class InMemoryUsageStore {
    var inner: Uses

    constructor ()
      ensures inner == map[]
    {
      inner := map[];
    }

    method Record(capability: string, maxUses: Option<U64>) returns (r: Result<U64, UsageError>)
      modifies this
      ensures (inner, r) == RecordUse(old(inner), capability, maxUses)
      ensures r.Ok? && maxUses.Some? ==>
                Current(inner, capability) == Current(old(inner), capability) + 1 <= maxUses.value
      ensures forall other :: other != capability ==> Current(inner, other) == Current(old(inner), other)
    {
      var current := if capability in inner then inner[capability] else 0;
      if maxUses.Some? {
        if current >= maxUses.value {
          return Err(UsageLimitExceeded);
        }
      }
      var next := (current + 1) % TWO_TO_64;
      inner := inner[capability := next];
      return Ok(next);
    }
  }

  /** The file: absent until the first accepted use. */
  type UsageFile = Option<Uses>

  function Load(file: UsageFile): Uses {
    if file.Some? then file.value else map[]
  }

  class FileUsageStore {
    var file: UsageFile

    constructor (file: UsageFile)
      ensures this.file == file
    {
      this.file := file;
    }

    /** The body between taking and releasing the lock. */
    method Record(capability: string, maxUses: Option<U64>) returns (r: Result<U64, UsageError>)
      modifies this
      ensures (file, r) == FileOp(0, old(file), UseCall(capability, maxUses))
      ensures (Load(file), r) == RecordUse(Load(old(file)), capability, maxUses)
      ensures r.Err? ==> file == old(file)
    {
      var uses := Load(file);
      var current := if capability in uses then uses[capability] else 0;
      if maxUses.Some? {
        if current >= maxUses.value {
          return Err(UsageLimitExceeded);
        }
      }
      var next := (current + 1) % TWO_TO_64;
      file := Some(uses[capability := next]);
      return Ok(next);
    }
  }

  datatype UseCall = UseCall(capability: string, maxUses: Option<U64>)

  /** What a process of the file store computes from the file it read. */
  function FileOp(now: int, file: UsageFile, call: UseCall): (UsageFile, Result<U64, UsageError>) {
    var (uses, result) := RecordUse(Load(file), call.capability, call.maxUses);
    (if result.Ok? then Some(uses) else file, result)
  }

  function MemoryOp(now: int, uses: Uses, call: UseCall): (Uses, Result<U64, UsageError>) {
    RecordUse(uses, call.capability, call.maxUses)
  }

  /** Run one after another, the two stores answer alike and hold the same counts. */
  lemma {:induction false} FileIsMemory(calls: seq<UseCall>, file: UsageFile, order: seq<Commit>)
    requires forall i :: 0 <= i < |order| ==> order[i].pid < |calls|
    ensures Load(SequentialFile(FileOp, calls, file, order)) == SequentialFile(MemoryOp, calls, Load(file), order)
    ensures forall i :: 0 <= i < |order| ==>
                          SequentialResult(FileOp, calls, file, order, i)
                          == SequentialResult(MemoryOp, calls, Load(file), order, i)
    decreases order
  {
    if order != [] {
      var n := |order| - 1;
      FileIsMemory(calls, file, order[..n]);
      forall i | 0 <= i < |order|
        ensures SequentialResult(FileOp, calls, file, order, i)
             == SequentialResult(MemoryOp, calls, Load(file), order, i)
      {
        if i < n {
          assert order[..n][..i] == order[..i];
          assert SequentialResult(FileOp, calls, file, order[..n], i)
              == SequentialResult(MemoryOp, calls, Load(file), order[..n], i);
        }
      }
    }
  }

  /**
   Every interleaving of file-store processes at their lock, read, write and unlock steps
   answers as the atomic in-memory store does on the same calls in the order of commit.
   */
  lemma FileLinearisesToMemory(calls: seq<UseCall>, clock: int, file: UsageFile, schedule: seq<Action>)
    ensures var s := Run(FileOp, calls, Init(clock, file, |calls|), schedule);
            && Ordered(|calls|, s.clock, s.order) && AnsweredAreCommitted(s)
            && SequentialAnswers(MemoryOp, calls, Load(file), AsMemory(s.pcs), s.order)
            && Load(s.file) == SequentialFile(MemoryOp, calls, Load(file), s.order)
  {
    Linearizable(FileOp, calls, clock, file, schedule);
    var s := Run(FileOp, calls, Init(clock, file, |calls|), schedule);
    FileIsMemory(calls, file, s.order);
    forall i | 0 <= i < |s.order|
      ensures RightAnswer(MemoryOp, calls, Load(file), AsMemory(s.pcs)[s.order[i].pid], s.order, i)
    {
      assert RightAnswer(FileOp, calls, file, s.pcs[s.order[i].pid], s.order, i);
    }
  }

  /** The process states with file snapshots read as in-memory ones. */
  function AsMemory<R>(pcs: seq<Pc<UsageFile, R>>): (r: seq<Pc<Uses, R>>)
    ensures |r| == |pcs|
    ensures forall p :: 0 <= p < |pcs| ==> (Answered(r[p]) <==> Answered(pcs[p]))
    ensures forall p :: 0 <= p < |pcs| && Answered(pcs[p]) ==> Answer(r[p]) == Answer(pcs[p])
  {
    seq(|pcs|, p requires 0 <= p < |pcs| =>
      match pcs[p]
      case Idle => Idle
      case Locked => Locked
      case HasRead(now, snapshot) => HasRead(now, Load(snapshot))
      case HasWritten(r) => HasWritten(r)
      case Finished(r) => Finished(r))
  }

  /** How many of the committed calls are for one capability. */
  function CallsFor(calls: seq<UseCall>, order: seq<Commit>, capability: string): nat
    requires forall i :: 0 <= i < |order| ==> order[i].pid < |calls|
  {
    if order == [] then 0
    else CallsFor(calls, order[..|order| - 1], capability)
         + if calls[order[|order| - 1].pid].capability == capability then 1 else 0
  }

  ghost predicate SameMaximum(calls: seq<UseCall>, capability: string, max: U64) {
    forall p :: 0 <= p < |calls| && calls[p].capability == capability ==> calls[p].maxUses == Some(max)
  }

  /** With one maximum for a capability its counter runs up to the maximum and stays there. */
  lemma {:induction false} CounterStopsAtMax(
    calls: seq<UseCall>, uses: Uses, order: seq<Commit>, capability: string, max: U64)
    requires forall i :: 0 <= i < |order| ==> order[i].pid < |calls|
    requires SameMaximum(calls, capability, max) && Current(uses, capability) <= max
    ensures var reached := Current(uses, capability) + CallsFor(calls, order, capability);
            Current(SequentialFile(MemoryOp, calls, uses, order), capability) == if reached <= max then reached else max
    decreases order
  {
    if order != [] {
      CounterStopsAtMax(calls, uses, order[..|order| - 1], capability, max);
    }
  }

  /** The answer due to a call for `capability` that commits at place `i`. */
  function DueAnswer(
    calls: seq<UseCall>, uses: Uses, order: seq<Commit>, i: nat, capability: string, max: U64)
    : Result<U64, UsageError>
    requires forall j :: 0 <= j < |order| ==> order[j].pid < |calls|
    requires i < |order|
  {
    var before := Current(uses, capability) + CallsFor(calls, order[..i], capability);
    if before < max then Ok(before + 1) else Err(UsageLimitExceeded)
  }

  lemma SequentialDueAnswer(calls: seq<UseCall>, uses: Uses, order: seq<Commit>, i: nat, capability: string, max: U64)
    requires forall j :: 0 <= j < |order| ==> order[j].pid < |calls|
    requires SameMaximum(calls, capability, max) && Current(uses, capability) <= max
    requires i < |order| && calls[order[i].pid].capability == capability
    ensures SequentialResult(MemoryOp, calls, uses, order, i) == DueAnswer(calls, uses, order, i, capability, max)
  {
    CounterStopsAtMax(calls, uses, order[..i], capability, max);
  }

  /**
   Exactly as many uses as the maximum leaves room for, under any interleaving: the call
   that commits after `k` others for its capability is accepted if and only if `k` uses
   on top of the earlier ones are below the maximum, and it is told its own number.
   */
  lemma UsesExactlyUpToMax(
    calls: seq<UseCall>, clock: int, file: UsageFile, schedule: seq<Action>, capability: string, max: U64)
    requires SameMaximum(calls, capability, max) && Current(Load(file), capability) <= max
    ensures var s := Run(FileOp, calls, Init(clock, file, |calls|), schedule);
            && Ordered(|calls|, s.clock, s.order)
            && forall i :: 0 <= i < |s.order| && calls[s.order[i].pid].capability == capability ==>
                             && Answered(s.pcs[s.order[i].pid])
                             && var due := DueAnswer(calls, Load(file), s.order, i, capability, max);
                             Answer(s.pcs[s.order[i].pid]) == due
  {
    var s := Run(FileOp, calls, Init(clock, file, |calls|), schedule);
    FileLinearisesToMemory(calls, clock, file, schedule);
    forall i | 0 <= i < |s.order| && calls[s.order[i].pid].capability == capability
      ensures Answered(s.pcs[s.order[i].pid])
      ensures Answer(s.pcs[s.order[i].pid]) == DueAnswer(calls, Load(file), s.order, i, capability, max)
    {
      assert RightAnswer(MemoryOp, calls, Load(file), AsMemory(s.pcs)[s.order[i].pid], s.order, i);
      SequentialDueAnswer(calls, Load(file), s.order, i, capability, max);
    }
  }
}
