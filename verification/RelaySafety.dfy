/** What every run of the relay keeps, and what it lets through. */
module RelaySafety {
  import opened Basics
  import opened Policy
  import opened Audit
  import opened Tallies
  import opened Relay
  import Replay
  import Usage

  // ---------- one process ----------

  /** What a process has passed, from its request alone. */
  ghost predicate Cleared(env: Env, req: Request, q: Proc) {
    && q.reached <= RESPONDED
    && (q.local.Some? <==> q.reached >= VERIFIED)
    && (q.local.Some? ==> VerifyStage(env, req, q.verifiedAt, {}, {q.local.value.claims.key}) == Ok(q.local.value))
    && (q.reached >= CHECKED ==> PolicyStage(env, req, q.local.value.claims).None?)
    && (q.reached >= RESOLVED ==> AddressesUsable(q.addresses))
    && (q.status.Running? ==> q.reached < RESPONDED)
  }

  ghost predicate Timely(clock: int, q: Proc) {
    && (q.reached >= VERIFIED ==> q.verifiedAt <= clock)
    && (q.reached >= PASSED ==> q.verifiedAt <= q.replayedAt <= clock)
  }

  ghost predicate AllCleared(env: Env, requests: seq<Request>, s: State)
    requires |s.procs| == |requests|
  {
    forall p :: 0 <= p < |s.procs| ==> Cleared(env, requests[p], s.procs[p]) && Timely(s.clock, s.procs[p])
  }

  /** A token that verifies against some revocations and keys verifies without the revocations. */
  lemma VerifyNeedsOnlyItsKey(env: Env, req: Request, now: int, revoked: set<string>, keys: set<string>)
    requires VerifyStage(env, req, now, revoked, keys).Ok?
    ensures var l := VerifyStage(env, req, now, revoked, keys).value;
            VerifyStage(env, req, now, {}, {l.claims.key}) == Ok(l)
  {}

  lemma LocalIsDecoded(env: Env, req: Request, q: Proc)
    requires Cleared(env, req, q) && q.local.Some?
    ensures env.decode(req.capability) == Some(q.local.value.claims)
    ensures NeedsProof(q.local.value.claims) <==> q.local.value.payload.Some?
  {}

  /** One move leaves the other processes alone and takes its own at most one stage further. */
  ghost predicate Moved(s: State, t: State, p: nat)
    requires p < |s.procs|
  {
    && t.clock == s.clock && t.revoked == s.revoked && t.keys == s.keys
    && |t.procs| == |s.procs| && t.procs == s.procs[p := t.procs[p]]
    && (t.procs[p].reached == s.procs[p].reached || t.procs[p].reached == s.procs[p].reached + 1)
    && (t.procs[p].reached > s.procs[p].reached ==> s.procs[p].status.Running?)
    && (s.procs[p].reached >= VERIFIED ==>
          t.procs[p].local == s.procs[p].local && t.procs[p].verifiedAt == s.procs[p].verifiedAt)
    && (s.procs[p].reached >= PASSED ==> t.procs[p].replayedAt == s.procs[p].replayedAt)
    && (s.procs[p].reached >= ANNOUNCED ==> t.procs[p].row == s.procs[p].row)
  }

  predicate Enters(s: State, t: State, p: nat, stage: nat)
    requires p < |s.procs| && |t.procs| == |s.procs|
  {
    s.procs[p].reached + 1 == stage == t.procs[p].reached
  }

  ghost predicate UsesEffect(env: Env, req: Request, s: State, t: State, p: nat)
    requires p < |s.procs| && |t.procs| == |s.procs|
  {
    if Enters(s, t, p, COUNTED) then
      && s.procs[p].local.Some?
      && var recorded := Usage.RecordUse(s.uses, env.digest(req.capability), s.procs[p].local.value.claims.maxUses);
      && recorded.1.Ok? && t.uses == recorded.0
      && t.counted == s.counted + [UseAccept(p, env.digest(req.capability), recorded.1.value)]
    else t.uses == s.uses && t.counted == s.counted
  }

  ghost predicate SendsEffect(s: State, t: State, p: nat)
    requires p < |s.procs| && |t.procs| == |s.procs|
  {
    t.sends == if Enters(s, t, p, SENT) then s.sends + [Sending(p, |s.audit|, |s.counted|)] else s.sends
  }

  ghost predicate AuditEffect(env: Env, req: Request, s: State, t: State, p: nat)
    requires p < |s.procs| && |t.procs| == |s.procs|
  {
    if Enters(s, t, p, ANNOUNCED) then
      s.procs[p].local.Some? && t.procs[p].row == |s.audit| &&
      t.audit == s.audit + [RequestRow(env, req, s, s.procs[p].local.value)]
    else if Enters(s, t, p, RESPONDED) then
      s.procs[p].local.Some? && t.audit == s.audit + [ResponseRow(env, req, s, s.procs[p].local.value)]
    else
      t.audit == s.audit || exists error :: t.audit == s.audit + [DenialRow(env, s, error)]
  }

  ghost predicate ReplayEffect(env: Env, req: Request, s: State, t: State, p: nat, lag: nat)
    requires p < |s.procs| && |t.procs| == |s.procs|
  {
    if s.procs[p].reached == RESOLVED && s.procs[p].status.Running? && s.procs[p].local.Some? &&
       s.procs[p].local.value.payload.Some? then
      var l := s.procs[p].local.value;
      var key := ReplayKey(env, req, l.payload.value);
      var check := Replay.StoreCheck(env.replayOnFile, s.replay, key, l.claims.exp, s.clock - lag);
      if Enters(s, t, p, PASSED) then
        && check.1 == Replay.Fresh && t.replay == check.0 && t.procs[p].replayedAt == s.clock
        && t.history == s.history + [ReplayAccept(p, key, l.claims.exp, s.clock)]
      else
        && t.procs[p].reached == RESOLVED && t.history == s.history
        && (t.replay == s.replay || (check.1 == Replay.ReplayDetected && t.replay == check.0))
    else
      t.replay == s.replay && t.history == s.history
  }

  /** One move of one process: its own progress, and what it does to each store. */
  ghost predicate Effect(env: Env, req: Request, s: State, t: State, p: nat, lag: nat)
    requires p < |s.procs|
  {
    && Moved(s, t, p) && Cleared(env, req, t.procs[p]) && Timely(s.clock, t.procs[p])
    && UsesEffect(env, req, s, t, p) && SendsEffect(s, t, p)
    && AuditEffect(env, req, s, t, p) && ReplayEffect(env, req, s, t, p, lag)
  }

  lemma VerifyEffect(env: Env, req: Request, s: State, p: nat, lag: nat)
    requires p < |s.procs| && Cleared(env, req, s.procs[p]) && Timely(s.clock, s.procs[p])
    requires s.procs[p].status.Running? && s.procs[p].local.None?
    ensures Effect(env, req, s, Verify(env, req, s, p), p, lag)
  {
    if VerifyStage(env, req, s.clock, s.revoked, s.keys).Ok? {
      VerifyNeedsOnlyItsKey(env, req, s.clock, s.revoked, s.keys);
    }
  }

  lemma PolicyEffect(env: Env, req: Request, s: State, p: nat, l: Local, lag: nat)
    requires p < |s.procs| && Cleared(env, req, s.procs[p]) && Timely(s.clock, s.procs[p])
    requires s.procs[p].status.Running? && s.procs[p].local == Some(l) && s.procs[p].reached == VERIFIED
    ensures Effect(env, req, s, CheckPolicy(env, req, s, p, l), p, lag)
  {}

  lemma ResolveEffect(env: Env, req: Request, s: State, p: nat, io: bool, addresses: seq<Ip>, lag: nat)
    requires p < |s.procs| && Cleared(env, req, s.procs[p]) && Timely(s.clock, s.procs[p])
    requires s.procs[p].status.Running? && s.procs[p].reached == CHECKED
    ensures Effect(env, req, s, Resolve(s, p, io, addresses), p, lag)
  {}

  lemma CheckReplayEffect(env: Env, req: Request, s: State, p: nat, l: Local, io: bool, lag: nat)
    requires p < |s.procs| && Cleared(env, req, s.procs[p]) && Timely(s.clock, s.procs[p])
    requires s.procs[p].status.Running? && s.procs[p].local == Some(l) && s.procs[p].reached == RESOLVED
    ensures Effect(env, req, s, CheckReplay(env, req, s, p, l, io, lag), p, lag)
  {}

  lemma CountEffect(env: Env, req: Request, s: State, p: nat, l: Local, io: bool, lag: nat)
    requires p < |s.procs| && Cleared(env, req, s.procs[p]) && Timely(s.clock, s.procs[p])
    requires s.procs[p].status.Running? && s.procs[p].local == Some(l) && s.procs[p].reached == PASSED
    ensures Effect(env, req, s, CountUse(env, req, s, p, l, io), p, lag)
  {}

  lemma AnnounceEffect(env: Env, req: Request, s: State, p: nat, l: Local, io: bool, lag: nat)
    requires p < |s.procs| && Cleared(env, req, s.procs[p]) && Timely(s.clock, s.procs[p])
    requires s.procs[p].status.Running? && s.procs[p].local == Some(l) && s.procs[p].reached == COUNTED
    ensures Effect(env, req, s, Announce(env, req, s, p, l, io), p, lag)
  {}

  lemma SendEffect(env: Env, req: Request, s: State, p: nat, io: bool, lag: nat)
    requires p < |s.procs| && Cleared(env, req, s.procs[p]) && Timely(s.clock, s.procs[p])
    requires s.procs[p].status.Running? && s.procs[p].reached == ANNOUNCED
    ensures Effect(env, req, s, Send(s, p, io), p, lag)
  {}

  lemma RespondEffect(env: Env, req: Request, s: State, p: nat, l: Local, io: bool, lag: nat)
    requires p < |s.procs| && Cleared(env, req, s.procs[p]) && Timely(s.clock, s.procs[p])
    requires s.procs[p].status.Running? && s.procs[p].local == Some(l) && s.procs[p].reached == SENT
    ensures Effect(env, req, s, Respond(env, req, s, p, l, io), p, lag)
  {}

  lemma DenyEffect(env: Env, req: Request, s: State, p: nat, error: Error, io: bool, lag: nat)
    requires p < |s.procs| && Cleared(env, req, s.procs[p]) && Timely(s.clock, s.procs[p])
    requires s.procs[p].status == Failing(error)
    ensures Effect(env, req, s, Deny(env, s, p, error, io), p, lag)
  {}

  lemma {:induction false} MoveHasEffect(
    env: Env, req: Request, s: State, p: nat, io: bool, addresses: seq<Ip>, lag: nat)
    requires p < |s.procs| && Cleared(env, req, s.procs[p]) && Timely(s.clock, s.procs[p])
    ensures Effect(env, req, s, Move(env, req, s, p, io, addresses, lag), p, lag)
  {
    var q := s.procs[p];
    match q.status {
      case Finished => assert s.procs == s.procs[p := s.procs[p]];
      case Failing(error) => DenyEffect(env, req, s, p, error, io, lag);
      case Running =>
        if q.local.None? { VerifyEffect(env, req, s, p, lag); }
        else if q.reached == VERIFIED { PolicyEffect(env, req, s, p, q.local.value, lag); }
        else if q.reached == CHECKED { ResolveEffect(env, req, s, p, io, addresses, lag); }
        else if q.reached == RESOLVED { CheckReplayEffect(env, req, s, p, q.local.value, io, lag); }
        else if q.reached == PASSED { CountEffect(env, req, s, p, q.local.value, io, lag); }
        else if q.reached == COUNTED { AnnounceEffect(env, req, s, p, q.local.value, io, lag); }
        else if q.reached == ANNOUNCED { SendEffect(env, req, s, p, io, lag); }
        else { RespondEffect(env, req, s, p, q.local.value, io, lag); }
    }
  }

  // ---------- counting processes ----------

  function DigestOf(env: Env): Request -> string {
    (r: Request) => env.digest(r.capability)
  }

  function CapIdOf(env: Env): Request -> string {
    (r: Request) => if env.decode(r.capability).Some? then env.decode(r.capability).value.capId else ""
  }

  /** Which processes of this group have completed this stage. */
  function AtLeast(
    requests: seq<Request>, procs: seq<Proc>, group: Request -> string, name: string, stage: nat): (r: seq<bool>)
    requires |procs| == |requests|
    ensures |r| == |procs|
    ensures forall p :: 0 <= p < |procs| ==> r[p] == (procs[p].reached >= stage && group(requests[p]) == name)
  {
    seq(|procs|, p requires 0 <= p < |procs| => procs[p].reached >= stage && group(requests[p]) == name)
  }

  function HowMany(requests: seq<Request>, procs: seq<Proc>, group: Request -> string, name: string, stage: nat): nat
    requires |procs| == |requests|
  {
    Tally(AtLeast(requests, procs, group, name, stage))
  }

  lemma OneMoves(
    requests: seq<Request>, procs: seq<Proc>, p: nat, q: Proc, group: Request -> string, name: string, stage: nat)
    requires |procs| == |requests| && p < |procs| && procs[p].reached <= q.reached
    ensures HowMany(requests, procs[p := q], group, name, stage)
         == HowMany(requests, procs, group, name, stage)
            + if procs[p].reached < stage <= q.reached && group(requests[p]) == name then 1 else 0
  {
    var flags := AtLeast(requests, procs, group, name, stage);
    var flag := q.reached >= stage && group(requests[p]) == name;
    assert AtLeast(requests, procs[p := q], group, name, stage) == flags[p := flag];
    TallyUpdate(flags, p, flag);
  }

  lemma LaterStageFewer(
    requests: seq<Request>, procs: seq<Proc>, group: Request -> string, name: string, early: nat, late: nat)
    requires |procs| == |requests| && early <= late
    ensures HowMany(requests, procs, group, name, late) <= HowMany(requests, procs, group, name, early)
  {
    TallyMonotone(AtLeast(requests, procs, group, name, late), AtLeast(requests, procs, group, name, early));
  }

  lemma NobodyYet(requests: seq<Request>, procs: seq<Proc>, group: Request -> string, name: string, stage: nat)
    requires |procs| == |requests| && stage > 0 && forall p :: 0 <= p < |procs| ==> procs[p].reached == 0
    ensures HowMany(requests, procs, group, name, stage) == 0
  {
    TallyNone(AtLeast(requests, procs, group, name, stage));
  }

  // ---------- uses ----------

  /** The recorded uses of a capability digest: those before the run plus the accepted calls of the run. */
  ghost predicate UsesRecorded(env: Env, requests: seq<Request>, before: Usage.Uses, s: State)
    requires |s.procs| == |requests|
  {
    forall d :: Usage.Current(s.uses, d)
                == (Usage.Current(before, d) + HowMany(requests, s.procs, DigestOf(env), d, COUNTED)) % TWO_TO_64
  }

  /** All tokens with this digest carry the same maximum. */
  ghost predicate OneMaximum(env: Env, requests: seq<Request>, d: string, max: U64) {
    forall p ::
      (0 <= p < |requests| && env.digest(requests[p].capability) == d && env.decode(requests[p].capability).Some?)
      ==> env.decode(requests[p].capability).value.maxUses == Some(max)
  }

  ghost predicate WithinMaximum(env: Env, requests: seq<Request>, before: Usage.Uses, s: State, d: string, max: U64)
    requires |s.procs| == |requests|
  {
    Usage.Current(before, d) + HowMany(requests, s.procs, DigestOf(env), d, COUNTED) <= max
  }

  lemma WrapNext(n: nat)
    ensures (n % TWO_TO_64 + 1) % TWO_TO_64 == (n + 1) % TWO_TO_64
  {}

  lemma MoveKeepsUsesOf(env: Env, requests: seq<Request>, before: Usage.Uses, s: State, t: State, p: nat, d: string)
    requires |s.procs| == |requests| && p < |s.procs|
    requires Moved(s, t, p) && UsesEffect(env, requests[p], s, t, p)
    requires UsesRecorded(env, requests, before, s)
    ensures Usage.Current(t.uses, d)
         == (Usage.Current(before, d) + HowMany(requests, t.procs, DigestOf(env), d, COUNTED)) % TWO_TO_64
  {
    var accepted := HowMany(requests, s.procs, DigestOf(env), d, COUNTED);
    OneMoves(requests, s.procs, p, t.procs[p], DigestOf(env), d, COUNTED);
    assert Usage.Current(s.uses, d) == (Usage.Current(before, d) + accepted) % TWO_TO_64;
    WrapNext(Usage.Current(before, d) + accepted);
    if Enters(s, t, p, COUNTED) {
      var next := (Usage.Current(s.uses, env.digest(requests[p].capability)) + 1) % TWO_TO_64;
      assert t.uses == s.uses[env.digest(requests[p].capability) := next];
    }
  }

  lemma MoveKeepsUses(env: Env, requests: seq<Request>, before: Usage.Uses, s: State, t: State, p: nat)
    requires |s.procs| == |requests| && p < |s.procs|
    requires Moved(s, t, p) && UsesEffect(env, requests[p], s, t, p)
    requires UsesRecorded(env, requests, before, s)
    ensures UsesRecorded(env, requests, before, t)
  {
    forall d
      ensures Usage.Current(t.uses, d)
           == (Usage.Current(before, d) + HowMany(requests, t.procs, DigestOf(env), d, COUNTED)) % TWO_TO_64
    {
      MoveKeepsUsesOf(env, requests, before, s, t, p, d);
    }
  }

  lemma MoveKeepsMaximum(
    env: Env, requests: seq<Request>, before: Usage.Uses, s: State, t: State, p: nat, d: string, max: U64)
    requires |s.procs| == |requests| && p < |s.procs|
    requires s.procs[p].local.Some? ==> env.decode(requests[p].capability) == Some(s.procs[p].local.value.claims)
    requires Moved(s, t, p) && UsesEffect(env, requests[p], s, t, p)
    requires UsesRecorded(env, requests, before, s) && OneMaximum(env, requests, d, max)
    requires WithinMaximum(env, requests, before, s, d, max)
    ensures WithinMaximum(env, requests, before, t, d, max)
  {
    OneMoves(requests, s.procs, p, t.procs[p], DigestOf(env), d, COUNTED);
    if Enters(s, t, p, COUNTED) && env.digest(requests[p].capability) == d {
      assert s.procs[p].local.value.claims.maxUses == Some(max);
      assert Usage.Current(s.uses, d) < max;
    }
  }

  // ---------- the accepted uses, one by one ----------

  /** How many of the accepted uses are of this capability digest. */
  function CountFor(counted: seq<UseAccept>, d: string): nat {
    if counted == [] then 0
    else CountFor(counted[..|counted| - 1], d) + if counted[|counted| - 1].digest == d then 1 else 0
  }

  lemma CountForNext(counted: seq<UseAccept>, use: UseAccept, d: string)
    ensures CountFor(counted + [use], d) == CountFor(counted, d) + if use.digest == d then 1 else 0
  {
    assert (counted + [use])[..|counted|] == counted;
  }

  lemma {:induction false} CountForGrows(counted: seq<UseAccept>, n: nat, d: string)
    requires n <= |counted|
    ensures CountFor(counted[..n], d) <= CountFor(counted, d)
    decreases |counted|
  {
    if n < |counted| {
      CountForGrows(counted[..|counted| - 1], n, d);
      assert counted[..|counted| - 1][..n] == counted[..n];
    } else {
      assert counted[..n] == counted;
    }
  }

  ghost predicate UsedBy(counted: seq<UseAccept>, p: nat) {
    exists k :: 0 <= k < |counted| && counted[k].pid == p
  }

  /** The entry at `k` is the accepted use of a process that got that far, and is told its own number. */
  ghost predicate UseEntry(env: Env, requests: seq<Request>, before: Usage.Uses, s: State, k: nat)
    requires |s.procs| == |requests| && k < |s.counted|
  {
    var use := s.counted[k];
    && use.pid < |s.procs| && s.procs[use.pid].reached >= COUNTED
    && use.digest == env.digest(requests[use.pid].capability)
    && use.number == (Usage.Current(before, use.digest) + CountFor(s.counted[..k + 1], use.digest)) % TWO_TO_64
  }

  /** The accepted uses: one for each process that got that far, numbered on per capability digest. */
  ghost predicate UsesListed(env: Env, requests: seq<Request>, before: Usage.Uses, s: State)
    requires |s.procs| == |requests|
  {
    && (forall k :: 0 <= k < |s.counted| ==> UseEntry(env, requests, before, s, k))
    && (forall j, k :: 0 <= j < k < |s.counted| ==> s.counted[j].pid != s.counted[k].pid)
    && (forall p :: 0 <= p < |s.procs| && s.procs[p].reached >= COUNTED ==> UsedBy(s.counted, p))
    && (forall d :: CountFor(s.counted, d) == HowMany(requests, s.procs, DigestOf(env), d, COUNTED))
  }

  lemma MoveKeepsUseList(env: Env, requests: seq<Request>, before: Usage.Uses, s: State, t: State, p: nat)
    requires |s.procs| == |requests| && p < |s.procs|
    requires Moved(s, t, p) && UsesEffect(env, requests[p], s, t, p)
    requires UsesRecorded(env, requests, before, s) && UsesListed(env, requests, before, s)
    ensures UsesListed(env, requests, before, t)
  {
    MoveKeepsCounts(env, requests, before, s, t, p);
    MoveKeepsEntries(env, requests, before, s, t, p);
    forall q | 0 <= q < |t.procs| && t.procs[q].reached >= COUNTED ensures UsedBy(t.counted, q) {
      UsedByGrows(s.counted, t.counted, q);
      assert Enters(s, t, p, COUNTED) ==> t.counted[|s.counted|].pid == p;
    }
    forall j, k | 0 <= j < k < |t.counted| ensures t.counted[j].pid != t.counted[k].pid {
      assert UseEntry(env, requests, before, s, j);
    }
  }

  lemma UsedByGrows(counted: seq<UseAccept>, later: seq<UseAccept>, p: nat)
    requires counted <= later
    ensures UsedBy(counted, p) ==> UsedBy(later, p)
  {
    if UsedBy(counted, p) {
      var k :| 0 <= k < |counted| && counted[k].pid == p;
      assert later[k].pid == p;
    }
  }

  lemma MoveKeepsCounts(env: Env, requests: seq<Request>, before: Usage.Uses, s: State, t: State, p: nat)
    requires |s.procs| == |requests| && p < |s.procs|
    requires Moved(s, t, p) && UsesEffect(env, requests[p], s, t, p) && UsesListed(env, requests, before, s)
    ensures forall d :: CountFor(t.counted, d) == HowMany(requests, t.procs, DigestOf(env), d, COUNTED)
  {
    forall d ensures CountFor(t.counted, d) == HowMany(requests, t.procs, DigestOf(env), d, COUNTED) {
      OneMoves(requests, s.procs, p, t.procs[p], DigestOf(env), d, COUNTED);
      if Enters(s, t, p, COUNTED) { CountForNext(s.counted, t.counted[|s.counted|], d); }
    }
  }

  lemma MoveKeepsEntries(env: Env, requests: seq<Request>, before: Usage.Uses, s: State, t: State, p: nat)
    requires |s.procs| == |requests| && p < |s.procs|
    requires Moved(s, t, p) && UsesEffect(env, requests[p], s, t, p)
    requires UsesRecorded(env, requests, before, s) && UsesListed(env, requests, before, s)
    ensures forall k :: 0 <= k < |t.counted| ==> UseEntry(env, requests, before, t, k)
  {
    forall k | 0 <= k < |t.counted| ensures UseEntry(env, requests, before, t, k) {
      if k < |s.counted| {
        EarlierEntry(env, requests, before, s, t, p, k);
      } else {
        NewEntry(env, requests, before, s, t, p);
      }
    }
  }

  lemma EarlierEntry(env: Env, requests: seq<Request>, before: Usage.Uses, s: State, t: State, p: nat, k: nat)
    requires |s.procs| == |requests| && p < |s.procs| && Moved(s, t, p) && s.counted <= t.counted
    requires k < |s.counted| && UseEntry(env, requests, before, s, k)
    ensures UseEntry(env, requests, before, t, k)
  {
    assert t.counted[..k + 1] == s.counted[..k + 1];
  }

  /** The number a use is told continues the count of its digest. */
  lemma NewEntry(env: Env, requests: seq<Request>, before: Usage.Uses, s: State, t: State, p: nat)
    requires |s.procs| == |requests| && p < |s.procs|
    requires Moved(s, t, p) && UsesEffect(env, requests[p], s, t, p) && Enters(s, t, p, COUNTED)
    requires UsesRecorded(env, requests, before, s) && UsesListed(env, requests, before, s)
    ensures UseEntry(env, requests, before, t, |s.counted|)
  {
    var d := env.digest(requests[p].capability);
    var use := t.counted[|s.counted|];
    assert t.counted[..|s.counted| + 1] == s.counted + [use];
    CountForNext(s.counted, use, d);
    assert Usage.Current(s.uses, d) == (Usage.Current(before, d) + CountFor(s.counted, d)) % TWO_TO_64;
    WrapNext(Usage.Current(before, d) + CountFor(s.counted, d));
  }

  /** The accepted use of a process was there before it sent. */
  ghost predicate SendFollowsUse(s: State, sending: Sending) {
    sending.usesBefore <= |s.counted| && UsedBy(s.counted[..sending.usesBefore], sending.pid)
  }

  ghost predicate SendsFollowUses(s: State) {
    forall i :: 0 <= i < |s.sends| ==> SendFollowsUse(s, s.sends[i])
  }

  lemma MoveKeepsSendUses(env: Env, requests: seq<Request>, before: Usage.Uses, s: State, t: State, p: nat)
    requires |s.procs| == |requests| && p < |s.procs|
    requires Moved(s, t, p) && SendsEffect(s, t, p) && UsesEffect(env, requests[p], s, t, p)
    requires UsesListed(env, requests, before, s) && SendsFollowUses(s)
    ensures SendsFollowUses(t)
  {
    forall i | 0 <= i < |t.sends| ensures SendFollowsUse(t, t.sends[i]) {
      if i < |s.sends| {
        assert SendFollowsUse(s, s.sends[i]);
        assert t.counted[..s.sends[i].usesBefore] == s.counted[..s.sends[i].usesBefore];
      } else {
        assert UsedBy(s.counted, p) && t.counted[..|s.counted|] == s.counted;
      }
    }
  }

  // ---------- sends ----------

  /** Which sends were for this capability digest. */
  function SendFlags(env: Env, requests: seq<Request>, sends: seq<Sending>, d: string): (r: seq<bool>)
    requires forall i :: 0 <= i < |sends| ==> sends[i].pid < |requests|
    ensures |r| == |sends|
    ensures forall i :: 0 <= i < |sends| ==> r[i] == (env.digest(requests[sends[i].pid].capability) == d)
  {
    seq(|sends|, i requires 0 <= i < |sends| => env.digest(requests[sends[i].pid].capability) == d)
  }

  ghost predicate SendsCounted(env: Env, requests: seq<Request>, s: State)
    requires |s.procs| == |requests|
  {
    && (forall i :: 0 <= i < |s.sends| ==> s.sends[i].pid < |requests|)
    && forall d :: Tally(SendFlags(env, requests, s.sends, d)) == HowMany(requests, s.procs, DigestOf(env), d, SENT)
  }

  /** The audit log already held the request event of the process when it sent. */
  ghost predicate SendFollowsRow(s: State, sending: Sending) {
    && sending.pid < |s.procs| && s.procs[sending.pid].reached >= SENT
    && s.procs[sending.pid].row < sending.auditLength <= |s.audit|
  }

  /** Each send is by a process of its own, after that process's own audit row. */
  ghost predicate SendsAnnounced(s: State) {
    && (forall i :: 0 <= i < |s.sends| ==> SendFollowsRow(s, s.sends[i]))
    && (forall i, j :: 0 <= i < j < |s.sends| ==> s.sends[i].pid != s.sends[j].pid)
  }

  lemma MoveKeepsSendCount(env: Env, requests: seq<Request>, s: State, t: State, p: nat)
    requires |s.procs| == |requests| && p < |s.procs|
    requires Moved(s, t, p) && SendsEffect(s, t, p)
    requires SendsCounted(env, requests, s)
    ensures SendsCounted(env, requests, t)
  {
    forall d ensures Tally(SendFlags(env, requests, t.sends, d)) == HowMany(requests, t.procs, DigestOf(env), d, SENT) {
      OneMoves(requests, s.procs, p, t.procs[p], DigestOf(env), d, SENT);
      if Enters(s, t, p, SENT) {
        var flag := env.digest(requests[p].capability) == d;
        assert SendFlags(env, requests, t.sends, d) == SendFlags(env, requests, s.sends, d) + [flag];
        TallyAppend(SendFlags(env, requests, s.sends, d), flag);
      }
    }
  }

  // ---------- audit ----------

  ghost predicate IsRequestRow(env: Env, req: Request, q: Proc, row: Event<Meta>) {
    && q.local.Some? && row.body.action == "relay.request" && row.body.resource == Resource(env, req)
    && var l := q.local.value;
    var agent := if l.payload.Some? then Some(l.payload.value.agentId) else None;
    row.body.metadata == RequestMeta(l.claims.capId, l.claims.key, req.httpMethod, agent)
  }

  /** The log holds the request row of the process, from `from` on. */
  ghost predicate HasRow(env: Env, req: Request, q: Proc, from: nat, audit: seq<Event<Meta>>) {
    from <= q.row < |audit| && IsRequestRow(env, req, q, audit[q.row])
  }

  /** The log is a chain that extends the earlier one; each announced process has a request row of its own in it. */
  ghost predicate AuditKept(env: Env, requests: seq<Request>, before: seq<Event<Meta>>, s: State)
    requires |s.procs| == |requests|
  {
    && WellFormed(env.eventHash, s.audit) && before <= s.audit
    && (forall p :: 0 <= p < |s.procs| && s.procs[p].reached >= ANNOUNCED ==>
                      HasRow(env, requests[p], s.procs[p], |before|, s.audit))
    && (forall p, q :: 0 <= p < q < |s.procs| && s.procs[p].reached >= ANNOUNCED && s.procs[q].reached >= ANNOUNCED ==>
                         s.procs[p].row != s.procs[q].row)
  }

  lemma AuditGrowsByOne(env: Env, req: Request, s: State, t: State, p: nat)
    requires p < |s.procs| && |t.procs| == |s.procs| && AuditEffect(env, req, s, t, p)
    requires WellFormed(env.eventHash, s.audit)
    ensures WellFormed(env.eventHash, t.audit) && s.audit <= t.audit
  {
    if t.audit != s.audit {
      var body := t.audit[|s.audit|].body;
      AppendKeepsChain(env.eventHash, s.audit, body.timestamp, body.action, body.resource, body.metadata);
    }
  }

  lemma MoveKeepsAudit(env: Env, requests: seq<Request>, before: seq<Event<Meta>>, s: State, t: State, p: nat)
    requires |s.procs| == |requests| && p < |s.procs|
    requires Moved(s, t, p) && AuditEffect(env, requests[p], s, t, p)
    requires AuditKept(env, requests, before, s)
    ensures AuditKept(env, requests, before, t)
  {
    AuditGrowsByOne(env, requests[p], s, t, p);
    forall q | 0 <= q < |t.procs| && t.procs[q].reached >= ANNOUNCED
      ensures HasRow(env, requests[q], t.procs[q], |before|, t.audit)
      ensures q == p && Enters(s, t, p, ANNOUNCED) ==> t.procs[q].row == |s.audit|
      ensures !(q == p && Enters(s, t, p, ANNOUNCED)) ==>
                s.procs[q].reached >= ANNOUNCED && t.procs[q].row == s.procs[q].row < |s.audit|
    {}
  }

  lemma MoveKeepsSendRows(env: Env, requests: seq<Request>, before: seq<Event<Meta>>, s: State, t: State, p: nat)
    requires |s.procs| == |requests| && p < |s.procs|
    requires Moved(s, t, p) && SendsEffect(s, t, p) && AuditEffect(env, requests[p], s, t, p)
    requires AuditKept(env, requests, before, s) && SendsAnnounced(s)
    ensures SendsAnnounced(t)
  {
    AuditGrowsByOne(env, requests[p], s, t, p);
    forall i | 0 <= i < |t.sends| ensures SendFollowsRow(t, t.sends[i]) {
      assert i < |s.sends| ==> SendFollowsRow(s, s.sends[i]);
    }
  }

  function MetaCapId(meta: Meta): string {
    match meta
    case RequestMeta(capId, _, _, _) => capId
    case ResponseMeta(capId) => capId
    case DeniedMeta(_) => ""
  }

  predicate IsEventFor(body: HashInput<Meta>, action: string, capId: string) {
    body.action == action && MetaCapId(body.metadata) == capId
  }

  /** Which rows are events of this kind for this capability id. */
  function RowFlags(rows: seq<Event<Meta>>, action: string, capId: string): (r: seq<bool>)
    ensures |r| == |rows|
    ensures forall i :: 0 <= i < |rows| ==>
                          r[i] == (rows[i].body.action == action && MetaCapId(rows[i].body.metadata) == capId)
  {
    seq(|rows|, i requires 0 <= i < |rows| => IsEventFor(rows[i].body, action, capId))
  }

  function Events(rows: seq<Event<Meta>>, action: string, capId: string): nat {
    Tally(RowFlags(rows, action, capId))
  }

  /** The run has added one request event per announced process and one response event per responded one. */
  ghost predicate EventsCounted(env: Env, requests: seq<Request>, before: seq<Event<Meta>>, s: State)
    requires |s.procs| == |requests|
  {
    forall c ::
      && Events(s.audit, "relay.request", c)
         == Events(before, "relay.request", c) + HowMany(requests, s.procs, CapIdOf(env), c, ANNOUNCED)
      && Events(s.audit, "relay.response", c)
         == Events(before, "relay.response", c) + HowMany(requests, s.procs, CapIdOf(env), c, RESPONDED)
  }

  lemma EventsAppend(rows: seq<Event<Meta>>, row: Event<Meta>, action: string, capId: string)
    ensures Events(rows + [row], action, capId)
         == Events(rows, action, capId) + if row.body.action == action && MetaCapId(row.body.metadata) == capId then 1
            else 0
  {
    var flag := row.body.action == action && MetaCapId(row.body.metadata) == capId;
    assert RowFlags(rows + [row], action, capId) == RowFlags(rows, action, capId) + [flag];
    TallyAppend(RowFlags(rows, action, capId), flag);
  }

  /** A move adds an event of a kind exactly when its process reaches the stage of that kind. */
  lemma MoveAddsEvent(
    env: Env, requests: seq<Request>, s: State, t: State, p: nat, c: string, action: string, stage: nat)
    requires |s.procs| == |requests| && p < |s.procs|
    requires s.procs[p].local.Some? ==> env.decode(requests[p].capability) == Some(s.procs[p].local.value.claims)
    requires Moved(s, t, p) && AuditEffect(env, requests[p], s, t, p)
    requires (action == "relay.request" && stage == ANNOUNCED) || (action == "relay.response" && stage == RESPONDED)
    ensures Events(t.audit, action, c) - Events(s.audit, action, c)
         == HowMany(requests, t.procs, CapIdOf(env), c, stage) - HowMany(requests, s.procs, CapIdOf(env), c, stage)
  {
    OneMoves(requests, s.procs, p, t.procs[p], CapIdOf(env), c, stage);
    if t.audit != s.audit {
      var row := t.audit[|s.audit|];
      assert t.audit == s.audit + [row];
      EventsAppend(s.audit, row, action, c);
    }
  }

  lemma MoveKeepsEvents(env: Env, requests: seq<Request>, before: seq<Event<Meta>>, s: State, t: State, p: nat)
    requires |s.procs| == |requests| && p < |s.procs|
    requires s.procs[p].local.Some? ==> env.decode(requests[p].capability) == Some(s.procs[p].local.value.claims)
    requires Moved(s, t, p) && AuditEffect(env, requests[p], s, t, p)
    requires EventsCounted(env, requests, before, s)
    ensures EventsCounted(env, requests, before, t)
  {
    forall c
      ensures Events(t.audit, "relay.request", c)
           == Events(before, "relay.request", c) + HowMany(requests, t.procs, CapIdOf(env), c, ANNOUNCED)
      ensures Events(t.audit, "relay.response", c)
           == Events(before, "relay.response", c) + HowMany(requests, t.procs, CapIdOf(env), c, RESPONDED)
    {
      MoveAddsEvent(env, requests, s, t, p, c, "relay.request", ANNOUNCED);
      MoveAddsEvent(env, requests, s, t, p, c, "relay.response", RESPONDED);
    }
  }

  // ---------- replay ----------

  function Accepts(history: seq<ReplayAccept>): (r: seq<Replay.Accept>)
    ensures |r| == |history|
    ensures forall i :: 0 <= i < |history| ==> r[i] == Replay.Accept(history[i].key, history[i].expiresAt)
  {
    seq(|history|, i requires 0 <= i < |history| => Replay.Accept(history[i].key, history[i].expiresAt))
  }

  /** This history entry is the replay check that process passed. */
  ghost predicate EntryOf(env: Env, requests: seq<Request>, s: State, e: ReplayAccept)
    requires |s.procs| == |requests|
  {
    && e.pid < |s.procs|
    && var q := s.procs[e.pid];
    && q.reached >= PASSED && q.local.Some? && q.local.value.payload.Some?
    && e.key == ReplayKey(env, requests[e.pid], q.local.value.payload.value)
    && e.expiresAt == q.local.value.claims.exp && e.at == q.replayedAt
  }

  /** A process bound to a proof that has passed its replay check. */
  predicate PassedReplay(q: Proc) {
    q.reached >= PASSED && q.local.Some? && q.local.value.payload.Some?
  }

  ghost predicate Listed(history: seq<ReplayAccept>, p: nat) {
    exists i :: 0 <= i < |history| && history[i].pid == p
  }

  /** Entries of one key lie in the order of their clock readings, each past the expiry of the one before. */
  ghost predicate SpacedOut(history: seq<ReplayAccept>) {
    forall i, j :: 0 <= i < j < |history| && history[i].key == history[j].key ==> history[i].expiresAt < history[j].at
  }

  /** A key that the store held at the start is accepted only once the clock is past its expiry. */
  ghost predicate PastTheStart(before: Replay.Seen, history: seq<ReplayAccept>) {
    forall i :: 0 <= i < |history| && history[i].key in before ==> before[history[i].key] < history[i].at
  }

  ghost predicate ReplayKept(env: Env, requests: seq<Request>, before: Replay.Seen, s: State)
    requires |s.procs| == |requests|
  {
    && Replay.Continues(before, s.replay, Accepts(s.history), s.clock)
    && SpacedOut(s.history) && PastTheStart(before, s.history)
    && (forall i :: 0 <= i < |s.history| ==> EntryOf(env, requests, s, s.history[i]))
    && (forall p :: 0 <= p < |s.procs| && PassedReplay(s.procs[p]) ==> Listed(s.history, p))
  }

  lemma FreshIsPastExpiry(before: Replay.Seen, history: seq<ReplayAccept>, accept: ReplayAccept)
    requires SpacedOut(history) && PastTheStart(before, history)
    requires !Replay.Held(before, Accepts(history), accept.key, accept.at)
    ensures SpacedOut(history + [accept]) && PastTheStart(before, history + [accept])
  {
    forall i | 0 <= i < |history| && history[i].key == accept.key ensures history[i].expiresAt < accept.at {
      assert Accepts(history)[i].key == accept.key;
    }
  }

  lemma CheckKeepsRefinement(env: Env, req: Request, before: Replay.Seen, s: State, t: State, p: nat, lag: nat)
    requires p < |s.procs| && |t.procs| == |s.procs| && t.clock == s.clock && ReplayEffect(env, req, s, t, p, lag)
    requires Replay.Continues(before, s.replay, Accepts(s.history), s.clock)
    requires SpacedOut(s.history) && PastTheStart(before, s.history)
    ensures Replay.Continues(before, t.replay, Accepts(t.history), t.clock)
    ensures SpacedOut(t.history) && PastTheStart(before, t.history)
  {
    var q := s.procs[p];
    if q.reached == RESOLVED && q.status.Running? && q.local.Some? && q.local.value.payload.Some? {
      var key := ReplayKey(env, req, q.local.value.payload.value);
      var exp := q.local.value.claims.exp;
      Replay.StaleCheckContinues(
        env.replayOnFile, before, s.replay, Accepts(s.history), s.clock, key, exp, s.clock - lag);
      if t.history != s.history {
        assert Accepts(t.history) == Accepts(s.history) + [Replay.Accept(key, exp)];
        FreshIsPastExpiry(before, s.history, t.history[|s.history|]);
      }
    }
  }

  lemma MoveKeepsReplay(
    env: Env, requests: seq<Request>, before: Replay.Seen, s: State, t: State, p: nat, lag: nat)
    requires |s.procs| == |requests| && p < |s.procs| && (s.procs[p].local.Some? <==> s.procs[p].reached >= VERIFIED)
    requires Moved(s, t, p) && ReplayEffect(env, requests[p], s, t, p, lag)
    requires ReplayKept(env, requests, before, s)
    ensures ReplayKept(env, requests, before, t)
  {
    CheckKeepsRefinement(env, requests[p], before, s, t, p, lag);
    forall i | 0 <= i < |t.history| ensures EntryOf(env, requests, t, t.history[i]) {
      if i < |s.history| { assert EntryOf(env, requests, s, s.history[i]); }
    }
    forall q | 0 <= q < |t.procs| && PassedReplay(t.procs[q])
      ensures Listed(t.history, q)
    {
      if q == p && Enters(s, t, p, PASSED) {
        assert t.history[|s.history|].pid == p;
      } else {
        assert Listed(s.history, q);
        var i :| 0 <= i < |s.history| && s.history[i].pid == q;
        assert t.history[i].pid == q;
      }
    }
  }

  // ---------- every run ----------

  ghost predicate Invariant(env: Env, requests: seq<Request>, before: State, s: State)
    requires |s.procs| == |requests|
  {
    && AllCleared(env, requests, s)
    && UsesRecorded(env, requests, before.uses, s)
    && SendsCounted(env, requests, s)
    && AuditKept(env, requests, before.audit, s)
    && SendsAnnounced(s)
    && EventsCounted(env, requests, before.audit, s)
    && ReplayKept(env, requests, before.replay, s)
    && UsesListed(env, requests, before.uses, s)
    && SendsFollowUses(s)
  }

  lemma InitialHolds(env: Env, requests: seq<Request>, s: State)
    requires Initial(env, requests, s)
    ensures Invariant(env, requests, s, s)
  {
    forall group: Request -> string, name, stage: nat | stage > 0
      ensures HowMany(requests, s.procs, group, name, stage) == 0
    {
      NobodyYet(requests, s.procs, group, name, stage);
    }
    forall d ensures Tally(SendFlags(env, requests, s.sends, d)) == 0 {
      TallyNone(SendFlags(env, requests, s.sends, d));
    }
    assert Accepts(s.history) == [];
  }

  lemma {:induction false} MoveKeepsInvariant(
    env: Env, requests: seq<Request>, before: State, s: State, p: nat, io: bool, addresses: seq<Ip>, lag: nat)
    requires |s.procs| == |requests| && p < |s.procs| && Invariant(env, requests, before, s)
    ensures |Move(env, requests[p], s, p, io, addresses, lag).procs| == |requests|
    ensures Invariant(env, requests, before, Move(env, requests[p], s, p, io, addresses, lag))
  {
    MoveHasEffect(env, requests[p], s, p, io, addresses, lag);
    EffectKeepsInvariant(env, requests, before, s, Move(env, requests[p], s, p, io, addresses, lag), p, lag);
  }

  lemma {:induction false} EffectKeepsInvariant(
    env: Env, requests: seq<Request>, before: State, s: State, t: State, p: nat, lag: nat)
    requires |s.procs| == |requests| && p < |s.procs| && Invariant(env, requests, before, s)
    requires Effect(env, requests[p], s, t, p, lag)
    ensures |t.procs| == |requests| && Invariant(env, requests, before, t)
  {
    if s.procs[p].local.Some? { LocalIsDecoded(env, requests[p], s.procs[p]); }
    MoveKeepsUses(env, requests, before.uses, s, t, p);
    MoveKeepsSendCount(env, requests, s, t, p);
    MoveKeepsAudit(env, requests, before.audit, s, t, p);
    MoveKeepsSendRows(env, requests, before.audit, s, t, p);
    MoveKeepsEvents(env, requests, before.audit, s, t, p);
    MoveKeepsReplay(env, requests, before.replay, s, t, p, lag);
    MoveKeepsUseList(env, requests, before.uses, s, t, p);
    MoveKeepsSendUses(env, requests, before.uses, s, t, p);
    MoveKeepsCleared(env, requests, s, t, p);
  }

  lemma MoveKeepsCleared(env: Env, requests: seq<Request>, s: State, t: State, p: nat)
    requires |s.procs| == |requests| && p < |s.procs| && Moved(s, t, p)
    requires AllCleared(env, requests, s) && Cleared(env, requests[p], t.procs[p]) && Timely(t.clock, t.procs[p])
    ensures AllCleared(env, requests, t)
  {}

  /** Time and revocations leave everything a process has done as it was. */
  lemma WaitingKeepsInvariant(
    env: Env, requests: seq<Request>, before: State, s: State, clock: int, revoked: set<string>)
    requires |s.procs| == |requests| && Invariant(env, requests, before, s) && s.clock <= clock
    ensures Invariant(env, requests, before, s.(clock := clock, revoked := revoked))
  {
    var t := s.(clock := clock, revoked := revoked);
    WaitingKeepsReplay(env, requests, before.replay, s, t);
    WaitingKeepsCleared(env, requests, s, t);
    WaitingKeepsUses(env, requests, before.uses, s, t);
  }

  lemma WaitingKeepsUses(env: Env, requests: seq<Request>, before: Usage.Uses, s: State, t: State)
    requires |s.procs| == |requests| && UsesListed(env, requests, before, s) && SendsFollowUses(s)
    requires t == s.(clock := t.clock, revoked := t.revoked)
    ensures UsesListed(env, requests, before, t) && SendsFollowUses(t)
  {
    forall k | 0 <= k < |t.counted| ensures UseEntry(env, requests, before, t, k) {
      assert UseEntry(env, requests, before, s, k);
    }
    forall i | 0 <= i < |t.sends| ensures SendFollowsUse(t, t.sends[i]) {
      assert SendFollowsUse(s, s.sends[i]);
    }
  }

  lemma WaitingKeepsReplay(env: Env, requests: seq<Request>, before: Replay.Seen, s: State, t: State)
    requires |s.procs| == |requests| && ReplayKept(env, requests, before, s)
    requires t == s.(clock := t.clock, revoked := t.revoked) && s.clock <= t.clock
    ensures ReplayKept(env, requests, before, t)
  {
    forall i | 0 <= i < |t.history| ensures EntryOf(env, requests, t, t.history[i]) {
      assert EntryOf(env, requests, s, s.history[i]);
    }
  }

  lemma WaitingKeepsCleared(env: Env, requests: seq<Request>, s: State, t: State)
    requires |s.procs| == |requests| && AllCleared(env, requests, s) && t.procs == s.procs && s.clock <= t.clock
    ensures AllCleared(env, requests, t)
  {
    forall p | 0 <= p < |t.procs| ensures Cleared(env, requests[p], t.procs[p]) && Timely(t.clock, t.procs[p]) {
      assert Cleared(env, requests[p], s.procs[p]);
    }
  }

  lemma AdvanceKeepsInvariant(env: Env, requests: seq<Request>, before: State, s: State, action: Action)
    requires |s.procs| == |requests| && Invariant(env, requests, before, s) && action.Advance?
    ensures Invariant(env, requests, before, Next(env, requests, s, action))
  {
    if action.pid < |s.procs| {
      MoveKeepsInvariant(env, requests, before, s, action.pid, action.io, action.addresses, action.lag);
    }
  }

  lemma WaitKeepsInvariant(env: Env, requests: seq<Request>, before: State, s: State, action: Action)
    requires |s.procs| == |requests| && Invariant(env, requests, before, s) && !action.Advance?
    ensures Invariant(env, requests, before, Next(env, requests, s, action))
  {
    var t := Next(env, requests, s, action);
    assert t == s.(clock := t.clock, revoked := t.revoked) && s.clock <= t.clock;
    WaitingKeepsInvariant(env, requests, before, s, t.clock, t.revoked);
  }

  /** Every action keeps the invariant. */
  lemma {:induction false} NextKeepsInvariant(env: Env, requests: seq<Request>, before: State, s: State, action: Action)
    requires |s.procs| == |requests| && Invariant(env, requests, before, s)
    ensures Invariant(env, requests, before, Next(env, requests, s, action))
  {
    if action.Advance? {
      AdvanceKeepsInvariant(env, requests, before, s, action);
    } else {
      WaitKeepsInvariant(env, requests, before, s, action);
    }
  }

  lemma {:induction false} RunKeepsInvariant(
    env: Env, requests: seq<Request>, before: State, s: State, actions: seq<Action>)
    requires |s.procs| == |requests| && Invariant(env, requests, before, s)
    ensures Invariant(env, requests, before, Run(env, requests, s, actions))
    decreases |actions|
  {
    if actions != [] {
      NextKeepsInvariant(env, requests, before, s, actions[0]);
      RunKeepsInvariant(env, requests, before, Next(env, requests, s, actions[0]), actions[1..]);
    }
  }
}
