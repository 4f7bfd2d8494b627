/** The relay's guarantees, over every run from an initial state. */
module RelayResults {
  import opened Basics
  import opened Text
  import opened Policy
  import opened PolicyLaws
  import opened Audit
  import opened Tallies
  import opened Relay
  import opened RelayLaws
  import opened RelaySafety
  import Replay
  import Usage

  /** Accepted `record_use` calls for a capability. */
  ghost function Accepted(env: Env, requests: seq<Request>, s: State, capability: string): nat
    requires |s.procs| == |requests|
  {
    HowMany(requests, s.procs, DigestOf(env), env.digest(capability), COUNTED)
  }

  /** Upstream sends for a capability. */
  ghost function Sends(env: Env, requests: seq<Request>, s: State, capability: string): nat
    requires forall i :: 0 <= i < |s.sends| ==> s.sends[i].pid < |requests|
  {
    Tally(SendFlags(env, requests, s.sends, env.digest(capability)))
  }

  /** The invariant in every reachable state. */
  lemma {:induction false} Reachable(env: Env, requests: seq<Request>, start: State, actions: seq<Action>)
    requires Initial(env, requests, start)
    ensures Invariant(env, requests, start, Run(env, requests, start, actions))
  {
    InitialHolds(env, requests, start);
    RunKeepsInvariant(env, requests, start, start, actions);
  }

  /** Sends are at most the accepted uses, and the counter has moved by the accepted uses, up to the wrap of a `u64`. */
  ghost predicate CountsAgree(env: Env, requests: seq<Request>, before: Usage.Uses, s: State, capability: string)
    requires |s.procs| == |requests|
  {
    && SendsCounted(env, requests, s)
    && Sends(env, requests, s, capability) <= Accepted(env, requests, s, capability)
    && Usage.Current(s.uses, env.digest(capability))
       == (Usage.Current(before, env.digest(capability)) + Accepted(env, requests, s, capability)) % TWO_TO_64
  }

  lemma CountedInState(env: Env, requests: seq<Request>, before: Usage.Uses, s: State, capability: string)
    requires |s.procs| == |requests| && UsesRecorded(env, requests, before, s) && SendsCounted(env, requests, s)
    ensures CountsAgree(env, requests, before, s, capability)
  {
    LaterStageFewer(requests, s.procs, DigestOf(env), env.digest(capability), COUNTED, SENT);
  }

  /** In every interleaving the sends, the accepted uses and the recorded counter of each capability agree. */
  lemma {:induction false} SendsAreCounted(
    env: Env, requests: seq<Request>, start: State, actions: seq<Action>, capability: string)
    requires Initial(env, requests, start)
    ensures CountsAgree(env, requests, start.uses, Run(env, requests, start, actions), capability)
  {
    Reachable(env, requests, start, actions);
    CountedInState(env, requests, start.uses, Run(env, requests, start, actions), capability);
  }

  lemma {:induction false} RunKeepsMaximum(
    env: Env, requests: seq<Request>, before: State, s: State, actions: seq<Action>, d: string, max: U64)
    requires |s.procs| == |requests| && Invariant(env, requests, before, s)
    requires OneMaximum(env, requests, d, max) && WithinMaximum(env, requests, before.uses, s, d, max)
    ensures WithinMaximum(env, requests, before.uses, Run(env, requests, s, actions), d, max)
    decreases |actions|
  {
    if actions != [] {
      NextKeepsInvariant(env, requests, before, s, actions[0]);
      NextKeepsMaximum(env, requests, before, s, actions[0], d, max);
      RunKeepsMaximum(env, requests, before, Next(env, requests, s, actions[0]), actions[1..], d, max);
    }
  }

  lemma NextKeepsMaximum(
    env: Env, requests: seq<Request>, before: State, s: State, action: Action, d: string, max: U64)
    requires |s.procs| == |requests| && Invariant(env, requests, before, s)
    requires OneMaximum(env, requests, d, max) && WithinMaximum(env, requests, before.uses, s, d, max)
    ensures WithinMaximum(env, requests, before.uses, Next(env, requests, s, action), d, max)
  {
    if action.Advance? && action.pid < |s.procs| {
      var p := action.pid;
      MoveHasEffect(env, requests[p], s, p, action.io, action.addresses, action.lag);
      if s.procs[p].local.Some? { LocalIsDecoded(env, requests[p], s.procs[p]); }
      MoveKeepsMaximum(env, requests, before.uses, s, Next(env, requests, s, action), p, d, max);
    }
  }

  /**
   A capability with a maximum, whose digest no other request shares, is used and sent at
   most that often in every interleaving, and its counter never wraps.
   */
  lemma {:induction false} SendsWithinMaximum(
    env: Env, requests: seq<Request>, start: State, actions: seq<Action>, capability: string, claims: Claims, max: U64)
    requires Initial(env, requests, start)
    requires env.decode(capability) == Some(claims) && claims.maxUses == Some(max)
    requires forall p :: 0 <= p < |requests| && env.digest(requests[p].capability) == env.digest(capability) ==>
                           requests[p].capability == capability
    requires Usage.Current(start.uses, env.digest(capability)) <= max
    ensures var s := Run(env, requests, start, actions);
            var before := Usage.Current(start.uses, env.digest(capability));
            && SendsCounted(env, requests, s)
            && before + Sends(env, requests, s, capability) <= before + Accepted(env, requests, s, capability) <= max
            && Usage.Current(s.uses, env.digest(capability)) == before + Accepted(env, requests, s, capability)
  {
    SendsAreCounted(env, requests, start, actions, capability);
    assert OneMaximum(env, requests, env.digest(capability), max);
    RunWithinMaximum(env, requests, start, actions, env.digest(capability), max);
  }

  lemma RunWithinMaximum(env: Env, requests: seq<Request>, start: State, actions: seq<Action>, d: string, max: U64)
    requires Initial(env, requests, start) && OneMaximum(env, requests, d, max) && Usage.Current(start.uses, d) <= max
    ensures WithinMaximum(env, requests, start.uses, Run(env, requests, start, actions), d, max)
  {
    InitialHolds(env, requests, start);
    NobodyYet(requests, start.procs, DigestOf(env), d, COUNTED);
    RunKeepsMaximum(env, requests, start, start, actions, d, max);
  }

  /**
   On the fields: the token fitted when it was verified (that it was not revoked then is what
   `RevokedNeverAdvances` says), and so did the proof, signature included, if one was needed; the request
   fits the policy, and no address of its host is internal.
   */
  ghost predicate ChecksPassed(env: Env, req: Request, q: Proc, l: Local) {
    && env.decode(req.capability) == Some(l.claims) && TokenFits(l.claims, q.verifiedAt, {})
    && (l.payload.Some? <==> l.claims.requireProof || l.claims.agentPublicKey.Some?)
    && (l.payload.Some? ==>
          && req.proof.Some? && req.proof.value.payload == l.payload.value && l.claims.agentPublicKey.Some?
          && ProofFits(req.proof.value, l.claims.agentPublicKey.value, env.digest(req.capability), req.httpMethod,
                       req.upstream, req.bodyHash, l.claims.taskId, l.claims.purpose, q.verifiedAt, env.signatureOk))
    && RequestFits(env, req, l.claims) && AddressesFit(q.addresses)
  }

  /**
   What must hold of a process, the stores and the log when its request goes upstream: the checks passed, a
   replay check of its own when bound to a proof, an accepted use of its own before the send, and its own
   request event in the log before the send.
   */
  ghost predicate SendJustified(env: Env, requests: seq<Request>, start: State, s: State, e: Sending)
    requires |s.procs| == |requests|
  {
    && e.pid < |requests| && s.procs[e.pid].local.Some?
    && ChecksPassed(env, requests[e.pid], s.procs[e.pid], s.procs[e.pid].local.value)
    && (s.procs[e.pid].local.value.payload.Some? ==> Listed(s.history, e.pid))
    && s.procs[e.pid].reached >= SENT && SendFollowsUse(s, e)
    && s.procs[e.pid].row < e.auditLength <= |s.audit|
    && HasRow(env, requests[e.pid], s.procs[e.pid], |start.audit|, s.audit)
  }

  /**
   In every run each send belongs to a process of its own that has passed the token, proof, policy,
   address and replay checks, that had one accepted use, before the send, and whose own request event
   was already in the log.
   */
  lemma {:induction false} EverySendJustified(env: Env, requests: seq<Request>, start: State, actions: seq<Action>)
    requires Initial(env, requests, start)
    ensures var s := Run(env, requests, start, actions);
            && (forall i :: 0 <= i < |s.sends| ==> SendJustified(env, requests, start, s, s.sends[i]))
            && (forall j, k :: 0 <= j < k < |s.counted| ==> s.counted[j].pid != s.counted[k].pid)
            && (forall i, j :: 0 <= i < j < |s.sends| ==>
                                 s.sends[i].pid != s.sends[j].pid
                                 && s.procs[s.sends[i].pid].row != s.procs[s.sends[j].pid].row)
  {
    var s := Run(env, requests, start, actions);
    Reachable(env, requests, start, actions);
    forall i | 0 <= i < |s.sends| ensures SendJustified(env, requests, start, s, s.sends[i]) {
      SendIsJustified(env, requests, start, s, s.sends[i]);
    }
  }

  lemma SendIsJustified(env: Env, requests: seq<Request>, start: State, s: State, e: Sending)
    requires |s.procs| == |requests| && e.pid < |requests|
    requires Cleared(env, requests[e.pid], s.procs[e.pid]) && s.procs[e.pid].reached >= SENT
    requires s.procs[e.pid].row < e.auditLength <= |s.audit|
    requires AuditKept(env, requests, start.audit, s) && ReplayKept(env, requests, start.replay, s)
    requires SendFollowsUse(s, e)
    ensures SendJustified(env, requests, start, s, e)
  {
    ClearedMeansPassed(env, requests[e.pid], s.procs[e.pid]);
  }

  lemma ClearedMeansPassed(env: Env, req: Request, q: Proc)
    requires Cleared(env, req, q) && q.reached >= SENT
    ensures q.local.Some? && ChecksPassed(env, req, q, q.local.value)
  {
    VerifiedIff(env, req, q.verifiedAt, {}, {q.local.value.claims.key});
    RequestFitsIff(env, req, q.local.value.claims);
    AddressesFitIff(q.addresses);
  }

  /** The use at `k` is told the number of uses of its capability digest so far, earlier ones included, modulo 2^64. */
  ghost predicate Numbered(env: Env, requests: seq<Request>, before: Usage.Uses, counted: seq<UseAccept>, k: nat)
    requires k < |counted|
  {
    var use := counted[k];
    && use.pid < |requests| && use.digest == env.digest(requests[use.pid].capability)
    && use.number == (Usage.Current(before, use.digest) + CountFor(counted[..k + 1], use.digest)) % TWO_TO_64
  }

  lemma NumberedInState(env: Env, requests: seq<Request>, before: Usage.Uses, s: State)
    requires |s.procs| == |requests| && UsesListed(env, requests, before, s)
    ensures forall k :: 0 <= k < |s.counted| ==> Numbered(env, requests, before, s.counted, k)
  {
    forall k | 0 <= k < |s.counted| ensures Numbered(env, requests, before, s.counted, k) {
      assert UseEntry(env, requests, before, s, k);
    }
  }

  /** In every run the accepted uses of a capability are numbered on from the uses before the run. */
  lemma {:induction false} UsesAreNumbered(env: Env, requests: seq<Request>, start: State, actions: seq<Action>)
    requires Initial(env, requests, start)
    ensures
      var counted := Run(env, requests, start, actions).counted;
      forall k :: 0 <= k < |counted| ==> Numbered(env, requests, start.uses, counted, k)
  {
    Reachable(env, requests, start, actions);
    NumberedInState(env, requests, start.uses, Run(env, requests, start, actions));
  }

  /** Under a maximum these numbers lie above the uses before the run, within the maximum, and each occurs once. */
  lemma {:induction false} UseNumbersWithinMaximum(
    env: Env, requests: seq<Request>, start: State, actions: seq<Action>, d: string, max: U64)
    requires Initial(env, requests, start) && OneMaximum(env, requests, d, max) && Usage.Current(start.uses, d) <= max
    ensures
      var counted := Run(env, requests, start, actions).counted;
      && (forall k :: 0 <= k < |counted| && counted[k].digest == d ==>
                        Usage.Current(start.uses, d) < counted[k].number <= max)
      && (forall j, k :: 0 <= j < k < |counted| && counted[j].digest == d && counted[k].digest == d ==>
                           counted[j].number < counted[k].number)
  {
    var s := Run(env, requests, start, actions);
    Reachable(env, requests, start, actions);
    RunWithinMaximum(env, requests, start, actions, d, max);
    NumberedInState(env, requests, start.uses, s);
    assert CountFor(s.counted, d) == HowMany(requests, s.procs, DigestOf(env), d, COUNTED);
    NumbersAreBounded(env, requests, start.uses, s.counted, d, max);
  }

  lemma NumbersAreBounded(
    env: Env, requests: seq<Request>, before: Usage.Uses, counted: seq<UseAccept>, d: string, max: U64)
    requires forall k :: 0 <= k < |counted| ==> Numbered(env, requests, before, counted, k)
    requires Usage.Current(before, d) + CountFor(counted, d) <= max
    ensures forall k :: 0 <= k < |counted| && counted[k].digest == d ==>
                          Usage.Current(before, d) < counted[k].number <= max
    ensures forall j, k :: 0 <= j < k < |counted| && counted[j].digest == d && counted[k].digest == d ==>
                             counted[j].number < counted[k].number
  {
    forall k | 0 <= k < |counted| && counted[k].digest == d
      ensures counted[k].number == Usage.Current(before, d) + CountFor(counted[..k + 1], d)
      ensures Usage.Current(before, d) < counted[k].number <= max
    {
      NumberIsBounded(env, requests, before, counted, k, d, max);
    }
    forall j, k | 0 <= j < k < |counted| && counted[j].digest == d && counted[k].digest == d
      ensures counted[j].number < counted[k].number
    {
      CountIncludes(counted, k, d);
      CountUpTo(counted, j, k, d);
    }
  }

  lemma NumberIsBounded(
    env: Env, requests: seq<Request>, before: Usage.Uses, counted: seq<UseAccept>, k: nat, d: string, max: U64)
    requires k < |counted| && counted[k].digest == d && Numbered(env, requests, before, counted, k)
    requires Usage.Current(before, d) + CountFor(counted, d) <= max
    ensures counted[k].number == Usage.Current(before, d) + CountFor(counted[..k + 1], d)
    ensures Usage.Current(before, d) < counted[k].number <= max
  {
    CountIncludes(counted, k, d);
    CountForGrows(counted, k + 1, d);
  }

  /** An entry of the digest is one more than those in front of it. */
  lemma CountIncludes(counted: seq<UseAccept>, k: nat, d: string)
    requires k < |counted| && counted[k].digest == d
    ensures CountFor(counted[..k + 1], d) == CountFor(counted[..k], d) + 1
  {
    assert counted[..k + 1] == counted[..k] + [counted[k]];
    CountForNext(counted[..k], counted[k], d);
  }

  lemma CountUpTo(counted: seq<UseAccept>, j: nat, k: nat, d: string)
    requires j < k <= |counted|
    ensures CountFor(counted[..j + 1], d) <= CountFor(counted[..k], d)
  {
    CountForGrows(counted[..k], j + 1, d);
    assert counted[..k][..j + 1] == counted[..j + 1];
  }

  /**
   The log stays a chain that extends the earlier one, with no more response than request events added for any
   capability.
   */
  lemma {:induction false} ResponsesWithinRequests(
    env: Env, requests: seq<Request>, start: State, actions: seq<Action>, capId: string)
    requires Initial(env, requests, start)
    ensures var s := Run(env, requests, start, actions);
            && WellFormed(env.eventHash, s.audit) && start.audit <= s.audit
            && Events(s.audit, "relay.response", capId) - Events(start.audit, "relay.response", capId)
               <= Events(s.audit, "relay.request", capId) - Events(start.audit, "relay.request", capId)
  {
    Reachable(env, requests, start, actions);
    LaterStageFewer(requests, Run(env, requests, start, actions).procs, CapIdOf(env), capId, ANNOUNCED, RESPONDED);
  }

  /** This process was overtaken by the expiry of its token between the token check and the replay check. */
  predicate InFlightAcrossExpiry(q: Proc)
    requires q.local.Some?
  {
    q.verifiedAt <= q.local.value.claims.exp < q.replayedAt
  }

  /**
   A proof of one capability passes the replay check twice only if the later process had
   its token checked no later than the expiry and its replay check after it.
   */
  lemma {:induction false} ReplayOnlyAcrossExpiry(
    env: Env, requests: seq<Request>, start: State, actions: seq<Action>, p: nat, q: nat)
    requires Initial(env, requests, start) && p < |requests| && q < |requests| && p != q
    requires requests[p].capability == requests[q].capability
    requires var s := Run(env, requests, start, actions);
             && PassedReplay(s.procs[p]) && PassedReplay(s.procs[q])
             && ReplayKey(env, requests[p], s.procs[p].local.value.payload.value)
                == ReplayKey(env, requests[q], s.procs[q].local.value.payload.value)
    ensures var s := Run(env, requests, start, actions);
            InFlightAcrossExpiry(s.procs[p]) || InFlightAcrossExpiry(s.procs[q])
  {
    Reachable(env, requests, start, actions);
    var s := Run(env, requests, start, actions);
    assert Cleared(env, requests[p], s.procs[p]) && Cleared(env, requests[q], s.procs[q]);
    LocalIsDecoded(env, requests[p], s.procs[p]);
    LocalIsDecoded(env, requests[q], s.procs[q]);
    VerifiedBeforeExpiry(env, requests[p], s.procs[p]);
    VerifiedBeforeExpiry(env, requests[q], s.procs[q]);
    TwoPasses(env, requests, start.replay, s, p, q);
  }

  lemma TwoPasses(env: Env, requests: seq<Request>, before: Replay.Seen, s: State, p: nat, q: nat)
    requires |s.procs| == |requests| && p < |requests| && q < |requests| && p != q
    requires ReplayKept(env, requests, before, s)
    requires PassedReplay(s.procs[p]) && PassedReplay(s.procs[q])
    requires ReplayKey(env, requests[p], s.procs[p].local.value.payload.value)
          == ReplayKey(env, requests[q], s.procs[q].local.value.payload.value)
    ensures s.procs[p].local.value.claims.exp < s.procs[q].replayedAt ||
            s.procs[q].local.value.claims.exp < s.procs[p].replayedAt
  {
    assert Listed(s.history, p) && Listed(s.history, q);
    var i :| 0 <= i < |s.history| && s.history[i].pid == p;
    var j :| 0 <= j < |s.history| && s.history[j].pid == q;
    assert EntryOf(env, requests, s, s.history[i]) && EntryOf(env, requests, s, s.history[j]);
    assert i < j || j < i;
  }

  lemma VerifiedBeforeExpiry(env: Env, req: Request, q: Proc)
    requires Cleared(env, req, q) && q.local.Some?
    ensures q.verifiedAt <= q.local.value.claims.exp
  {}

  /** The process passed its replay check, with a proof of this key that expires at `now` or later. */
  ghost predicate PassedUnexpired(env: Env, req: Request, q: Proc, key: string, now: int) {
    PassedReplay(q) && ReplayKey(env, req, q.local.value.payload.value) == key && q.local.value.claims.exp >= now
  }

  /** Why the key is refused now: from before the start, or because of a process that has passed. */
  ghost predicate Refused(env: Env, requests: seq<Request>, before: Replay.Seen, s: State, key: string)
    requires |s.procs| == |requests|
  {
    || (key in before && before[key] >= s.clock)
    || exists q :: 0 <= q < |requests| && PassedUnexpired(env, requests[q], s.procs[q], key, s.clock)
  }

  /**
   In every run, a replay check that reads the clock at once and does not fail is refused if and only if
   the store held its key unexpired at the start, or a process has passed with that key and its token
   has not expired.
   */
  lemma {:induction false} ReplayRefusedIff(
    env: Env, requests: seq<Request>, start: State, actions: seq<Action>, p: nat, l: Local, addresses: seq<Ip>)
    requires Initial(env, requests, start) && p < |requests| && l.payload.Some?
    requires var q := Run(env, requests, start, actions).procs[p];
             q.reached == RESOLVED && q.status.Running? && q.local == Some(l)
    ensures
      var s := Run(env, requests, start, actions);
      Next(env, requests, s, Advance(p, true, addresses, 0)).procs[p].status == Failing(ReplayDetected)
      <==> Refused(env, requests, start.replay, s, ReplayKey(env, requests[p], l.payload.value))
  {
    Reachable(env, requests, start, actions);
    RefusedInState(env, requests, start.replay, Run(env, requests, start, actions), p, l);
  }

  lemma RefusedInState(env: Env, requests: seq<Request>, before: Replay.Seen, s: State, p: nat, l: Local)
    requires |s.procs| == |requests| && p < |requests| && ReplayKept(env, requests, before, s) && l.payload.Some?
    requires s.procs[p].status.Running?
    ensures CheckReplay(env, requests[p], s, p, l, true, 0).procs[p].status == Failing(ReplayDetected)
       <==> Refused(env, requests, before, s, ReplayKey(env, requests[p], l.payload.value))
  {
    var key := ReplayKey(env, requests[p], l.payload.value);
    LiveIsPassed(env, requests, before, s, key);
    Replay.StaleCheckContinues(
      env.replayOnFile, before, s.replay, Accepts(s.history), s.clock, key, l.claims.exp, s.clock);
  }

  lemma LiveIsPassed(env: Env, requests: seq<Request>, before: Replay.Seen, s: State, key: string)
    requires |s.procs| == |requests| && ReplayKept(env, requests, before, s)
    ensures Replay.Live(Accepts(s.history), key, s.clock)
       <==> exists q :: 0 <= q < |requests| && PassedUnexpired(env, requests[q], s.procs[q], key, s.clock)
  {
    if Replay.Live(Accepts(s.history), key, s.clock) {
      var i :| 0 <= i < |s.history| && s.history[i].key == key && s.history[i].expiresAt >= s.clock;
      assert EntryOf(env, requests, s, s.history[i]);
      assert PassedUnexpired(env, requests[s.history[i].pid], s.procs[s.history[i].pid], key, s.clock);
    }
    forall q | 0 <= q < |requests| && PassedUnexpired(env, requests[q], s.procs[q], key, s.clock)
      ensures Replay.Live(Accepts(s.history), key, s.clock)
    {
      assert Listed(s.history, q);
      var i :| 0 <= i < |s.history| && s.history[i].pid == q;
      assert EntryOf(env, requests, s, s.history[i]);
      assert Accepts(s.history)[i].key == key;
    }
  }

  /** A key that the store held at the start passes only after its expiry, however old the clock readings. */
  lemma {:induction false} HeldKeyWaits(
    env: Env, requests: seq<Request>, start: State, actions: seq<Action>, p: nat)
    requires Initial(env, requests, start) && p < |requests|
    requires PassedReplay(Run(env, requests, start, actions).procs[p])
    ensures
      var q := Run(env, requests, start, actions).procs[p];
      var key := ReplayKey(env, requests[p], q.local.value.payload.value);
      key in start.replay ==> start.replay[key] < q.replayedAt
  {
    Reachable(env, requests, start, actions);
    var s := Run(env, requests, start, actions);
    assert Listed(s.history, p);
    var i :| 0 <= i < |s.history| && s.history[i].pid == p;
    assert EntryOf(env, requests, s, s.history[i]);
  }

  /** A capability revoked before a process verifies its token is never used by that process. */
  lemma {:induction false} RevokedNeverAdvances(
    env: Env, requests: seq<Request>, s: State, actions: seq<Action>, p: nat, claims: Claims)
    requires |s.procs| == |requests| && p < |requests|
    requires env.decode(requests[p].capability) == Some(claims) && claims.capId in s.revoked
    requires s.procs[p].local.None? && s.procs[p].reached == 0
    ensures Run(env, requests, s, actions).procs[p].reached == 0
    decreases |actions|
  {
    if actions != [] {
      RevokedStays(env, requests, s, actions[0], p, claims);
      RevokedNeverAdvances(env, requests, Next(env, requests, s, actions[0]), actions[1..], p, claims);
    }
  }

  lemma RevokedStays(env: Env, requests: seq<Request>, s: State, action: Action, p: nat, claims: Claims)
    requires |s.procs| == |requests| && p < |requests|
    requires env.decode(requests[p].capability) == Some(claims) && claims.capId in s.revoked
    requires s.procs[p].local.None? && s.procs[p].reached == 0
    ensures var t := Next(env, requests, s, action);
            claims.capId in t.revoked && t.procs[p].local.None? && t.procs[p].reached == 0
  {
    if action.Advance? && action.pid < |requests| {
      MoveIsFramed(env, requests[action.pid], s, action.pid, action.io, action.addresses, action.lag);
      if action.pid == p {
        assert VerifyStage(env, requests[p], s.clock, s.revoked, s.keys).Err?;
      }
    }
  }

  /** A move changes no revocation and no other process. */
  ghost predicate Framed(s: State, t: State, p: nat) {
    && t.revoked == s.revoked && |t.procs| == |s.procs|
    && forall q :: 0 <= q < |s.procs| && q != p ==> t.procs[q] == s.procs[q]
  }

  lemma VerifyIsFramed(env: Env, req: Request, s: State, p: nat)
    requires p < |s.procs|
    ensures Framed(s, Verify(env, req, s, p), p)
  {}

  lemma PolicyIsFramed(env: Env, req: Request, s: State, p: nat, l: Local)
    requires p < |s.procs|
    ensures Framed(s, CheckPolicy(env, req, s, p, l), p)
  {}

  lemma ReplayIsFramed(env: Env, req: Request, s: State, p: nat, l: Local, io: bool, lag: nat)
    requires p < |s.procs|
    ensures Framed(s, CheckReplay(env, req, s, p, l, io, lag), p)
  {}

  lemma StoresAreFramed(env: Env, req: Request, s: State, p: nat, l: Local, io: bool, addresses: seq<Ip>)
    requires p < |s.procs|
    ensures Framed(s, Resolve(s, p, io, addresses), p) && Framed(s, CountUse(env, req, s, p, l, io), p)
    ensures Framed(s, Announce(env, req, s, p, l, io), p) && Framed(s, Send(s, p, io), p)
    ensures Framed(s, Respond(env, req, s, p, l, io), p)
  {}

  lemma MoveIsFramed(env: Env, req: Request, s: State, p: nat, io: bool, addresses: seq<Ip>, lag: nat)
    requires p < |s.procs|
    ensures Framed(s, Move(env, req, s, p, io, addresses, lag), p)
  {
    var q := s.procs[p];
    match q.status {
      case Finished =>
      case Failing(error) => DenialIsFramed(env, s, p, error, io);
      case Running =>
        if q.local.None? { VerifyIsFramed(env, req, s, p); }
        else if q.reached == VERIFIED { PolicyIsFramed(env, req, s, p, q.local.value); }
        else if q.reached == RESOLVED { ReplayIsFramed(env, req, s, p, q.local.value, io, lag); }
        else { StoresAreFramed(env, req, s, p, q.local.value, io, addresses); }
    }
  }

  lemma DenialIsFramed(env: Env, s: State, p: nat, error: Error, io: bool)
    requires p < |s.procs|
    ensures Framed(s, Deny(env, s, p, error, io), p)
  {}

  // ---------- from issue to use ----------

  /** The claims are newly issued, for `minutes`, and bound to an agent. */
  ghost predicate Issued(claims: Claims, minutes: int, hosts: seq<string>, methods: seq<string>, paths: seq<string>) {
    && claims.agentPublicKey.Some?
    && claims == NewClaims(
                   claims.capId, claims.key, claims.iat, minutes, hosts, methods, paths, claims.maxUses,
                   claims.agentPublicKey, claims.taskId, claims.purpose)
  }

  /**
   From issue to use: a request that carries a newly issued capability, and any proof or none, gets past the
   token, proof and policy checks if and only if the capability is in force, its secret is stored, the proof
   was made by its agent for this very request, and the claims admit the request.
   */
  lemma NewCapabilityServes(
    env: Env, req: Request, claims: Claims, minutes: int, hosts: seq<string>, methods: seq<string>, paths: seq<string>,
    now: int, revoked: set<string>, keys: set<string>, url: Url)
    requires Issued(claims, minutes, hosts, methods, paths) && env.decode(req.capability) == Some(claims)
    requires env.parseUrl(req.upstream) == Some(url)
    ensures VerifyStage(env, req, now, revoked, keys).Ok? && PolicyStage(env, req, claims).None?
       <==> && claims.iat <= now <= claims.iat + minutes * 60 && claims.capId !in revoked && claims.key in keys
            && req.proof.Some?
            && ProofFits(req.proof.value, claims.agentPublicKey.value, env.digest(req.capability), req.httpMethod,
                         req.upstream, req.bodyHash, claims.taskId, claims.purpose, now, env.signatureOk)
            && Admits(hosts, methods, paths, req.httpMethod, url)
            && req.bodySize <= 0x10_0000 && (req.contentType == None || TypeStands(claims, req.contentType.value))
  {
    VerifiedIff(env, req, now, revoked, keys);
    NewClaimsAdmit(
      claims.capId, claims.key, claims.iat, minutes, hosts, methods, paths, claims.maxUses, claims.agentPublicKey,
      claims.taskId, claims.purpose, req.httpMethod, url);
    ContentTypeAllowedIff(claims, req.contentType);
  }

  // ---------- a proof can go upstream twice ----------

  lemma {:induction false} RunConcat(
    env: Env, requests: seq<Request>, s: State, first: seq<Action>, second: seq<Action>)
    requires |s.procs| == |requests|
    ensures Run(env, requests, s, first + second) == Run(env, requests, Run(env, requests, s, first), second)
    decreases |first|
  {
    if first == [] {
      assert first + second == second;
    } else {
      assert (first + second)[0] == first[0] && (first + second)[1..] == first[1..] + second;
      RunConcat(env, requests, Next(env, requests, s, first[0]), first[1..], second);
    }
  }

  const PUBLIC: seq<Ip> := [V4(8, 8, 8, 8)]

  function Go(p: nat): Action { Advance(p, true, PUBLIC, 0) }

  lemma RunOne(env: Env, requests: seq<Request>, s: State, action: Action)
    requires |s.procs| == |requests|
    ensures Run(env, requests, s, [action]) == Next(env, requests, s, action)
  {
    assert [action][1..] == [];
  }

  /** Token and policy checks and address resolution of a fresh process that passes them. */
  lemma ToResolved(env: Env, requests: seq<Request>, s: State, p: nat, l: Local)
    requires |s.procs| == |requests| && p < |requests| && s.procs[p] == FRESH_PROC
    requires VerifyStage(env, requests[p], s.clock, s.revoked, s.keys) == Ok(l)
    requires PolicyStage(env, requests[p], l.claims).None?
    ensures Run(env, requests, s, [Go(p)] + [Go(p)] + [Go(p)])
         == s.(procs := s.procs[p := Proc(RESOLVED, Running, Some(l), s.clock, PUBLIC, 0, 0)])
  {
    var s1 := Next(env, requests, s, Go(p));
    var s2 := Next(env, requests, s1, Go(p));
    assert s1 == s.(procs := s.procs[p := Proc(VERIFIED, Running, Some(l), s.clock, [], 0, 0)]);
    assert s2 == s.(procs := s.procs[p := Proc(CHECKED, Running, Some(l), s.clock, [], 0, 0)]);
    assert Next(env, requests, s2, Go(p))
        == s.(procs := s.procs[p := Proc(RESOLVED, Running, Some(l), s.clock, PUBLIC, 0, 0)]);
    RunOne(env, requests, s, Go(p));
    RunOne(env, requests, s1, Go(p));
    RunOne(env, requests, s2, Go(p));
    RunConcat(env, requests, s, [Go(p)], [Go(p)]);
    RunConcat(env, requests, s, [Go(p)] + [Go(p)], [Go(p)]);
  }

  /** The replay check of a request at the clock, before it is made. */
  function CheckNow(env: Env, req: Request, s: State, l: Local): (Replay.Seen, Replay.Verdict)
    requires l.payload.Some?
  {
    Replay.StoreCheck(env.replayOnFile, s.replay, ReplayKey(env, req, l.payload.value), l.claims.exp, s.clock)
  }

  /** Replay check, usage, audit and send of a resolved process whose proof is not seen as a replay. */
  lemma ToSent(env: Env, requests: seq<Request>, s: State, p: nat, l: Local)
    requires |s.procs| == |requests| && p < |requests|
    requires s.procs[p].reached == RESOLVED && s.procs[p].status.Running? && s.procs[p].local == Some(l)
    requires l.payload.Some? && l.claims.maxUses.None?
    requires CheckNow(env, requests[p], s, l).1 == Replay.Fresh
    ensures var t := Run(env, requests, s, [Go(p)] + [Go(p)] + [Go(p)] + [Go(p)]);
            && t.procs[p].reached == SENT && t.procs[p].local == Some(l) && t.clock == s.clock
            && t.replay == CheckNow(env, requests[p], s, l).0
            && forall q :: 0 <= q < |s.procs| && q != p ==> t.procs[q] == s.procs[q]
  {
    var s1 := Next(env, requests, s, Go(p));
    var s2 := Next(env, requests, s1, Go(p));
    var s3 := Next(env, requests, s2, Go(p));
    var t := Next(env, requests, s3, Go(p));
    assert s1.procs == s.procs[p := s.procs[p].(reached := PASSED, replayedAt := s.clock)];
    assert s2.procs == s1.procs[p := s1.procs[p].(reached := COUNTED)] && s2.replay == s1.replay;
    assert s3.procs == s2.procs[p := s2.procs[p].(reached := ANNOUNCED, row := |s2.audit|)] && s3.replay == s1.replay;
    assert t.procs == s3.procs[p := s3.procs[p].(reached := SENT)] && t.replay == s1.replay;
    RunOne(env, requests, s, Go(p));
    RunOne(env, requests, s1, Go(p));
    RunOne(env, requests, s2, Go(p));
    RunOne(env, requests, s3, Go(p));
    RunConcat(env, requests, s, [Go(p)], [Go(p)]);
    RunConcat(env, requests, s, [Go(p)] + [Go(p)], [Go(p)]);
    RunConcat(env, requests, s, [Go(p)] + [Go(p)] + [Go(p)], [Go(p)]);
  }

  lemma ExpiredIsForgotten(onFile: bool, key: string, expiresAt: int)
    ensures Replay.StoreCheck(onFile, map[], key, expiresAt, expiresAt) == (map[key := expiresAt], Replay.Fresh)
    ensures Replay.StoreCheck(onFile, map[key := expiresAt], key, expiresAt, expiresAt + 1).1 == Replay.Fresh
  {
    var none: Replay.Seen := map[];
    assert Replay.Prune(none, expiresAt) == none;
  }

  lemma RunFive(
    env: Env, requests: seq<Request>, s: State, a: seq<Action>, b: seq<Action>, c: seq<Action>, d: seq<Action>,
    e: seq<Action>)
    requires |s.procs| == |requests|
    ensures
      var t := Run(env, requests, Run(env, requests, Run(env, requests, s, a), b), c);
      Run(env, requests, s, a + b + c + d + e) == Run(env, requests, Run(env, requests, t, d), e)
  {
    RunConcat(env, requests, s, a, b);
    RunConcat(env, requests, s, a + b, c);
    RunConcat(env, requests, s, a + b + c, d);
    RunConcat(env, requests, s, a + b + c + d, e);
  }

  function Checks(p: nat): seq<Action> { [Go(p)] + [Go(p)] + [Go(p)] }

  function Sending4(p: nat): seq<Action> { [Go(p)] + [Go(p)] + [Go(p)] + [Go(p)] }

  predicate BothAt(s: State, stage: nat, l: Local) {
    && |s.procs| == 2
    && s.procs[0].reached == stage && s.procs[1].reached == stage
    && s.procs[0].local == Some(l) && s.procs[1].local == Some(l)
  }

  lemma BothResolve(env: Env, req: Request, start: State, l: Local)
    requires Initial(env, [req, req], start) && start.replay == map[]
    requires VerifyStage(env, req, start.clock, start.revoked, start.keys) == Ok(l)
    requires PolicyStage(env, req, l.claims).None?
    ensures var s := Run(env, [req, req], Run(env, [req, req], start, Checks(0)), Checks(1));
            BothAt(s, RESOLVED, l) && s.procs[0].status.Running? && s.procs[1].status.Running?
            && s.replay == map[] && s.clock == start.clock
  {
    ToResolved(env, [req, req], start, 0, l);
    ToResolved(env, [req, req], Run(env, [req, req], start, Checks(0)), 1, l);
  }

  /** The first process sends; a second later its entry is the only one. */
  lemma FirstPasses(env: Env, req: Request, s: State, l: Local)
    requires BothAt(s, RESOLVED, l) && s.procs[0].status.Running? && s.procs[1].status.Running? && s.replay == map[]
    requires l.payload.Some? && l.claims.maxUses.None? && l.claims.exp == s.clock
    ensures
      var t := Run(env, [req, req], Run(env, [req, req], s, Sending4(0)), [Tick(1)]);
      && t.procs[0].reached == SENT && t.procs[0].local == Some(l) && t.procs[1] == s.procs[1] && t.clock == s.clock + 1
      && t.replay == map[ReplayKey(env, req, l.payload.value) := l.claims.exp]
  {
    ExpiredIsForgotten(env.replayOnFile, ReplayKey(env, req, l.payload.value), l.claims.exp);
    ToSent(env, [req, req], s, 0, l);
    RunOne(env, [req, req], Run(env, [req, req], s, Sending4(0)), Tick(1));
  }

  /** Both processes resolved, the first sent, one second later: the second still passes. */
  lemma SecondPasses(env: Env, req: Request, s: State, l: Local)
    requires BothAt(s, RESOLVED, l) && s.procs[0].status.Running? && s.procs[1].status.Running? && s.replay == map[]
    requires l.payload.Some? && l.claims.maxUses.None? && l.claims.exp == s.clock
    ensures var t := Run(env, [req, req], Run(env, [req, req], Run(env, [req, req], s, Sending4(0)), [Tick(1)]),
                         Sending4(1));
            BothAt(t, SENT, l)
  {
    FirstPasses(env, req, s, l);
    ExpiredIsForgotten(env.replayOnFile, ReplayKey(env, req, l.payload.value), l.claims.exp);
    ToSent(env, [req, req], Run(env, [req, req], Run(env, [req, req], s, Sending4(0)), [Tick(1)]), 1, l);
  }

  /**
   The exception does happen: one proof-bound request made twice at the very expiry of its
   token, with one second passing between the two replay checks, goes upstream twice.
   */
  lemma {:induction false} OneProofSentTwice(
    env: Env, req: Request, start: State, l: Local) returns (actions: seq<Action>)
    requires Initial(env, [req, req], start) && start.replay == map[]
    requires VerifyStage(env, req, start.clock, start.revoked, start.keys) == Ok(l)
    requires PolicyStage(env, req, l.claims).None? && l.payload.Some? && l.claims.maxUses.None?
    requires l.claims.exp == start.clock
    ensures BothAt(Run(env, [req, req], start, actions), SENT, l)
  {
    BothResolve(env, req, start, l);
    SecondPasses(env, req, Run(env, [req, req], Run(env, [req, req], start, Checks(0)), Checks(1)), l);
    RunFive(env, [req, req], start, Checks(0), Checks(1), Sending4(0), [Tick(1)], Sending4(1));
    actions := Checks(0) + Checks(1) + Sending4(0) + [Tick(1)] + Sending4(1);
  }
}
