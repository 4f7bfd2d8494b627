/**
 The relay as a concurrent protocol. Any number of requests run `perform_relay` at once
 over one clock, one vault, one replay store, one usage store and one audit log; each
 store call is one atomic step, and every I/O outcome is chosen by the environment.
 */
module Relay {
  import opened Basics
  import opened Policy
  import opened Audit
  import Replay
  import Usage

  datatype Request = Request(
    capability: string, httpMethod: string, upstream: string, bodyHash: string, bodySize: nat,
    contentType: Option<string>, proof: Option<AccessProof>)

  /** JSON metadata of the three audit events. */
  datatype Meta =
    | RequestMeta(capId: string, key: string, httpMethod: string, proofAgentId: Option<string>)
    | ResponseMeta(capId: string)
    | DeniedMeta(error: Error)

  /** The cryptography and parsing that the relay calls, and whether its replay store is a file. */
  datatype Env = Env(
    digest: string -> string, decode: string -> Option<Claims>, parseUrl: string -> Option<Url>,
    signatureOk: SignatureCheck, eventHash: Hash<Meta>, replayOnFile: bool)

  /** What a request holds after the block that verifies it. */
  datatype Local = Local(claims: Claims, payload: Option<ProofPayload>)

  datatype Status = Running | Failing(error: Error) | Finished

  /** Stages of `perform_relay`, in order; `reached` of a process is the last one it completed. */
  const VERIFIED := 1
  const CHECKED := 2
  const RESOLVED := 3
  const PASSED := 4
  const COUNTED := 5
  const ANNOUNCED := 6
  const SENT := 7
  const RESPONDED := 8

  /** `verifiedAt`, `replayedAt` and `row` are history variables: two clock readings and an audit row. */
  datatype Proc = Proc(
    reached: nat, status: Status, local: Option<Local>, verifiedAt: int, addresses: seq<Ip>, replayedAt: int, row: nat)

  datatype ReplayAccept = ReplayAccept(pid: nat, key: string, expiresAt: int, at: int)

  /** An accepted use: by which process, for which capability digest, and the number it was told. */
  datatype UseAccept = UseAccept(pid: nat, digest: string, number: U64)

  /** An attempt to send upstream, with the length of the audit log and the number of accepted uses at that moment. */
  datatype Sending = Sending(pid: nat, auditLength: nat, usesBefore: nat)

  /** `history`, `counted` and `sends` are history variables. */
  datatype State = State(
    clock: int, revoked: set<string>, keys: set<string>,
    replay: Replay.Seen, history: seq<ReplayAccept>, uses: Usage.Uses, counted: seq<UseAccept>,
    audit: seq<Event<Meta>>, sends: seq<Sending>, procs: seq<Proc>)

  /**
   `lag` is the age of the clock reading that a replay check uses: the in-memory store reads the clock
   before it waits for its mutex, the file store after it has its lock, with no lag.
   */
  datatype Action =
    | Tick(elapsed: nat)
    | Revoke(capId: string)
    | Advance(pid: nat, io: bool, addresses: seq<Ip>, lag: nat)

  const FRESH_PROC := Proc(0, Running, None, 0, [], 0, 0)

  /** The start of a relay process; what the stores and the log hold from earlier ones is arbitrary. */
  ghost predicate Initial(env: Env, requests: seq<Request>, s: State) {
    && s.history == [] && s.counted == [] && s.sends == []
    && |s.procs| == |requests| && (forall p :: 0 <= p < |s.procs| ==> s.procs[p] == FRESH_PROC)
    && WellFormed(env.eventHash, s.audit)
  }

  // ---------- the stages ----------

  predicate NeedsProof(claims: Claims) {
    claims.requireProof || claims.agentPublicKey.Some?
  }

  /** The proof check inside the vault lock (lines 285-305). */
  function VerifyBinding(env: Env, req: Request, claims: Claims, now: int): Result<Option<ProofPayload>, Error> {
    if !NeedsProof(claims) then Ok(None)
    else if req.proof.None? then Err(MissingCredential)
    else if claims.agentPublicKey.None? then Err(PolicyDenied)
    else
      var key, digest := claims.agentPublicKey.value, env.digest(req.capability);
      var verified := VerifyProof(req.proof.value, key, digest, req.httpMethod, req.upstream, req.bodyHash,
                                  claims.taskId, claims.purpose, now, env.signatureOk);
      if verified.Ok? then Ok(Some(verified.value)) else Err(verified.error)
  }

  /** Everything done under the vault lock: token, proof, and the secret looked up. */
  function VerifyStage(
    env: Env, req: Request, now: int, revoked: set<string>, keys: set<string>): Result<Local, Error>
  {
    var token := VerifyToken(env.decode(req.capability), now, revoked);
    if token.Err? then Err(token.error) else
    var payload := VerifyBinding(env, req, token.value, now);
    if payload.Err? then Err(payload.error)
    else if token.value.key !in keys then Err(MissingCredential)
    else Ok(Local(token.value, payload.value))
  }

  /** Request, body size and content type policy. */
  ghost function PolicyStage(env: Env, req: Request, claims: Claims): Option<Error> {
    var enforced := EnforceRequest(claims, req.httpMethod, env.parseUrl(req.upstream));
    if enforced.Err? then Some(enforced.error)
    else if EnforceBodySize(claims, req.bodySize).Some? then EnforceBodySize(claims, req.bodySize)
    else if !ContentTypeAllowed(claims, req.contentType) then Some(ContentTypeNotAllowed)
    else None
  }

  predicate AddressesUsable(addresses: seq<Ip>) {
    addresses != [] && forall i :: 0 <= i < |addresses| ==> !BlockedIp(addresses[i])
  }

  function Fail(s: State, p: nat, error: Error): State
    requires p < |s.procs|
  {
    s.(procs := s.procs[p := s.procs[p].(status := Failing(error))])
  }

  function Verify(env: Env, req: Request, s: State, p: nat): State
    requires p < |s.procs|
  {
    match VerifyStage(env, req, s.clock, s.revoked, s.keys)
    case Err(error) => Fail(s, p, error)
    case Ok(l) => s.(procs := s.procs[p := s.procs[p].(reached := VERIFIED, local := Some(l), verifiedAt := s.clock)])
  }

  ghost function CheckPolicy(env: Env, req: Request, s: State, p: nat, l: Local): State
    requires p < |s.procs|
  {
    var refusal := PolicyStage(env, req, l.claims);
    if refusal.Some? then Fail(s, p, refusal.value)
    else s.(procs := s.procs[p := s.procs[p].(reached := CHECKED)])
  }

  function Resolve(s: State, p: nat, io: bool, addresses: seq<Ip>): State
    requires p < |s.procs|
  {
    if !io || addresses == [] then Fail(s, p, Io)
    else if !AddressesUsable(addresses) then Fail(s, p, IpNotAllowed)
    else s.(procs := s.procs[p := s.procs[p].(reached := RESOLVED, addresses := addresses)])
  }

  function ReplayKey(env: Env, req: Request, payload: ProofPayload): string {
    Replay.JoinKey(env.digest(req.capability), payload.agentId, payload.nonce)
  }

  /** The replay store may fail before it changes anything. */
  function CheckReplay(env: Env, req: Request, s: State, p: nat, l: Local, io: bool, lag: nat): State
    requires p < |s.procs|
  {
    if l.payload.Some? then
      if !io then Fail(s, p, Io) else
      var key := ReplayKey(env, req, l.payload.value);
      var (seen, verdict) := Replay.StoreCheck(env.replayOnFile, s.replay, key, l.claims.exp, s.clock - lag);
      if verdict == Replay.ReplayDetected then Fail(s.(replay := seen), p, ReplayDetected)
      else s.(replay := seen,
           history := s.history + [ReplayAccept(p, key, l.claims.exp, s.clock)],
           procs := s.procs[p := s.procs[p].(reached := PASSED, replayedAt := s.clock)])
    else if l.claims.requireProof then Fail(s, p, PolicyDenied)
    else s.(procs := s.procs[p := s.procs[p].(reached := PASSED, replayedAt := s.clock)])
  }

  /** The usage store may fail before it changes anything. */
  function CountUse(env: Env, req: Request, s: State, p: nat, l: Local, io: bool): State
    requires p < |s.procs|
  {
    if !io then Fail(s, p, Io) else
    var (uses, result) := Usage.RecordUse(s.uses, env.digest(req.capability), l.claims.maxUses);
    if result.Err? then Fail(s, p, UsageLimitExceeded)
    else s.(uses := uses, counted := s.counted + [UseAccept(p, env.digest(req.capability), result.value)],
         procs := s.procs[p := s.procs[p].(reached := COUNTED)])
  }

  /** The text of the parsed upstream URL. */
  function Resource(env: Env, req: Request): string {
    var url := env.parseUrl(req.upstream);
    if url.Some? then url.value.text else ""
  }

  function RequestRow(env: Env, req: Request, s: State, l: Local): Event<Meta> {
    var agent := if l.payload.Some? then Some(l.payload.value.agentId) else None;
    NextEvent(env.eventHash, s.audit, s.clock, "relay.request", Resource(env, req),
              RequestMeta(l.claims.capId, l.claims.key, req.httpMethod, agent))
  }

  /** Header injection, then the first audit event. */
  function Announce(env: Env, req: Request, s: State, p: nat, l: Local, io: bool): State
    requires p < |s.procs|
  {
    if !io then Fail(s, p, Io)
    else s.(audit := s.audit + [RequestRow(env, req, s, l)],
         procs := s.procs[p := s.procs[p].(reached := ANNOUNCED, row := |s.audit|)])
  }

  /** Building the client and sending; an attempt that fails may have left all the same, so it is listed too. */
  function Send(s: State, p: nat, io: bool): State
    requires p < |s.procs|
  {
    var status := if io then Running else Failing(Io);
    s.(sends := s.sends + [Sending(p, |s.audit|, |s.counted|)],
    procs := s.procs[p := s.procs[p].(reached := SENT, status := status)])
  }

  function ResponseRow(env: Env, req: Request, s: State, l: Local): Event<Meta> {
    NextEvent(env.eventHash, s.audit, s.clock, "relay.response", Resource(env, req), ResponseMeta(l.claims.capId))
  }

  /** Reading the response, sealing it, and the second audit event. */
  function Respond(env: Env, req: Request, s: State, p: nat, l: Local, io: bool): State
    requires p < |s.procs|
  {
    if !io then Fail(s, p, Io)
    else s.(audit := s.audit + [ResponseRow(env, req, s, l)],
         procs := s.procs[p := s.procs[p].(reached := RESPONDED, status := Finished)])
  }

  function DenialRow(env: Env, s: State, error: Error): Event<Meta> {
    NextEvent(env.eventHash, s.audit, s.clock, "relay.denied", "", DeniedMeta(error))
  }

  /** `relay_handler` on an error: one more audit event, whose own failure is ignored. */
  function Deny(env: Env, s: State, p: nat, error: Error, io: bool): State
    requires p < |s.procs|
  {
    s.(audit := if io then s.audit + [DenialRow(env, s, error)] else s.audit,
    procs := s.procs[p := s.procs[p].(status := Finished)])
  }

  ghost function Move(env: Env, req: Request, s: State, p: nat, io: bool, addresses: seq<Ip>, lag: nat): State
    requires p < |s.procs|
  {
    var q := s.procs[p];
    match q.status
    case Finished => s
    case Failing(error) => Deny(env, s, p, error, io)
    case Running =>
      if q.local.None? then Verify(env, req, s, p) else
      var l := q.local.value;
      if q.reached == VERIFIED then CheckPolicy(env, req, s, p, l)
      else if q.reached == CHECKED then Resolve(s, p, io, addresses)
      else if q.reached == RESOLVED then CheckReplay(env, req, s, p, l, io, lag)
      else if q.reached == PASSED then CountUse(env, req, s, p, l, io)
      else if q.reached == COUNTED then Announce(env, req, s, p, l, io)
      else if q.reached == ANNOUNCED then Send(s, p, io)
      else if q.reached == SENT then Respond(env, req, s, p, l, io)
      else s
  }

  ghost function Next(env: Env, requests: seq<Request>, s: State, action: Action): (t: State)
    requires |s.procs| == |requests|
    ensures |t.procs| == |requests|
  {
    match action
    case Tick(elapsed) => s.(clock := s.clock + elapsed)
    case Revoke(capId) => s.(revoked := s.revoked + {capId})
    case Advance(p, io, addresses, lag) => if p < |s.procs| then Move(env, requests[p], s, p, io, addresses, lag) else s
  }

  ghost function Run(env: Env, requests: seq<Request>, s: State, actions: seq<Action>): (t: State)
    requires |s.procs| == |requests|
    ensures |t.procs| == |requests|
    decreases |actions|
  {
    if actions == [] then s else Run(env, requests, Next(env, requests, s, actions[0]), actions[1..])
  }
}
