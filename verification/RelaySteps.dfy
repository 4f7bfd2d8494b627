/** What one step of a request does, said on the fields of the state, whether its input and output works or not. */
module RelaySteps {
  import opened Basics
  import opened Text
  import opened Policy
  import opened PolicyLaws
  import opened Audit
  import opened Relay
  import opened RelayLaws
  import Replay
  import Usage

  /** The process stops where it is with this error, and nothing else changes. */
  ghost predicate Halts(s: State, t: State, p: nat, error: Error)
    requires p < |s.procs|
  {
    t == s.(procs := s.procs[p := s.procs[p].(status := Failing(error))])
  }

  /** The process comes one stage further, and nothing else changes. */
  ghost predicate Passes(s: State, t: State, p: nat)
    requires p < |s.procs|
  {
    t == s.(procs := s.procs[p := s.procs[p].(reached := s.procs[p].reached + 1)])
  }

  /** One more row in the log, numbered, linked to the row before it and hashed. */
  ghost predicate RowAdded(env: Env, s: State, t: State, action: string, resource: string, metadata: Meta) {
    && |t.audit| == |s.audit| + 1 && t.audit[..|s.audit|] == s.audit
    && var row := t.audit[|s.audit|];
    && row.body.sequence == |t.audit| && row.body.timestamp == s.clock && row.body.actor == "local-user"
    && row.body.action == action && row.body.resource == resource && row.body.metadata == metadata
    && row.body.previousHash == (if s.audit == [] then GENESIS_HASH else s.audit[|s.audit| - 1].eventHash)
    && row.eventHash == env.eventHash(row.body)
  }

  /** A token that decodes is refused for the first defect it has. */
  ghost predicate TokenRefused(claims: Claims, now: int, revoked: set<string>, error: Error) {
    forall i: nat :: i < |TOKEN_DEFECTS| ==>
                       (error == TOKEN_DEFECTS[i] <==>
                        HasDefect(claims, now, revoked, TOKEN_DEFECTS[i])
                        && forall j :: 0 <= j < i ==> !HasDefect(claims, now, revoked, TOKEN_DEFECTS[j]))
  }

  ghost predicate DefectAt(env: Env, req: Request, claims: Claims, now: int, i: nat)
    requires i < |PROOF_DEFECTS| && req.proof != None && claims.agentPublicKey != None
  {
    ProofDefect(req.proof.value, claims.agentPublicKey.value, env.digest(req.capability), req.httpMethod,
                req.upstream, req.bodyHash, claims.taskId, claims.purpose, now, env.signatureOk, PROOF_DEFECTS[i])
  }

  ghost predicate FirstDefectAt(env: Env, req: Request, claims: Claims, now: int, i: nat)
    requires i < |PROOF_DEFECTS| && req.proof != None && claims.agentPublicKey != None
  {
    DefectAt(env, req, claims, now, i) && forall j: nat :: j < i ==> !DefectAt(env, req, claims, now, j)
  }

  /** So is a proof. */
  ghost predicate ProofRefused(env: Env, req: Request, claims: Claims, now: int, error: Error)
    requires req.proof != None && claims.agentPublicKey != None
  {
    forall i: nat :: i < |PROOF_DEFECTS| ==>
                       (error == PROOF_DEFECTS[i] <==> FirstDefectAt(env, req, claims, now, i))
  }

  /** Why a request is refused under the vault lock. */
  ghost predicate LockRefused(env: Env, req: Request, s: State, error: Error) {
    if env.decode(req.capability) == None then error == BadToken else
    var claims := env.decode(req.capability).value;
    if !TokenFits(claims, s.clock, s.revoked) then TokenRefused(claims, s.clock, s.revoked, error)
    else if BindingFits(env, req, claims, s.clock) then error == MissingCredential && claims.key !in s.keys
    else if req.proof == None then error == MissingCredential
    else if claims.agentPublicKey == None then error == PolicyDenied
    else ProofRefused(env, req, claims, s.clock, error)
  }

  lemma TokenErrors(claims: Claims, now: int, revoked: set<string>)
    ensures VerifyToken(Some(claims), now, revoked).Err? ==>
              TokenRefused(claims, now, revoked, VerifyToken(Some(claims), now, revoked).error)
  {
    forall i: nat | i < |TOKEN_DEFECTS| { FirstDefectReported(claims, now, revoked, i); }
  }

  lemma SameFirstDefect(env: Env, req: Request, claims: Claims, now: int, i: nat)
    requires i < |PROOF_DEFECTS| && req.proof != None && claims.agentPublicKey != None
    ensures
      var has := d => ProofDefect(req.proof.value, claims.agentPublicKey.value, env.digest(req.capability),
                                  req.httpMethod, req.upstream, req.bodyHash, claims.taskId, claims.purpose, now,
                                  env.signatureOk, d);
      FirstDefectAt(env, req, claims, now, i)
      <==> has(PROOF_DEFECTS[i]) && forall j :: 0 <= j < i ==> !has(PROOF_DEFECTS[j])
  {
    var has := d => ProofDefect(req.proof.value, claims.agentPublicKey.value, env.digest(req.capability),
                                req.httpMethod, req.upstream, req.bodyHash, claims.taskId, claims.purpose, now,
                                env.signatureOk, d);
    assert forall j: nat :: j < |PROOF_DEFECTS| ==> (has(PROOF_DEFECTS[j]) <==> DefectAt(env, req, claims, now, j));
  }

  lemma ProofErrors(env: Env, req: Request, claims: Claims, now: int)
    requires (claims.requireProof || claims.agentPublicKey != None) && req.proof != None
    requires claims.agentPublicKey != None && VerifyBinding(env, req, claims, now).Err?
    ensures ProofRefused(env, req, claims, now, VerifyBinding(env, req, claims, now).error)
  {
    var error := VerifyBinding(env, req, claims, now).error;
    forall i: nat | i < |PROOF_DEFECTS|
      ensures error == PROOF_DEFECTS[i] <==> FirstDefectAt(env, req, claims, now, i)
    {
      FirstProofDefectReported(
        req.proof.value, claims.agentPublicKey.value, env.digest(req.capability), req.httpMethod, req.upstream,
        req.bodyHash, claims.taskId, claims.purpose, now, env.signatureOk, i);
      SameFirstDefect(env, req, claims, now, i);
    }
  }

  lemma LockErrors(env: Env, req: Request, s: State)
    ensures VerifyStage(env, req, s.clock, s.revoked, s.keys).Err? ==>
              LockRefused(env, req, s, VerifyStage(env, req, s.clock, s.revoked, s.keys).error)
  {
    if env.decode(req.capability).Some? {
      var claims := env.decode(req.capability).value;
      TokenFitsIff(claims, s.clock, s.revoked);
      TokenErrors(claims, s.clock, s.revoked);
      BindingFitsIff(env, req, claims, s.clock);
      if !BindingFits(env, req, claims, s.clock) && req.proof != None && claims.agentPublicKey != None {
        ProofErrors(env, req, claims, s.clock);
      }
    }
  }

  /** The first step verifies the token and the proof and finds the key. */
  lemma VerifyStep(env: Env, req: Request, s: State, p: nat, io: bool, addresses: seq<Ip>, lag: nat)
    requires p < |s.procs| && s.procs[p].status == Running && s.procs[p].local == None
    ensures
      var t := Move(env, req, s, p, io, addresses, lag);
      if TokenAndProofFit(env, req, s.clock, s.revoked, s.keys) then
        var l := Holding(req, env.decode(req.capability).value);
        t == s.(procs := s.procs[p := s.procs[p].(reached := VERIFIED, local := Some(l), verifiedAt := s.clock)])
      else
        exists error :: Halts(s, t, p, error) && LockRefused(env, req, s, error)
  {
    VerifiedIff(env, req, s.clock, s.revoked, s.keys);
    LockErrors(env, req, s);
    var verified := VerifyStage(env, req, s.clock, s.revoked, s.keys);
    if verified.Err? { assert Halts(s, Move(env, req, s, p, io, addresses, lag), p, verified.error); }
  }

  /** Why the request itself is refused: the first reason in the order of the checks. */
  ghost function Refusal(env: Env, req: Request, claims: Claims): Option<Error> {
    if env.parseUrl(req.upstream) == None then Some(UrlError) else
    var first := FirstRefusal(claims, req.httpMethod, env.parseUrl(req.upstream).value);
    if first.Err? then Some(first.error)
    else if claims.maxBodySize != None && req.bodySize > claims.maxBodySize.value then Some(BodyTooLarge)
    else if req.contentType != None && !TypeStands(claims, req.contentType.value) then Some(ContentTypeNotAllowed)
    else None
  }

  lemma PolicyStep(
    env: Env, req: Request, s: State, p: nat, l: Local, io: bool, addresses: seq<Ip>, lag: nat)
    requires At(s, p, VERIFIED, l)
    ensures
      var t := Move(env, req, s, p, io, addresses, lag);
      var refusal := Refusal(env, req, l.claims);
      if refusal == None then Passes(s, t, p) else Halts(s, t, p, refusal.value)
  {
    if env.parseUrl(req.upstream).Some? { EnforcedIff(l.claims, req.httpMethod, env.parseUrl(req.upstream).value); }
    ContentTypeAllowedIff(l.claims, req.contentType);
  }

  lemma ResolveStep(
    env: Env, req: Request, s: State, p: nat, l: Local, io: bool, addresses: seq<Ip>, lag: nat)
    requires At(s, p, CHECKED, l)
    ensures
      var t := Move(env, req, s, p, io, addresses, lag);
      if !io || |addresses| == 0 then Halts(s, t, p, Io)
      else if !AddressesFit(addresses) then Halts(s, t, p, IpNotAllowed)
      else t == s.(procs := s.procs[p := s.procs[p].(reached := RESOLVED, addresses := addresses)])
  {
    AddressesFitIff(addresses);
  }

  /** The key is held with an expiry not yet passed at the reading of the clock. */
  predicate HeldAt(env: Env, req: Request, s: State, payload: ProofPayload, reading: int) {
    var key := ProofKey(env, req, payload);
    key in s.replay && s.replay[key] >= reading
  }

  /** Only the replay store may have changed, and in it only what had expired, and the key that is checked. */
  ghost predicate ReplayKept(s: State, t: State, key: string, reading: int) {
    && t == s.(replay := t.replay, history := t.history, procs := t.procs)
    && forall k :: k != key && k in s.replay && s.replay[k] >= reading ==> k in t.replay && t.replay[k] == s.replay[k]
  }

  lemma ReplayStep(
    env: Env, req: Request, s: State, p: nat, l: Local, io: bool, addresses: seq<Ip>, lag: nat)
    requires At(s, p, RESOLVED, l)
    ensures
      var t := Move(env, req, s, p, io, addresses, lag);
      var passed := s.procs[p := s.procs[p].(reached := PASSED, replayedAt := s.clock)];
      if l.payload == None then
        if l.claims.requireProof then Halts(s, t, p, PolicyDenied) else t == s.(procs := passed)
      else if !io then Halts(s, t, p, Io)
      else
        var key := ProofKey(env, req, l.payload.value);
        && ReplayKept(s, t, key, s.clock - lag)
        && if HeldAt(env, req, s, l.payload.value, s.clock - lag) then
             && t.procs == s.procs[p := s.procs[p].(status := Failing(ReplayDetected))] && t.history == s.history
             && key in t.replay && t.replay[key] == s.replay[key]
           else
             && t.procs == passed && t.history == s.history + [ReplayAccept(p, key, l.claims.exp, s.clock)]
             && key in t.replay && t.replay[key] == l.claims.exp
  {}

  lemma CountStep(
    env: Env, req: Request, s: State, p: nat, l: Local, io: bool, addresses: seq<Ip>, lag: nat)
    requires At(s, p, PASSED, l)
    ensures
      var t := Move(env, req, s, p, io, addresses, lag);
      if !io then Halts(s, t, p, Io)
      else if !UsesLeft(env, req, s, l.claims) then Halts(s, t, p, UsageLimitExceeded)
      else
        var d := env.digest(req.capability);
        var number := ((if d in s.uses then s.uses[d] else 0) + 1) % TWO_TO_64;
        && t == s.(uses := t.uses, counted := t.counted, procs := t.procs)
        && t.procs == s.procs[p := s.procs[p].(reached := COUNTED)]
        && t.uses - {d} == s.uses - {d} && d in t.uses && t.uses[d] == number
        && t.counted == s.counted + [UseAccept(p, d, number)]
  {}

  lemma AnnounceStep(
    env: Env, req: Request, s: State, p: nat, l: Local, io: bool, addresses: seq<Ip>, lag: nat)
    requires At(s, p, COUNTED, l) && env.parseUrl(req.upstream) != None
    ensures
      var t := Move(env, req, s, p, io, addresses, lag);
      if !io then Halts(s, t, p, Io)
      else
        var agent := if l.payload == None then None else Some(l.payload.value.agentId);
        && t == s.(audit := t.audit, procs := t.procs)
        && t.procs == s.procs[p := s.procs[p].(reached := ANNOUNCED, row := |s.audit|)]
        && RowAdded(env, s, t, "relay.request", env.parseUrl(req.upstream).value.text,
                    RequestMeta(l.claims.capId, l.claims.key, req.httpMethod, agent))
  {}

  lemma SendStep(
    env: Env, req: Request, s: State, p: nat, l: Local, io: bool, addresses: seq<Ip>, lag: nat)
    requires At(s, p, ANNOUNCED, l)
    ensures
      var t := Move(env, req, s, p, io, addresses, lag);
      && t == s.(sends := t.sends, procs := t.procs)
      && t.sends == s.sends + [Sending(p, |s.audit|, |s.counted|)]
      && t.procs == s.procs[p := s.procs[p].(reached := SENT, status := if io then Running else Failing(Io))]
  {}

  lemma RespondStep(
    env: Env, req: Request, s: State, p: nat, l: Local, io: bool, addresses: seq<Ip>, lag: nat)
    requires At(s, p, SENT, l) && env.parseUrl(req.upstream) != None
    ensures
      var t := Move(env, req, s, p, io, addresses, lag);
      if !io then Halts(s, t, p, Io)
      else
        && t == s.(audit := t.audit, procs := t.procs)
        && t.procs == s.procs[p := s.procs[p].(reached := RESPONDED, status := Finished)]
        && RowAdded(env, s, t, "relay.response", env.parseUrl(req.upstream).value.text, ResponseMeta(l.claims.capId))
  {}

  /** A failing process is finished by the next step, which logs the error unless the log cannot be written. */
  lemma DenyStep(
    env: Env, req: Request, s: State, p: nat, error: Error, io: bool, addresses: seq<Ip>, lag: nat)
    requires p < |s.procs| && s.procs[p].status == Failing(error)
    ensures
      var t := Move(env, req, s, p, io, addresses, lag);
      && t == s.(audit := t.audit, procs := t.procs)
      && t.procs == s.procs[p := s.procs[p].(status := Finished)]
      && if io then RowAdded(env, s, t, "relay.denied", "", DeniedMeta(error)) else t.audit == s.audit
  {}
}
