/** What a request has to meet, said of the request, its token, its proof and the stores alone. */
module RelayLaws {
  import opened Basics
  import opened Text
  import opened Policy
  import opened PolicyLaws
  import opened Audit
  import opened Relay
  import Replay
  import Usage

  // ---------- the checks before any store is asked ----------

  /** The token is for the relay, issued, begun, not expired and not revoked. */
  predicate TokenFits(claims: Claims, now: int, revoked: set<string>) {
    && claims.aud == "lockrail-relay" && claims.iat <= now + 120 && claims.nbf <= now <= claims.exp
    && !claims.revoked && claims.capId !in revoked
  }

  /** A request that needs a proof has one that was made for it by the agent of the token. */
  predicate BindingFits(env: Env, req: Request, claims: Claims, now: int) {
    claims.requireProof || claims.agentPublicKey != None ==>
      && req.proof != None && claims.agentPublicKey != None
      && ProofFits(
           req.proof.value, claims.agentPublicKey.value, env.digest(req.capability), req.httpMethod, req.upstream,
           req.bodyHash, claims.taskId, claims.purpose, now, env.signatureOk)
  }

  /** What a request holds that carries these claims. */
  function Holding(req: Request, claims: Claims): Local
    requires claims.requireProof || claims.agentPublicKey != None ==> req.proof != None
  {
    Local(claims, if claims.requireProof || claims.agentPublicKey != None then Some(req.proof.value.payload) else None)
  }

  ghost predicate TokenAndProofFit(env: Env, req: Request, now: int, revoked: set<string>, keys: set<string>) {
    && env.decode(req.capability) != None
    && TokenFits(env.decode(req.capability).value, now, revoked)
    && BindingFits(env, req, env.decode(req.capability).value, now)
    && env.decode(req.capability).value.key in keys
  }

  lemma TokenFitsIff(claims: Claims, now: int, revoked: set<string>)
    ensures VerifyToken(Some(claims), now, revoked).Ok? <==> TokenFits(claims, now, revoked)
  {}

  lemma BindingFitsIff(env: Env, req: Request, claims: Claims, now: int)
    ensures VerifyBinding(env, req, claims, now).Ok? <==> BindingFits(env, req, claims, now)
    ensures BindingFits(env, req, claims, now) ==>
              VerifyBinding(env, req, claims, now) == Ok(Holding(req, claims).payload)
    ensures (claims.requireProof || claims.agentPublicKey != None) && req.proof == None ==>
              VerifyBinding(env, req, claims, now) == Err(MissingCredential)
    ensures claims.requireProof && claims.agentPublicKey == None && req.proof != None ==>
              VerifyBinding(env, req, claims, now) == Err(PolicyDenied)
  {
    if req.proof.Some? && claims.agentPublicKey.Some? {
      ProofAcceptedIff(
        req.proof.value, claims.agentPublicKey.value, env.digest(req.capability), req.httpMethod, req.upstream,
        req.bodyHash, claims.taskId, claims.purpose, now, env.signatureOk);
    }
  }

  /** The block under the vault lock lets a request through exactly when token, proof and key are in order. */
  lemma VerifiedIff(env: Env, req: Request, now: int, revoked: set<string>, keys: set<string>)
    ensures VerifyStage(env, req, now, revoked, keys).Ok? <==> TokenAndProofFit(env, req, now, revoked, keys)
    ensures TokenAndProofFit(env, req, now, revoked, keys) ==>
              VerifyStage(env, req, now, revoked, keys) == Ok(Holding(req, env.decode(req.capability).value))
    ensures env.decode(req.capability) == None ==> VerifyStage(env, req, now, revoked, keys) == Err(BadToken)
  {
    if env.decode(req.capability).Some? {
      TokenFitsIff(env.decode(req.capability).value, now, revoked);
      BindingFitsIff(env, req, env.decode(req.capability).value, now);
    }
  }

  /** Request policy, body size and content type. */
  ghost predicate RequestFits(env: Env, req: Request, claims: Claims) {
    && env.parseUrl(req.upstream) != None && Permitted(claims, req.httpMethod, env.parseUrl(req.upstream).value)
    && (claims.maxBodySize == None || req.bodySize <= claims.maxBodySize.value)
    && (req.contentType == None || TypeStands(claims, req.contentType.value))
  }

  lemma RequestFitsIff(env: Env, req: Request, claims: Claims)
    ensures PolicyStage(env, req, claims) == None <==> RequestFits(env, req, claims)
    ensures env.parseUrl(req.upstream) == None ==> PolicyStage(env, req, claims) == Some(UrlError)
  {
    if env.parseUrl(req.upstream).Some? { EnforcedIff(claims, req.httpMethod, env.parseUrl(req.upstream).value); }
    ContentTypeAllowedIff(claims, req.contentType);
  }

  /** At least one address, and none inside. */
  predicate AddressesFit(addresses: seq<Ip>) {
    |addresses| > 0 && forall i :: 0 <= i < |addresses| ==> !Internal(addresses[i])
  }

  lemma AddressesFitIff(addresses: seq<Ip>)
    ensures AddressesUsable(addresses) <==> AddressesFit(addresses)
  {
    forall i | 0 <= i < |addresses| ensures BlockedIp(addresses[i]) <==> Internal(addresses[i]) {
      BlockedIffInternal(addresses[i]);
    }
  }

  // ---------- the stores ----------

  /** The name under which the replay store knows the proof. */
  function ProofKey(env: Env, req: Request, payload: ProofPayload): string {
    env.digest(req.capability) + ":" + payload.agentId + ":" + payload.nonce
  }

  predicate NotReplayed(env: Env, req: Request, s: State, l: Local) {
    l.payload.Some? ==>
      var key := ProofKey(env, req, l.payload.value);
      key in s.replay ==> s.replay[key] < s.clock
  }

  predicate UsesLeft(env: Env, req: Request, s: State, claims: Claims) {
    claims.maxUses.Some? ==>
      (env.digest(req.capability) in s.uses ==> s.uses[env.digest(req.capability)] < claims.maxUses.value)
      && (env.digest(req.capability) !in s.uses ==> 0 < claims.maxUses.value)
  }

  lemma CheckIsFresh(env: Env, req: Request, s: State, p: nat, l: Local)
    requires p < |s.procs| && s.procs[p].reached == RESOLVED
    ensures
      var t := CheckReplay(env, req, s, p, l, true, 0);
      if NotReplayed(env, req, s, l) && (l.payload == None ==> !l.claims.requireProof)
      then t.procs[p] == s.procs[p].(reached := PASSED, replayedAt := s.clock) && t.uses == s.uses
      else t.procs[p].status.Failing? && t.procs[p].reached == RESOLVED
  {}

  lemma CountIsAllowed(env: Env, req: Request, s: State, p: nat, l: Local)
    requires p < |s.procs| && s.procs[p].reached == PASSED
    ensures
      var t := CountUse(env, req, s, p, l, true);
      if UsesLeft(env, req, s, l.claims) then t.procs[p] == s.procs[p].(reached := COUNTED)
      else t.procs[p].status.Failing? && t.procs[p].reached == PASSED
  {}

  // ---------- one request, left alone ----------

  /** The process moves `n` times, and nothing else happens; every input and output works. */
  ghost function Alone(env: Env, requests: seq<Request>, s: State, p: nat, addresses: seq<Ip>, n: nat): (t: State)
    requires |s.procs| == |requests|
    ensures |t.procs| == |requests|
    decreases n
  {
    if n == 0 then s
    else Alone(env, requests, Next(env, requests, s, Advance(p, true, addresses, 0)), p, addresses, n - 1)
  }

  lemma {:induction false} AloneIsRun(
    env: Env, requests: seq<Request>, s: State, p: nat, addresses: seq<Ip>, actions: seq<Action>)
    requires |s.procs| == |requests|
    requires forall i :: 0 <= i < |actions| ==> actions[i] == Advance(p, true, addresses, 0)
    ensures Run(env, requests, s, actions) == Alone(env, requests, s, p, addresses, |actions|)
    decreases |actions|
  {
    if actions != [] {
      AloneIsRun(env, requests, Next(env, requests, s, actions[0]), p, addresses, actions[1..]);
    }
  }

  /** How it ends: with a response, or with a denial in the log. */
  ghost predicate Ends(t: State, p: nat, served: bool)
    requires p < |t.procs|
  {
    && t.procs[p].status == Finished && |t.audit| > 0
    && (t.procs[p].reached == RESPONDED <==> served)
    && t.audit[|t.audit| - 1].body.action == if served then "relay.response" else "relay.denied"
  }

  lemma {:induction false} FinishedStays(
    env: Env, requests: seq<Request>, s: State, p: nat, addresses: seq<Ip>, n: nat)
    requires |s.procs| == |requests| && p < |requests| && s.procs[p].status == Finished
    ensures Alone(env, requests, s, p, addresses, n) == s
  {
    if n > 0 { FinishedStays(env, requests, s, p, addresses, n - 1); }
  }

  lemma FailingEnds(env: Env, requests: seq<Request>, s: State, p: nat, addresses: seq<Ip>, n: nat)
    requires |s.procs| == |requests| && p < |requests| && n > 0
    requires s.procs[p].status.Failing? && s.procs[p].reached < RESPONDED
    ensures Ends(Alone(env, requests, s, p, addresses, n), p, false)
  {
    var t := Next(env, requests, s, Advance(p, true, addresses, 0));
    assert t == Deny(env, s, p, s.procs[p].status.error, true);
    FinishedStays(env, requests, t, p, addresses, n - 1);
  }

  /** The process runs and has passed this stage with these claims. */
  predicate At(s: State, p: nat, stage: nat, l: Local) {
    p < |s.procs| && s.procs[p].status == Running && s.procs[p].reached == stage && s.procs[p].local == Some(l)
  }

  lemma FromCounted(env: Env, requests: seq<Request>, s: State, p: nat, l: Local, addresses: seq<Ip>)
    requires |s.procs| == |requests| && At(s, p, COUNTED, l)
    ensures Ends(Alone(env, requests, s, p, addresses, 3), p, true)
  {
    var go := Advance(p, true, addresses, 0);
    var s1 := Next(env, requests, s, go);
    var s2 := Next(env, requests, s1, go);
    var s3 := Next(env, requests, s2, go);
    assert s1 == Announce(env, requests[p], s, p, l, true) && At(s1, p, ANNOUNCED, l);
    assert s2 == Send(s1, p, true) && At(s2, p, SENT, l);
    assert s3 == Respond(env, requests[p], s2, p, l, true);
    ThreeMoves(env, requests, s, p, addresses);
  }

  lemma ThreeMoves(env: Env, requests: seq<Request>, s: State, p: nat, addresses: seq<Ip>)
    requires |s.procs| == |requests|
    ensures
      var go := Advance(p, true, addresses, 0);
      Alone(env, requests, s, p, addresses, 3)
      == Next(env, requests, Next(env, requests, Next(env, requests, s, go), go), go)
  {
    var go := Advance(p, true, addresses, 0);
    var s1 := Next(env, requests, s, go);
    var s2 := Next(env, requests, s1, go);
    var s3 := Next(env, requests, s2, go);
    assert Alone(env, requests, s2, p, addresses, 1) == Alone(env, requests, s3, p, addresses, 0);
    assert Alone(env, requests, s1, p, addresses, 2) == Alone(env, requests, s2, p, addresses, 1);
  }

  lemma FromPassed(env: Env, requests: seq<Request>, s: State, p: nat, l: Local, addresses: seq<Ip>)
    requires |s.procs| == |requests| && At(s, p, PASSED, l)
    ensures Ends(Alone(env, requests, s, p, addresses, 4), p, UsesLeft(env, requests[p], s, l.claims))
  {
    var t := Next(env, requests, s, Advance(p, true, addresses, 0));
    assert t == CountUse(env, requests[p], s, p, l, true);
    CountIsAllowed(env, requests[p], s, p, l);
    if UsesLeft(env, requests[p], s, l.claims) {
      FromCounted(env, requests, t, p, l, addresses);
    } else {
      FailingEnds(env, requests, t, p, addresses, 3);
    }
  }

  /** What the stores have to say. */
  predicate StoresFit(env: Env, req: Request, s: State, l: Local) {
    && NotReplayed(env, req, s, l) && (l.payload == None ==> !l.claims.requireProof)
    && UsesLeft(env, req, s, l.claims)
  }

  lemma FromResolved(env: Env, requests: seq<Request>, s: State, p: nat, l: Local, addresses: seq<Ip>)
    requires |s.procs| == |requests| && At(s, p, RESOLVED, l)
    ensures Ends(Alone(env, requests, s, p, addresses, 5), p, StoresFit(env, requests[p], s, l))
  {
    var t := Next(env, requests, s, Advance(p, true, addresses, 0));
    assert t == CheckReplay(env, requests[p], s, p, l, true, 0);
    CheckIsFresh(env, requests[p], s, p, l);
    if NotReplayed(env, requests[p], s, l) && (l.payload == None ==> !l.claims.requireProof) {
      FromPassed(env, requests, t, p, l, addresses);
    } else {
      FailingEnds(env, requests, t, p, addresses, 4);
    }
  }

  lemma FromChecked(env: Env, requests: seq<Request>, s: State, p: nat, l: Local, addresses: seq<Ip>)
    requires |s.procs| == |requests| && At(s, p, CHECKED, l)
    ensures Ends(Alone(env, requests, s, p, addresses, 6), p,
                 AddressesFit(addresses) && StoresFit(env, requests[p], s, l))
  {
    var t := Next(env, requests, s, Advance(p, true, addresses, 0));
    assert t == Resolve(s, p, true, addresses);
    AddressesFitIff(addresses);
    if AddressesFit(addresses) {
      FromResolved(env, requests, t, p, l, addresses);
    } else {
      FailingEnds(env, requests, t, p, addresses, 5);
    }
  }

  lemma FromVerified(env: Env, requests: seq<Request>, s: State, p: nat, l: Local, addresses: seq<Ip>)
    requires |s.procs| == |requests| && At(s, p, VERIFIED, l)
    ensures Ends(Alone(env, requests, s, p, addresses, 7), p,
                 RequestFits(env, requests[p], l.claims) && AddressesFit(addresses)
                 && StoresFit(env, requests[p], s, l))
  {
    var t := Next(env, requests, s, Advance(p, true, addresses, 0));
    assert t == CheckPolicy(env, requests[p], s, p, l);
    RequestFitsIff(env, requests[p], l.claims);
    if RequestFits(env, requests[p], l.claims) {
      FromChecked(env, requests, t, p, l, addresses);
    } else {
      FailingEnds(env, requests, t, p, addresses, 6);
    }
  }

  /** All that a request has to meet. */
  ghost predicate AllFits(env: Env, req: Request, s: State, addresses: seq<Ip>) {
    && TokenAndProofFit(env, req, s.clock, s.revoked, s.keys)
    && var claims := env.decode(req.capability).value;
    RequestFits(env, req, claims) && AddressesFit(addresses) && StoresFit(env, req, s, Holding(req, claims))
  }

  /**
   A request that is left alone, while every input and output works, is answered if and only if its token, its
   proof, the request itself, the addresses of its host and the stores all meet what is written out above;
   otherwise it ends in a denial.
   */
  lemma {:induction false} AnsweredIff(
    env: Env, requests: seq<Request>, s: State, p: nat, addresses: seq<Ip>, actions: seq<Action>)
    requires |s.procs| == |requests| && p < |requests| && s.procs[p] == FRESH_PROC
    requires |actions| == 8 && forall i :: 0 <= i < |actions| ==> actions[i] == Advance(p, true, addresses, 0)
    ensures Ends(Run(env, requests, s, actions), p, AllFits(env, requests[p], s, addresses))
  {
    AloneIsRun(env, requests, s, p, addresses, actions);
    var t := Next(env, requests, s, Advance(p, true, addresses, 0));
    assert t == Verify(env, requests[p], s, p);
    VerifiedIff(env, requests[p], s.clock, s.revoked, s.keys);
    if TokenAndProofFit(env, requests[p], s.clock, s.revoked, s.keys) {
      FromVerified(env, requests, t, p, Holding(requests[p], env.decode(requests[p].capability).value), addresses);
    } else {
      FailingEnds(env, requests, t, p, addresses, 7);
    }
  }
}
