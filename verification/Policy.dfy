/** The checks of one request: capability token, access proof, and request policy. */
module Policy {
  import opened Basics
  import opened Text
  import opened PathRules

  const MAX_PROOF_SKEW_SECONDS: int := 120
  const DEFAULT_AUDIENCE: string := "lockrail-relay"
  const LRAP_VERSION: string := "LRAP/0.3"

  datatype QueryPolicy = AnyQuery | NoQuery | ExactQuery | PrefixQuery

  datatype Claims = Claims(
    capId: string, key: string, aud: string, iat: int, nbf: int, exp: int,
    allowedSchemes: seq<string>, allowedHosts: seq<string>, allowedPorts: seq<nat>, allowedMethods: seq<string>,
    allowedPaths: seq<PathRule>, queryPolicy: QueryPolicy, allowedQueryPrefixes: seq<string>,
    contentTypes: seq<string>, maxBodySize: Option<nat>, maxUses: Option<U64>,
    requireProof: bool, agentPublicKey: Option<string>, taskId: Option<string>, purpose: Option<string>, revoked: bool)

  datatype Error =
    | BadToken | AudienceMismatch
    | CapabilityIssuedInFuture | CapabilityNotYetValid | CapabilityExpired | CapabilityRevoked
    | ProofVersion | ProofRequestMismatch | ProofSkew | ProofTaskMismatch | ProofPurposeMismatch | Signature
    | UrlError | SchemeNotAllowed | HostNotAllowed | IpNotAllowed | PortNotAllowed | MethodNotAllowed
    | PathNotAllowed | QueryNotAllowed | ContentTypeNotAllowed | BodyTooLarge
    | MissingCredential | PolicyDenied | ReplayDetected | UsageLimitExceeded | Io

  /**
   `CapabilityToken::verify`; `decoded` is the payload when the token has three parts, the
   prefix, and a good issuer signature over it.
   */
  function VerifyToken(decoded: Option<Claims>, now: int, revoked: set<string>): (r: Result<Claims, Error>)
    ensures r.Ok? ==> decoded == Some(r.value)
  {
    if decoded.None? then Err(BadToken) else
    var claims := decoded.value;
    if claims.aud != DEFAULT_AUDIENCE then Err(AudienceMismatch)
    else if claims.iat > now + MAX_PROOF_SKEW_SECONDS then Err(CapabilityIssuedInFuture)
    else if claims.nbf > now then Err(CapabilityNotYetValid)
    else if claims.exp < now then Err(CapabilityExpired)
    else if claims.revoked || claims.capId in revoked then Err(CapabilityRevoked)
    else Ok(claims)
  }

  /** What can be wrong with a token that decodes, in the order in which it is reported. */
  const TOKEN_DEFECTS: seq<Error> :=
    [AudienceMismatch, CapabilityIssuedInFuture, CapabilityNotYetValid, CapabilityExpired, CapabilityRevoked]

  predicate HasDefect(claims: Claims, now: int, revoked: set<string>, defect: Error) {
    match defect
    case AudienceMismatch => claims.aud != DEFAULT_AUDIENCE
    case CapabilityIssuedInFuture => claims.iat - now > MAX_PROOF_SKEW_SECONDS
    case CapabilityNotYetValid => now < claims.nbf
    case CapabilityExpired => now > claims.exp
    case CapabilityRevoked => claims.revoked || claims.capId in revoked
    case _ => false
  }

  /** A token is refused exactly when it has a defect, and for the first one it has. */
  lemma FirstDefectReported(claims: Claims, now: int, revoked: set<string>, i: nat)
    requires i < |TOKEN_DEFECTS|
    ensures VerifyToken(Some(claims), now, revoked).Ok?
       <==> forall j :: 0 <= j < |TOKEN_DEFECTS| ==> !HasDefect(claims, now, revoked, TOKEN_DEFECTS[j])
    ensures VerifyToken(Some(claims), now, revoked) == Err(TOKEN_DEFECTS[i])
       <==> HasDefect(claims, now, revoked, TOKEN_DEFECTS[i])
            && forall j :: 0 <= j < i ==> !HasDefect(claims, now, revoked, TOKEN_DEFECTS[j])
  {
    assert TOKEN_DEFECTS[0] == AudienceMismatch && TOKEN_DEFECTS[1] == CapabilityIssuedInFuture
           && TOKEN_DEFECTS[2] == CapabilityNotYetValid && TOKEN_DEFECTS[3] == CapabilityExpired
           && TOKEN_DEFECTS[4] == CapabilityRevoked;
  }

  datatype ProofPayload = ProofPayload(
    version: string, agentId: string, capabilityHash: string, httpMethod: string, upstream: string, bodyHash: string,
    nonce: string, timestamp: int, taskId: Option<string>, purpose: Option<string>)

  datatype AccessProof = AccessProof(payload: ProofPayload, signature: string)

  /** Whether a signature by a public key over a payload is good. */
  type SignatureCheck = (string, ProofPayload, string) -> bool

  /** `AccessProof::verify`. */
  function VerifyProof(
    proof: AccessProof, agentPublicKey: string, capabilityHash: string, httpMethod: string, upstream: string,
    bodyHash: string, taskId: Option<string>, purpose: Option<string>, now: int, signatureOk: SignatureCheck)
    : Result<ProofPayload, Error>
  {
    var p := proof.payload;
    if p.version != LRAP_VERSION then Err(ProofVersion)
    else if p != p.(version := LRAP_VERSION, capabilityHash := capabilityHash, httpMethod := Upper(httpMethod),
                 upstream := upstream, bodyHash := bodyHash) then Err(ProofRequestMismatch)
    else if now - p.timestamp > MAX_PROOF_SKEW_SECONDS || p.timestamp - now > MAX_PROOF_SKEW_SECONDS then Err(ProofSkew)
    else if taskId.Some? && p.taskId != taskId then Err(ProofTaskMismatch)
    else if purpose.Some? && p.purpose != purpose then Err(ProofPurposeMismatch)
    else if !signatureOk(agentPublicKey, p, proof.signature) then Err(Signature)
    else Ok(p)
  }

  /** `AccessProof::sign`. */
  function SignedProof(
    sign: ProofPayload -> string, agentId: string, capabilityHash: string, httpMethod: string, upstream: string,
    bodyHash: string, nonce: string, now: int, taskId: Option<string>, purpose: Option<string>): AccessProof
  {
    var payload := ProofPayload(LRAP_VERSION, agentId, capabilityHash, Upper(httpMethod), upstream, bodyHash, nonce,
                                now, taskId, purpose);
    AccessProof(payload, sign(payload))
  }

  /** A signed proof is good for exactly its own request, inside the skew window, for the task and purpose asked for. */
  lemma SignedProofVerifies(
    sign: ProofPayload -> string, signatureOk: SignatureCheck, agentPublicKey: string, agentId: string, nonce: string,
    signedAt: int, capabilityHash: string, httpMethod: string, upstream: string, bodyHash: string,
    taskId: Option<string>, purpose: Option<string>, usedHash: string, usedMethod: string, usedUpstream: string,
    usedBody: string, wantedTask: Option<string>, wantedPurpose: Option<string>, now: int)
    requires forall payload :: signatureOk(agentPublicKey, payload, sign(payload))
    ensures
      var proof := SignedProof(sign, agentId, capabilityHash, httpMethod, upstream, bodyHash, nonce, signedAt, taskId,
                               purpose);
      VerifyProof(proof, agentPublicKey, usedHash, usedMethod, usedUpstream, usedBody, wantedTask, wantedPurpose, now,
                  signatureOk).Ok? <==>
      && usedHash == capabilityHash && Upper(usedMethod) == Upper(httpMethod) && usedUpstream == upstream &&
         usedBody == bodyHash
      && -MAX_PROOF_SKEW_SECONDS <= now - signedAt <= MAX_PROOF_SKEW_SECONDS
      && (wantedTask.None? || wantedTask == taskId) && (wantedPurpose.None? || wantedPurpose == purpose)
  {}

  type Octet = n: nat | n < 0x100

  type Segment = n: nat | n < 0x1_0000

  datatype Ip =
    | V4(a: Octet, b: Octet, c: Octet, d: Octet)
    | V6(s0: Segment, s1: Segment, s2: Segment, s3: Segment, s4: Segment, s5: Segment, s6: Segment, s7: Segment)

  /** Loopback, private, link-local and unspecified addresses, of both families. */
  predicate BlockedIp(ip: Ip) {
    match ip
    case V4(a, b, c, d) =>
      || a == 10 || (a == 172 && 16 <= b < 32) || (a == 192 && b == 168)
      || a == 127 || (a == 169 && b == 254) || (a == 0 && b == 0 && c == 0 && d == 0)
    case V6(s0, s1, s2, s3, s4, s5, s6, s7) =>
      || (s0 == 0 && s1 == 0 && s2 == 0 && s3 == 0 && s4 == 0 && s5 == 0 && s6 == 0 && s7 <= 1)
      || 0xFE80 <= s0 < 0xFEC0 || 0xFC00 <= s0 < 0xFE00
  }

  datatype Host = Domain(name: string) | Address(ip: Ip)

  /** A parsed upstream URL: its whole `text`, its `hostText`, the explicit or known default `port`, and the rest. */
  datatype Url = Url(
    text: string, scheme: string, username: string, password: Option<string>, host: Option<Host>, hostText: string,
    port: Option<nat>, path: string, query: Option<string>)

  function TrimDots(s: string): (r: string)
    ensures r <= s && (r != "" ==> r[|r| - 1] != '.')
  {
    if s != "" && s[|s| - 1] == '.' then TrimDots(s[..|s| - 1]) else s
  }

  function NormalHost(host: string): string { Lower(TrimDots(host)) }

  /** `host_is_private`. */
  predicate HostIsPrivate(host: Host) {
    match host
    case Domain(name) =>
      var normal := NormalHost(name);
      normal == "localhost" || EndsWith(normal, ".local") || EndsWith(normal, ".internal") || EndsWith(normal, ".lan")
    case Address(ip) => BlockedIp(ip)
  }

  /** `host_allowed`. */
  predicate HostAllowed(rule: string, host: string) {
    var r := NormalHost(rule);
    var h := NormalHost(host);
    if StartsWith(r, "*.") then EndsWith(h, r[1..]) && h != r[2..] else r == h
  }

  lemma SuffixMeansBelow(host: string, base: string)
    ensures EndsWith(host, "." + base) <==> exists sub :: host == sub + "." + base
  {
    var tail := "." + base;
    if EndsWith(host, tail) {
      var sub := host[..|host| - |tail|];
      assert host == sub + tail == sub + "." + base;
    }
    if sub :| host == sub + "." + base {
      assert host == sub + tail && host[|sub|..] == tail;
    }
  }

  /** A starred host rule stands for the hosts below its base, never for the base itself. */
  lemma StarredHostMeansBelow(rule: string, base: string, host: string)
    requires NormalHost(rule) == ['*'] + ("." + base)
    ensures HostAllowed(rule, host) <==> exists sub :: NormalHost(host) == sub + "." + base
  {
    var r, h := NormalHost(rule), NormalHost(host);
    assert r[..2] == "*." && r[1..] == "." + base && r[2..] == base;
    SuffixMeansBelow(h, base);
    if EndsWith(h, "." + base) { assert |h| > |base|; }
  }

  ghost predicate PathAllowed(claims: Claims, path: string) {
    AnyAccepts(claims.allowedPaths, path)
  }

  predicate QueryAllowed(claims: Claims, query: Option<string>) {
    var text := if query.Some? then query.value else "";
    match claims.queryPolicy
    case AnyQuery => true
    case NoQuery => query.None?
    case ExactQuery => text in claims.allowedQueryPrefixes
    case PrefixQuery => exists i ::
      0 <= i < |claims.allowedQueryPrefixes| && StartsWith(text, claims.allowedQueryPrefixes[i])
  }

  function EffectivePort(url: Url): nat { if url.port.Some? then url.port.value else 443 }

  predicate SomeHostAllows(rules: seq<string>, host: string) {
    exists i :: 0 <= i < |rules| && HostAllowed(rules[i], host)
  }

  /** `enforce_request`, on an upstream that has been parsed or failed to parse. */
  ghost function EnforceRequest(claims: Claims, httpMethod: string, upstream: Option<Url>): Result<Url, Error> {
    if upstream.None? then Err(UrlError) else
    var url := upstream.value;
    var scheme := Lower(url.scheme);
    if scheme !in claims.allowedSchemes then Err(SchemeNotAllowed)
    else if scheme != "https" && scheme != "http" then Err(SchemeNotAllowed)
    else if url.host.None? then Err(HostNotAllowed)
    else if url.username != "" || url.password.Some? then Err(HostNotAllowed)
    else if HostIsPrivate(url.host.value) then Err(IpNotAllowed)
    else if EndsWith(Lower(url.hostText), ".") then Err(HostNotAllowed)
    else if !SomeHostAllows(claims.allowedHosts, Lower(url.hostText)) then Err(HostNotAllowed)
    else if EffectivePort(url) !in claims.allowedPorts then Err(PortNotAllowed)
    else if Upper(httpMethod) !in claims.allowedMethods then Err(MethodNotAllowed)
    else if !PathAllowed(claims, url.path) then Err(PathNotAllowed)
    else if !QueryAllowed(claims, url.query) then Err(QueryNotAllowed)
    else Ok(url)
  }

  function EnforceBodySize(claims: Claims, size: nat): Option<Error> {
    if claims.maxBodySize.Some? && size > claims.maxBodySize.value then Some(BodyTooLarge) else None
  }

  /** `enforce_content_type`. */
  predicate ContentTypeAllowed(claims: Claims, contentType: Option<string>) {
    contentType.Some? ==>
      var semi := FindFrom(contentType.value, ";", 0);
      var bare := if semi.Some? then contentType.value[..semi.value] else contentType.value;
      exists i :: 0 <= i < |claims.contentTypes| && Lower(claims.contentTypes[i]) == Lower(Trim(bare))
  }

  // ---------- claims as they are issued ----------

  /** `CapabilityClaims::new`, with its defaults: https on port 443, any query, JSON or form bodies up to a mebibyte. */
  function NewClaims(
    capId: string, key: string, issuedAt: int, minutes: int, hosts: seq<string>, methods: seq<string>,
    paths: seq<string>, maxUses: Option<U64>, agentPublicKey: Option<string>, taskId: Option<string>,
    purpose: Option<string>): Claims
  {
    Claims(capId, key, DEFAULT_AUDIENCE, issuedAt, issuedAt, issuedAt + minutes * 60,
           ["https"], seq(|hosts|, i requires 0 <= i < |hosts| => Lower(hosts[i])), [443],
           seq(|methods|, i requires 0 <= i < |methods| => Upper(methods[i])),
           ClaimRules(paths), AnyQuery, [], ["application/json", "application/x-www-form-urlencoded"],
           Some(1024 * 1024),
           maxUses, agentPublicKey.Some?, agentPublicKey, taskId, purpose, false)
  }

  /** Newly issued claims verify exactly from their issue until their last minute, unless revoked. */
  lemma NewClaimsValidity(
    capId: string, key: string, issuedAt: int, minutes: int, hosts: seq<string>, methods: seq<string>,
    paths: seq<string>, maxUses: Option<U64>, agentPublicKey: Option<string>, taskId: Option<string>,
    purpose: Option<string>, now: int, revoked: set<string>)
    ensures
      var claims := NewClaims(capId, key, issuedAt, minutes, hosts, methods, paths, maxUses, agentPublicKey, taskId,
                              purpose);
      VerifyToken(Some(claims), now, revoked).Ok? <==> issuedAt <= now <= issuedAt + minutes * 60 && capId !in revoked
  {}

  lemma LowerTwice(s: string)
    ensures Lower(Lower(s)) == Lower(s)
  {}

  lemma {:induction false} TrimDotsLower(s: string)
    ensures TrimDots(Lower(s)) == Lower(TrimDots(s))
    decreases s
  {
    if s != "" {
      assert Lower(s)[..|s| - 1] == Lower(s[..|s| - 1]);
      if s[|s| - 1] == '.' { TrimDotsLower(s[..|s| - 1]); }
    }
  }

  /** Host rules do not care about the case of letters on either side. */
  lemma HostCaseIrrelevant(rule: string, host: string)
    ensures HostAllowed(Lower(rule), Lower(host)) <==> HostAllowed(rule, host)
  {
    TrimDotsLower(rule);
    TrimDotsLower(host);
    LowerTwice(TrimDots(rule));
    LowerTwice(TrimDots(host));
  }
}
