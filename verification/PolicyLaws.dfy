/** The token, proof and request checks once more, on characters, numbers and fields. */
module PolicyLaws {
  import opened Basics
  import opened Text
  import opened Glob
  import opened PathRules
  import opened Policy

  // ---------- access proofs ----------

  /** The proof was made for this request: every field of its payload fits, and the signature is good. */
  predicate ProofFits(
    proof: AccessProof, agentPublicKey: string, capabilityHash: string, httpMethod: string, upstream: string,
    bodyHash: string, taskId: Option<string>, purpose: Option<string>, now: int, signatureOk: SignatureCheck)
  {
    var p := proof.payload;
    && p.version == "LRAP/0.3" && p.capabilityHash == capabilityHash && IsUpperOf(p.httpMethod, httpMethod)
    && p.upstream == upstream && p.bodyHash == bodyHash && p.timestamp - 120 <= now <= p.timestamp + 120
    && (taskId == None || p.taskId == taskId) && (purpose == None || p.purpose == purpose)
    && signatureOk(agentPublicKey, p, proof.signature)
  }

  /** Any proof at all, signed or forged, is accepted exactly when it fits. */
  lemma ProofAcceptedIff(
    proof: AccessProof, agentPublicKey: string, capabilityHash: string, httpMethod: string, upstream: string,
    bodyHash: string, taskId: Option<string>, purpose: Option<string>, now: int, signatureOk: SignatureCheck)
    ensures
      var r := VerifyProof(proof, agentPublicKey, capabilityHash, httpMethod, upstream, bodyHash, taskId, purpose, now,
                           signatureOk);
      && (r.Ok? <==> ProofFits(proof, agentPublicKey, capabilityHash, httpMethod, upstream, bodyHash, taskId, purpose,
                               now, signatureOk))
      && (r.Ok? ==> r.value == proof.payload)
  {
    UpperMeans(httpMethod, proof.payload.httpMethod);
  }

  /** What can be wrong with a proof, in the order in which it is reported. */
  const PROOF_DEFECTS: seq<Error> :=
    [ProofVersion, ProofRequestMismatch, ProofSkew, ProofTaskMismatch, ProofPurposeMismatch, Signature]

  predicate ProofDefect(
    proof: AccessProof, agentPublicKey: string, capabilityHash: string, httpMethod: string, upstream: string,
    bodyHash: string, taskId: Option<string>, purpose: Option<string>, now: int, signatureOk: SignatureCheck,
    defect: Error)
  {
    var p := proof.payload;
    match defect
    case ProofVersion => p.version != "LRAP/0.3"
    case ProofRequestMismatch =>
      || p.capabilityHash != capabilityHash || !IsUpperOf(p.httpMethod, httpMethod)
      || p.upstream != upstream || p.bodyHash != bodyHash
    case ProofSkew => now < p.timestamp - 120 || p.timestamp + 120 < now
    case ProofTaskMismatch => taskId != None && p.taskId != taskId
    case ProofPurposeMismatch => purpose != None && p.purpose != purpose
    case Signature => !signatureOk(agentPublicKey, p, proof.signature)
    case _ => false
  }

  /** A refused proof is refused for the first defect it has. */
  lemma FirstProofDefectReported(
    proof: AccessProof, agentPublicKey: string, capabilityHash: string, httpMethod: string, upstream: string,
    bodyHash: string, taskId: Option<string>, purpose: Option<string>, now: int, signatureOk: SignatureCheck, i: nat)
    requires i < |PROOF_DEFECTS|
    ensures
      var r := VerifyProof(proof, agentPublicKey, capabilityHash, httpMethod, upstream, bodyHash, taskId, purpose, now,
                           signatureOk);
      var has := d => ProofDefect(proof, agentPublicKey, capabilityHash, httpMethod, upstream, bodyHash, taskId,
                                  purpose, now, signatureOk, d);
      r == Err(PROOF_DEFECTS[i])
      <==> has(PROOF_DEFECTS[i]) && forall j :: 0 <= j < i ==> !has(PROOF_DEFECTS[j])
  {
    UpperMeans(httpMethod, proof.payload.httpMethod);
    assert PROOF_DEFECTS[0] == ProofVersion && PROOF_DEFECTS[1] == ProofRequestMismatch
           && PROOF_DEFECTS[2] == ProofSkew && PROOF_DEFECTS[3] == ProofTaskMismatch
           && PROOF_DEFECTS[4] == ProofPurposeMismatch && PROOF_DEFECTS[5] == Signature;
  }

  // ---------- hosts ----------

  /** The text up to `n` is what is left when the dots at its end are taken away. */
  predicate Undotted(s: string, n: nat) {
    n <= |s| && (forall k :: n <= k < |s| ==> s[k] == '.') && (n > 0 ==> s[n - 1] != '.')
  }

  lemma {:induction false} TrimDotsMeans(s: string)
    ensures Undotted(s, |TrimDots(s)|) && TrimDots(s) == s[..|TrimDots(s)|]
    decreases s
  {
    if s != "" && s[|s| - 1] == '.' {
      TrimDotsMeans(s[..|s| - 1]);
      forall k | |TrimDots(s)| <= k < |s| ensures s[k] == '.' {
        assert k < |s| - 1 ==> s[..|s| - 1][k] == s[k];
      }
    }
  }

  lemma UndottedOnce(s: string, m: nat, n: nat)
    requires Undotted(s, m) && Undotted(s, n)
    ensures m == n
  {
    assert !(m < n) && !(n < m);
  }

  predicate EndsAlike(host: string, tail: string) {
    |tail| <= |host| && SameButCase(host[|host| - |tail|..], tail)
  }

  /** `*.` and a base stand for what ends in a dot and the base; any other rule stands for the host it spells. */
  predicate StandsFor(rule: string, host: string) {
    if |rule| >= 2 && rule[0] == '*' && rule[1] == '.' then EndsAlike(host, rule[1..]) else SameButCase(host, rule)
  }

  /** The rule names the host, when the dots at their ends and the case of letters do not count. */
  ghost predicate NamesHost(rule: string, host: string) {
    exists m: nat, n: nat :: Undotted(rule, m) && Undotted(host, n) && StandsFor(rule[..m], host[..n])
  }

  lemma EndsAlikeMeans(host: string, tail: string)
    ensures EndsWith(Lower(host), Lower(tail)) <==> EndsAlike(host, tail)
  {
    if |tail| <= |host| {
      var rest := host[|host| - |tail|..];
      assert Lower(rest) == Lower(host)[|host| - |tail|..];
      assert Lower(host)[|host| - |tail|..|host|] == Lower(host)[|host| - |tail|..];
      LowerAlike(rest, tail);
    }
  }

  lemma StarMeans(rule: string)
    ensures StartsWith(Lower(rule), "*.") <==> |rule| >= 2 && rule[0] == '*' && rule[1] == '.'
  {
    if |rule| >= 2 {
      var two := Lower(rule)[0..2];
      assert two[0] == LowerChar(rule[0]) && two[1] == LowerChar(rule[1]);
      if rule[0] == '*' && rule[1] == '.' { assert two == "*."; }
      if two == "*." { assert two[0] == '*' && two[1] == '.'; }
    }
  }

  /** `host_allowed` on what is left of rule and host without their dots. */
  lemma TrimmedHostMeans(rule: string, host: string)
    ensures
      var r, h := Lower(rule), Lower(host);
      (if StartsWith(r, "*.") then EndsWith(h, r[1..]) && h != r[2..] else r == h) <==> StandsFor(rule, host)
  {
    StarMeans(rule);
    LowerAlike(host, rule);
    if |rule| >= 2 {
      assert Lower(rule[1..]) == Lower(rule)[1..];
      EndsAlikeMeans(host, rule[1..]);
    }
  }

  /** A host rule allows exactly the hosts it names. */
  lemma HostAllowedIff(rule: string, host: string)
    ensures HostAllowed(rule, host) <==> NamesHost(rule, host)
  {
    var r, h := TrimDots(rule), TrimDots(host);
    TrimDotsMeans(rule);
    TrimDotsMeans(host);
    TrimmedHostMeans(r, h);
    forall m: nat, n: nat | Undotted(rule, m) && Undotted(host, n) ensures m == |r| && n == |h| {
      UndottedOnce(rule, m, |r|);
      UndottedOnce(host, n, |h|);
    }
  }

  // ---------- private hosts and addresses ----------

  /** The number an IPv4 address stands for. */
  function Number(a: Octet, b: Octet, c: Octet, d: Octet): nat { ((a * 0x100 + b) * 0x100 + c) * 0x100 + d }

  /** The first bits of the segment are those of `network`. */
  predicate InNetwork(segment: Segment, network: Segment, bits: nat)
    requires bits == 7 || bits == 10
  {
    var size := if bits == 7 then 0x200 else 0x40;
    segment / size == network / size
  }

  /** 10.0.0.0/8, 172.16.0.0/12, 192.168.0.0/16, 127.0.0.0/8, 169.254.0.0/16, 0.0.0.0; ::, ::1, fe80::/10, fc00::/7. */
  predicate Internal(ip: Ip) {
    match ip
    case V4(a, b, c, d) =>
      var n := Number(a, b, c, d);
      || 0x0A00_0000 <= n < 0x0B00_0000 || 0xAC10_0000 <= n < 0xAC20_0000 || 0xC0A8_0000 <= n < 0xC0A9_0000
      || 0x7F00_0000 <= n < 0x8000_0000 || 0xA9FE_0000 <= n < 0xA9FF_0000 || n == 0
    case V6(s0, s1, s2, s3, s4, s5, s6, s7) =>
      || (s0 + s1 + s2 + s3 + s4 + s5 + s6 == 0 && s7 / 2 == 0)
      || InNetwork(s0, 0xFE80, 10) || InNetwork(s0, 0xFC00, 7)
  }

  lemma BlockedV4(a: Octet, b: Octet, c: Octet, d: Octet)
    ensures BlockedIp(V4(a, b, c, d)) <==> Internal(V4(a, b, c, d))
  {
    assert Number(a, b, c, d) == 0x100_0000 * a + 0x1_0000 * b + 0x100 * c + d;
  }

  lemma Networks(s: Segment)
    ensures InNetwork(s, 0xFE80, 10) <==> 0xFE80 <= s < 0xFEC0
    ensures InNetwork(s, 0xFC00, 7) <==> 0xFC00 <= s < 0xFE00
  {}

  /** Exactly the internal addresses are blocked. */
  lemma BlockedIffInternal(ip: Ip)
    ensures BlockedIp(ip) <==> Internal(ip)
  {
    match ip
    case V4(a, b, c, d) => BlockedV4(a, b, c, d);
    case V6(s0, _, _, _, _, _, _, _) => Networks(s0);
  }

  const PRIVATE_ENDINGS: seq<string> := [".local", ".internal", ".lan"]

  /** A name that stands for the machine itself or for a private network. */
  ghost predicate PrivateName(name: string) {
    exists n: nat :: Undotted(name, n)
                     && (SameButCase(name[..n], "localhost")
                         || exists i :: 0 <= i < |PRIVATE_ENDINGS| && EndsAlike(name[..n], PRIVATE_ENDINGS[i]))
  }

  ghost predicate PrivateHost(host: Host) {
    match host
    case Domain(name) => PrivateName(name)
    case Address(ip) => Internal(ip)
  }

  lemma LowerLiterals()
    ensures Lower("localhost") == "localhost" && Lower(".local") == ".local"
    ensures Lower(".internal") == ".internal" && Lower(".lan") == ".lan"
  {}

  lemma PrivateNameIff(name: string)
    ensures HostIsPrivate(Domain(name)) <==> PrivateName(name)
  {
    var t := TrimDots(name);
    TrimDotsMeans(name);
    LowerLiterals();
    LowerAlike(t, "localhost");
    EndsAlikeMeans(t, ".local");
    EndsAlikeMeans(t, ".internal");
    EndsAlikeMeans(t, ".lan");
    assert PRIVATE_ENDINGS[0] == ".local" && PRIVATE_ENDINGS[1] == ".internal" && PRIVATE_ENDINGS[2] == ".lan";
    forall n: nat | Undotted(name, n) ensures n == |t| { UndottedOnce(name, n, |t|); }
  }

  lemma PrivateHostIff(host: Host)
    ensures HostIsPrivate(host) <==> PrivateHost(host)
  {
    match host
    case Domain(name) => PrivateNameIff(name);
    case Address(ip) => BlockedIffInternal(ip);
  }

  // ---------- the request, step by step ----------

  /** What a path rule stands for. */
  ghost predicate RuleStands(rule: PathRule, path: string) {
    match rule.policy
    case Any => true
    case Exact => |path| == |rule.value| && forall i :: 0 <= i < |path| ==> path[i] == rule.value[i]
    case Prefix => rule.value <= path
    case Wildcard => GlobMatches(rule.value, path)
  }

  lemma PrefixMeans(path: string, value: string)
    ensures StartsWith(path, value) <==> value <= path
  {
    if |value| <= |path| { assert path[0..|value|] == path[..|value|]; }
  }

  lemma AcceptsIff(rule: PathRule, path: string)
    ensures Accepts(rule, path) <==> RuleStands(rule, path)
  {
    PrefixMeans(path, rule.value);
    if RuleStands(rule, path) && rule.policy == Exact { assert path == rule.value; }
  }

  /** What the query policy asks of a query, a missing one being an empty one except for `NoQuery`. */
  ghost predicate QueryStands(claims: Claims, query: Option<string>) {
    var text := match query case Some(q) => q case None => "";
    match claims.queryPolicy
    case AnyQuery => true
    case NoQuery => query == None
    case ExactQuery => exists i :: 0 <= i < |claims.allowedQueryPrefixes| && claims.allowedQueryPrefixes[i] == text
    case PrefixQuery => exists i :: 0 <= i < |claims.allowedQueryPrefixes| && claims.allowedQueryPrefixes[i] <= text
  }

  lemma QueryAllowedIff(claims: Claims, query: Option<string>)
    ensures QueryAllowed(claims, query) <==> QueryStands(claims, query)
  {
    var text := if query.Some? then query.value else "";
    forall i | 0 <= i < |claims.allowedQueryPrefixes|
      ensures StartsWith(text, claims.allowedQueryPrefixes[i]) <==> claims.allowedQueryPrefixes[i] <= text
    {
      PrefixMeans(text, claims.allowedQueryPrefixes[i]);
    }
  }

  /** The scheme in lower case is listed, and is one of the two. */
  ghost predicate SchemeStands(claims: Claims, url: Url) {
    exists i :: 0 <= i < |claims.allowedSchemes| && IsLowerOf(claims.allowedSchemes[i], url.scheme)
                && (claims.allowedSchemes[i] == "https" || claims.allowedSchemes[i] == "http")
  }

  ghost predicate HostStands(hosts: seq<string>, host: string) {
    exists i :: 0 <= i < |hosts| && NamesHost(hosts[i], host)
  }

  predicate Dotless(host: string) { host == "" || host[|host| - 1] != '.' }

  predicate PortIs(url: Url, port: nat) { url.port == Some(port) || (url.port == None && port == 443) }

  ghost predicate PortStands(claims: Claims, url: Url) {
    exists i :: 0 <= i < |claims.allowedPorts| && PortIs(url, claims.allowedPorts[i])
  }

  ghost predicate MethodStands(claims: Claims, httpMethod: string) {
    exists i :: 0 <= i < |claims.allowedMethods| && IsUpperOf(claims.allowedMethods[i], httpMethod)
  }

  ghost predicate PathStands(claims: Claims, path: string) {
    exists i :: 0 <= i < |claims.allowedPaths| && RuleStands(claims.allowedPaths[i], path)
  }

  /** What the request policy asks. */
  ghost predicate Permitted(claims: Claims, httpMethod: string, url: Url) {
    && SchemeStands(claims, url) && url.host != None && url.username == "" && url.password == None
    && !PrivateHost(url.host.value) && Dotless(url.hostText) && HostStands(claims.allowedHosts, url.hostText)
    && PortStands(claims, url) && MethodStands(claims, httpMethod) && PathStands(claims, url.path)
    && QueryStands(claims, url.query)
  }

  /** The answer for the first thing asked that the request does not meet. */
  ghost function FirstRefusal(claims: Claims, httpMethod: string, url: Url): Result<Url, Error> {
    if !SchemeStands(claims, url) then Err(SchemeNotAllowed)
    else if url.host == None || url.username != "" || url.password != None then Err(HostNotAllowed)
    else if PrivateHost(url.host.value) then Err(IpNotAllowed)
    else if !Dotless(url.hostText) || !HostStands(claims.allowedHosts, url.hostText) then Err(HostNotAllowed)
    else if !PortStands(claims, url) then Err(PortNotAllowed)
    else if !MethodStands(claims, httpMethod) then Err(MethodNotAllowed)
    else if !PathStands(claims, url.path) then Err(PathNotAllowed)
    else if !QueryStands(claims, url.query) then Err(QueryNotAllowed)
    else Ok(url)
  }

  lemma SchemeStep(claims: Claims, url: Url)
    ensures SchemeStands(claims, url)
       <==> var scheme := Lower(url.scheme);
            scheme in claims.allowedSchemes && (scheme == "https" || scheme == "http")
  {
    forall i | 0 <= i < |claims.allowedSchemes|
      ensures Lower(url.scheme) == claims.allowedSchemes[i] <==> IsLowerOf(claims.allowedSchemes[i], url.scheme)
    {
      LowerMeans(url.scheme, claims.allowedSchemes[i]);
    }
  }

  lemma DotStep(host: string)
    ensures EndsWith(Lower(host), ".") <==> !Dotless(host)
  {
    if host != "" {
      var n := |host| - 1;
      assert Lower(host)[n..n + 1] == [LowerChar(host[n])];
    }
  }

  /** The case of the letters of the host makes no difference. */
  lemma HostTextIff(rule: string, host: string)
    ensures HostAllowed(rule, Lower(host)) <==> NamesHost(rule, host)
  {
    TrimDotsLower(host);
    LowerTwice(TrimDots(host));
    HostAllowedIff(rule, host);
  }

  lemma HostStep(hosts: seq<string>, host: string)
    ensures HostStands(hosts, host) <==> SomeHostAllows(hosts, Lower(host))
  {
    forall i | 0 <= i < |hosts| ensures HostAllowed(hosts[i], Lower(host)) <==> NamesHost(hosts[i], host) {
      HostTextIff(hosts[i], host);
    }
  }

  lemma MethodStep(claims: Claims, httpMethod: string)
    ensures MethodStands(claims, httpMethod) <==> Upper(httpMethod) in claims.allowedMethods
  {
    forall i | 0 <= i < |claims.allowedMethods|
      ensures Upper(httpMethod) == claims.allowedMethods[i] <==> IsUpperOf(claims.allowedMethods[i], httpMethod)
    {
      UpperMeans(httpMethod, claims.allowedMethods[i]);
    }
  }

  lemma PathStep(claims: Claims, path: string)
    ensures PathStands(claims, path) <==> PathAllowed(claims, path)
  {
    forall i | 0 <= i < |claims.allowedPaths|
      ensures Accepts(claims.allowedPaths[i], path) <==> RuleStands(claims.allowedPaths[i], path)
    {
      AcceptsIff(claims.allowedPaths[i], path);
    }
  }

  lemma PortStep(claims: Claims, url: Url)
    ensures PortStands(claims, url) <==> EffectivePort(url) in claims.allowedPorts
  {}

  /** A request is let through exactly when it is permitted; otherwise the first thing it does not meet is reported. */
  lemma EnforcedIff(claims: Claims, httpMethod: string, url: Url)
    ensures EnforceRequest(claims, httpMethod, Some(url)) == FirstRefusal(claims, httpMethod, url)
    ensures EnforceRequest(claims, httpMethod, Some(url)).Ok? <==> Permitted(claims, httpMethod, url)
  {
    SchemeStep(claims, url);
    if url.host.Some? { PrivateHostIff(url.host.value); }
    DotStep(url.hostText);
    HostStep(claims.allowedHosts, url.hostText);
    PortStep(claims, url);
    MethodStep(claims, httpMethod);
    PathStep(claims, url.path);
    QueryAllowedIff(claims, url.query);
  }

  // ---------- content types ----------

  /** The text in front of the first semicolon, blanks at its ends taken away, names a listed type in any case. */
  ghost predicate TypeStands(claims: Claims, contentType: string) {
    exists cut: nat, a: nat, b: nat, i: nat ::
      && BareType(contentType, cut) && TrimsTo(contentType[..cut], a, b)
      && i < |claims.contentTypes| && SameButCase(contentType[..cut][a..b], claims.contentTypes[i])
  }

  predicate BareType(contentType: string, cut: nat) {
    && cut <= |contentType| && (forall k :: 0 <= k < cut ==> contentType[k] != ';')
    && (cut < |contentType| ==> contentType[cut] == ';')
  }

  lemma ContentTypeAllowedIff(claims: Claims, contentType: Option<string>)
    ensures ContentTypeAllowed(claims, contentType)
       <==> contentType == None || TypeStands(claims, contentType.value)
  {
    if contentType.Some? {
      var t := contentType.value;
      var semi := FindFrom(t, ";", 0);
      var cut := if semi.Some? then semi.value else |t|;
      CutIsBare(t, semi, cut);
      var a, b := TrimMeans(t[..cut]);
      assert t[..|t|] == t;
      forall i | 0 <= i < |claims.contentTypes|
        ensures Lower(claims.contentTypes[i]) == Lower(t[..cut][a..b])
           <==> SameButCase(t[..cut][a..b], claims.contentTypes[i])
      {
        LowerAlike(t[..cut][a..b], claims.contentTypes[i]);
      }
      forall c: nat, x: nat, y: nat | BareType(t, c) && TrimsTo(t[..c], x, y)
        ensures c == cut && t[..c][x..y] == t[..cut][a..b]
      {
        assert !(c < cut) && !(cut < c);
        TrimmedIs(t[..c], x, y);
      }
    }
  }

  lemma SemicolonAt(t: string, k: nat)
    requires k < |t|
    ensures OccursAt(t, ";", k) <==> t[k] == ';'
  {
    assert t[k..k + 1] == [t[k]];
  }

  lemma CutIsBare(t: string, semi: Option<nat>, cut: nat)
    requires semi == FindFrom(t, ";", 0) && cut == if semi.Some? then semi.value else |t|
    ensures BareType(t, cut)
  {
    forall k: nat | k < |t| ensures OccursAt(t, ";", k) <==> t[k] == ';' { SemicolonAt(t, k); }
  }

  // ---------- newly issued claims ----------

  /** What a path pattern stands for: its stars for any text, else everything below a directory, or one path. */
  ghost predicate PatternStands(pattern: string, path: string) {
    if '*' in pattern then GlobMatches(pattern, path)
    else if pattern != "" && pattern[|pattern| - 1] == '/' then pattern <= path
    else path == pattern
  }

  lemma PatternMeans(pattern: string, path: string)
    ensures Accepts(ClaimRule(pattern), path) <==> PatternStands(pattern, path)
  {
    if pattern == "*" {
      assert Expand("*", [path]) == path;
    } else if '*' !in pattern && pattern != "" {
      var n := |pattern| - 1;
      assert pattern[n..n + 1] == [pattern[n]];
      PrefixMeans(path, pattern);
    }
  }

  /**
   What newly issued claims let through: https to port 443 of a public host that one of the issued hosts names,
   without credentials, by an issued method, to a path that one of the issued patterns stands for.
   */
  ghost predicate Admits(hosts: seq<string>, methods: seq<string>, paths: seq<string>, httpMethod: string, url: Url) {
    && SameButCase(url.scheme, "https") && (url.port == None || url.port == Some(443))
    && url.username == "" && url.password == None
    && url.host.Some? && !PrivateHost(url.host.value)
    && Dotless(url.hostText) && HostStands(hosts, url.hostText)
    && (exists i :: 0 <= i < |methods| && SameButCase(methods[i], httpMethod))
    && exists i :: 0 <= i < |paths| && PatternStands(paths[i], url.path)
  }

  lemma HttpsMeans(scheme: string)
    ensures Lower(scheme) == "https" <==> SameButCase(scheme, "https")
  {
    assert Lower("https") == "https";
    LowerAlike(scheme, "https");
  }

  lemma HostsMean(hosts: seq<string>, rules: seq<string>, host: string)
    requires |rules| == |hosts| && forall i :: 0 <= i < |hosts| ==> rules[i] == Lower(hosts[i])
    ensures SomeHostAllows(rules, Lower(host)) <==> HostStands(hosts, host)
  {
    forall i | 0 <= i < |hosts| ensures HostAllowed(rules[i], Lower(host)) <==> NamesHost(hosts[i], host) {
      HostCaseIrrelevant(hosts[i], host);
      HostAllowedIff(hosts[i], host);
    }
  }

  lemma MethodsMean(methods: seq<string>, rules: seq<string>, httpMethod: string)
    requires |rules| == |methods| && forall i :: 0 <= i < |methods| ==> rules[i] == Upper(methods[i])
    ensures Upper(httpMethod) in rules <==> exists i :: 0 <= i < |methods| && SameButCase(methods[i], httpMethod)
  {
    forall i | 0 <= i < |methods| ensures rules[i] == Upper(httpMethod) <==> SameButCase(methods[i], httpMethod) {
      UpperAlike(methods[i], httpMethod);
    }
  }

  lemma PathsMean(paths: seq<string>, path: string)
    ensures AnyAccepts(ClaimRules(paths), path) <==> exists i :: 0 <= i < |paths| && PatternStands(paths[i], path)
  {
    forall i | 0 <= i < |paths| ensures Accepts(ClaimRules(paths)[i], path) <==> PatternStands(paths[i], path) {
      PatternMeans(paths[i], path);
    }
  }

  /** A request passes the policy of newly issued claims if and only if it is of that kind. */
  lemma NewClaimsAdmit(
    capId: string, key: string, issuedAt: int, minutes: int, hosts: seq<string>, methods: seq<string>,
    paths: seq<string>, maxUses: Option<U64>, agentPublicKey: Option<string>, taskId: Option<string>,
    purpose: Option<string>, httpMethod: string, url: Url)
    ensures
      var claims := NewClaims(capId, key, issuedAt, minutes, hosts, methods, paths, maxUses, agentPublicKey, taskId,
                              purpose);
      EnforceRequest(claims, httpMethod, Some(url)).Ok? <==> Admits(hosts, methods, paths, httpMethod, url)
  {
    var claims := NewClaims(capId, key, issuedAt, minutes, hosts, methods, paths, maxUses, agentPublicKey, taskId,
                            purpose);
    HttpsMeans(url.scheme);
    if url.host.Some? { PrivateHostIff(url.host.value); }
    DotStep(url.hostText);
    HostsMean(hosts, claims.allowedHosts, url.hostText);
    MethodsMean(methods, claims.allowedMethods, httpMethod);
    PathsMean(paths, url.path);
    assert forall scheme :: scheme in claims.allowedSchemes <==> scheme == "https";
    assert forall port :: port in claims.allowedPorts <==> port == 443;
    DefaultsDecide(claims, httpMethod, url);
  }

  lemma DefaultsDecide(claims: Claims, httpMethod: string, url: Url)
    requires forall scheme :: scheme in claims.allowedSchemes <==> scheme == "https"
    requires forall port :: port in claims.allowedPorts <==> port == 443
    requires claims.queryPolicy == AnyQuery
    ensures EnforceRequest(claims, httpMethod, Some(url)).Ok?
       <==> && Lower(url.scheme) == "https" && (url.port == None || url.port == Some(443))
            && url.username == "" && url.password == None
            && url.host.Some? && !HostIsPrivate(url.host.value) && !EndsWith(Lower(url.hostText), ".")
            && SomeHostAllows(claims.allowedHosts, Lower(url.hostText))
            && Upper(httpMethod) in claims.allowedMethods && AnyAccepts(claims.allowedPaths, url.path)
  {}

  /** The host text is the issued host up to `m`, behind which only dots stand; the case of letters does not count. */
  predicate Spells(issued: string, m: nat, host: string) { Undotted(issued, m) && SameButCase(host, issued[..m]) }

  /** Hosts issued without a star let requests through to no host but themselves. */
  lemma PlainHostsOnly(hosts: seq<string>, host: string)
    requires forall i :: 0 <= i < |hosts| ==> !(|hosts[i]| >= 2 && hosts[i][0] == '*' && hosts[i][1] == '.')
    requires Dotless(host)
    ensures HostStands(hosts, host)
       <==> (exists i, m: nat :: 0 <= i < |hosts| && Spells(hosts[i], m, host))
  {
    assert Undotted(host, |host|) && host[..|host|] == host;
    forall i, m: nat, n: nat | 0 <= i < |hosts| && Undotted(hosts[i], m) && Undotted(host, n)
      ensures StandsFor(hosts[i][..m], host[..n]) <==> Spells(hosts[i], m, host)
    {
      UndottedOnce(host, n, |host|);
    }
  }
}
