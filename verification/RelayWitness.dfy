/** One concrete relay whose proof-bound request goes upstream twice. */
module RelayWitness {
  import opened Basics
  import opened Text
  import opened Policy
  import opened PolicyLaws
  import opened Audit
  import opened Relay
  import opened RelayResults

  const WITNESS_URL: Url :=
    Url("https://api.example/", "https", "", None, Some(Domain("api.example")), "api.example", None, "/", None)

  /** Claims that expire at sixty, for one host, bound to an agent key. */
  const WITNESS_CLAIMS: Claims :=
    NewClaims("cap", "key", 0, 1, ["api.example"], ["GET"], ["*"], None, Some("agent-key"), None, None)

  const WITNESS_PROOF: AccessProof :=
    SignedProof((payload: ProofPayload) => "sig", "agent", "token", "GET", "https://api.example/", "body", "nonce", 60,
                None, None)

  const WITNESS_REQUEST: Request :=
    Request("token", "GET", "https://api.example/", "body", 0, None, Some(WITNESS_PROOF))

  const WITNESS_ENV: Env :=
    Env((token: string) => token, (token: string) => Some(WITNESS_CLAIMS), (url: string) => Some(WITNESS_URL),
        (key: string, payload: ProofPayload, signature: string) => true, (input: HashInput<Meta>) => "hash", true)

  const WITNESS_START: State := State(60, {}, {"key"}, map[], [], map[], [], [], [], [FRESH_PROC, FRESH_PROC])

  lemma WitnessVerifies()
    ensures
      var r := VerifyStage(WITNESS_ENV, WITNESS_REQUEST, 60, {}, {"key"});
      r.Ok? && r.value.claims == WITNESS_CLAIMS && r.value.payload.Some?
  {
    NewClaimsValidity("cap", "key", 0, 1, ["api.example"], ["GET"], ["*"], None, Some("agent-key"), None, None, 60, {});
    SignedProofVerifies((payload: ProofPayload) => "sig", WITNESS_ENV.signatureOk, "agent-key", "agent", "nonce", 60,
                        "token", "GET", "https://api.example/", "body", None, None,
                        "token", "GET", "https://api.example/", "body", None, None, 60);
  }

  lemma PublicName(name: string)
    requires name == "api.example"
    ensures NormalHost(name) == name && !HostIsPrivate(Domain(name)) && !EndsWith(Lower(name), ".")
    ensures !StartsWith(name, "*.")
  {
    assert Lower(name) == name;
    assert NormalHost(name) == name;
    assert name[0] == 'a' && name[|name| - 1] == 'e' && |name| == 11;
    DiffersAtEnd(name, ".local");
    DiffersAtEnd(name, ".internal");
    DiffersAtEnd(name, ".lan");
    DiffersAtEnd(name, ".");
    assert "*."[0] == '*' && name[0..2][0] == name[0];
    assert |"localhost"| == 9;
  }

  lemma DiffersAtEnd(text: string, tail: string)
    requires text != "" && tail != "" && text[|text| - 1] != tail[|tail| - 1]
    ensures !EndsWith(text, tail)
  {
    var n := |text| - |tail|;
    if n >= 0 { assert text[n..n + |tail|][|tail| - 1] == text[|text| - 1]; }
  }

  lemma WitnessIsAdmitted()
    ensures Admits(["api.example"], ["GET"], ["*"], "GET", WITNESS_URL)
  {
    PublicName("api.example");
    LowerHttps();
    AdmitsOne("api.example", "GET", WITNESS_URL);
  }

  lemma LowerHttps()
    ensures Lower("https") == "https"
  {}

  /** A public host, rule and request naming it alike, any path. */
  lemma AdmitsOne(name: string, httpMethod: string, url: Url)
    requires NormalHost(name) == name && !StartsWith(name, "*.") && !HostIsPrivate(Domain(name))
    requires !EndsWith(Lower(name), ".")
    requires Lower(url.scheme) == "https" && url.port == None && url.username == "" && url.password == None
    requires url.host == Some(Domain(name)) && url.hostText == name
    ensures Admits([name], [httpMethod], ["*"], httpMethod, url)
  {
    NamedByItself([name], name);
    PrivateNameIff(name);
    DotStep(name);
    HttpsMeans(url.scheme);
    AnyPath(["*"], url.path);
    SpelledTheSame([httpMethod], httpMethod);
  }

  lemma NamedByItself(hosts: seq<string>, name: string)
    requires |hosts| == 1 && hosts[0] == name && NormalHost(name) == name && !StartsWith(name, "*.")
    ensures HostStands(hosts, name)
  {
    HostAllowedIff(name, name);
    assert NamesHost(hosts[0], name);
  }

  lemma AnyPath(paths: seq<string>, path: string)
    requires |paths| == 1 && paths[0] == "*"
    ensures exists i :: 0 <= i < |paths| && PatternStands(paths[i], path)
  {
    PatternMeans(paths[0], path);
    assert PatternStands(paths[0], path);
  }

  lemma SpelledTheSame(methods: seq<string>, httpMethod: string)
    requires |methods| == 1 && methods[0] == httpMethod
    ensures exists i :: 0 <= i < |methods| && SameButCase(methods[i], httpMethod)
  {
    assert SameButCase(methods[0], httpMethod);
  }

  lemma WitnessIsEnforced()
    ensures EnforceRequest(WITNESS_CLAIMS, "GET", Some(WITNESS_URL)).Ok?
  {
    WitnessIsAdmitted();
    NewClaimsAdmit("cap", "key", 0, 1, ["api.example"], ["GET"], ["*"], None, Some("agent-key"), None, None, "GET",
                   WITNESS_URL);
  }

  lemma WitnessPasses()
    ensures PolicyStage(WITNESS_ENV, WITNESS_REQUEST, WITNESS_CLAIMS).None?
  {
    WitnessIsEnforced();
  }

  /** So there are an environment, a request and a run in which one proof goes upstream twice. */
  lemma SomeProofIsSentTwice()
    ensures exists env: Env, req: Request, start: State, actions: seq<Action>, l: Local ::
              Initial(env, [req, req], start) && env.replayOnFile && start.replay == map[] && l.payload.Some? &&
              BothAt(Run(env, [req, req], start, actions), SENT, l)
  {
    WitnessVerifies();
    WitnessPasses();
    var l := VerifyStage(WITNESS_ENV, WITNESS_REQUEST, 60, {}, {"key"}).value;
    var actions := OneProofSentTwice(WITNESS_ENV, WITNESS_REQUEST, WITNESS_START, l);
    assert BothAt(Run(WITNESS_ENV, [WITNESS_REQUEST, WITNESS_REQUEST], WITNESS_START, actions), SENT, l);
  }
}
