/** A text whose redaction copies part of a detected token: a database URL that overlaps the token evicts it. */
module MixedOverlap {
  import opened Basics
  import opened Text
  import opened Findings
  import opened TokenRuns
  import opened Visits
  import opened Scanners
  import opened FieldScanners
  import opened BlockScanners
  import opened Replace
  import opened Seal

  const TEXT: string := "token=secretredis://@aaaaaaa"

  // ---------- two partially overlapping spans ----------

  predicate Spanning(f: Finding, start: nat, end: nat) { f.start == start && f.end == end }

  predicate OneOfTwo(f: Finding, a: nat, b: nat, c: nat, d: nat) { Spanning(f, a, c) || Spanning(f, b, d) }

  /** Of spans from `a` to `c` and longer ones from `b` to `d` that overlap them, no short one stays. */
  lemma ShortOneGoes(sorted: seq<Finding>, a: nat, b: nat, c: nat, d: nat, u: Finding, i: nat)
    requires a < b < c < d && c - a < d - b && KeySorted(sorted) && u in sorted && Spanning(u, b, d)
    requires i < |sorted| && Spanning(sorted[i], a, c)
    ensures !Stays(sorted, i)
  {
    var j :| 0 <= j < |sorted| && sorted[j] == u;
    assert !KeyLeq(sorted[j], sorted[i]) && Overlap(sorted[i], sorted[j]);
  }

  /** So no position in front of the longer ones lies in a span that stays. */
  lemma FrontIsUncovered(raw: seq<Finding>, a: nat, b: nat, c: nat, d: nat, u: Finding, p: nat)
    requires a < b < c < d && c - a < d - b && u in raw && Spanning(u, b, d) && p < b
    requires forall f :: f in raw ==> OneOfTwo(f, a, b, c, d)
    ensures !InStaying(raw, p)
  {
    var sorted := SortByKey(raw);
    SortSorts(raw);
    SortKeepsMembers(raw);
    forall i: nat | i < |sorted| && sorted[i].start <= p < sorted[i].end ensures !Stays(sorted, i) {
      assert sorted[i] in raw;
      ShortOneGoes(sorted, a, b, c, d, u, i);
    }
  }

  // ---------- what stands in the text ----------

  /** Characters that the text does not hold. */
  predicate IsForeign(ch: char) {
    ch == '-' || ch == '_' || ch == '.' || ch == 'A' || ch == 'J' || ch == 'y' || ch == 'w' || ch == ' '
  }

  predicate HasForeign(s: string) { exists i :: 0 <= i < |s| && IsForeign(s[i]) }

  lemma TextIsNative()
    ensures |TEXT| == 28 && forall i :: 0 <= i < |TEXT| ==> !IsForeign(TEXT[i]) && !('A' <= TEXT[i] <= 'Z')
  {}

  lemma TextIsLower()
    ensures Lower(TEXT) == TEXT
  {
    TextIsNative();
    LowerIsSame(TEXT);
  }

  lemma OccursChar(text: string, s: string, p: int, i: nat)
    requires OccursAt(text, s, p) && i < |s|
    ensures text[p + i] == s[i]
  {
    assert text[p..p + |s|][i] == text[p + i];
  }

  lemma ForeignIsAbsent(s: string, p: int)
    requires HasForeign(s)
    ensures !OccursAt(TEXT, s, p)
  {
    TextIsNative();
    var i :| 0 <= i < |s| && IsForeign(s[i]);
    if OccursAt(TEXT, s, p) { OccursChar(TEXT, s, p, i); }
  }

  // ---------- which markers occur ----------

  lemma ModelAndForgePrefixes()
    ensures forall r :: r in MODEL_PROVIDER_RULES + FORGE_RULES + GITLAB_RULES + SLACK_RULES ==> HasForeign(r.prefix)
  {
    assert "sk-proj-"[2] == '-' && "sk-ant-"[2] == '-' && "ghp_"[3] == '_' && "github_pat_"[6] == '_' &&
           "glpat-"[5] == '-';
    assert "xoxb-"[4] == '-' && "xoxp-"[4] == '-';
  }

  lemma CloudPrefixes()
    ensures forall r :: r in STRIPE_RULES + CLOUD_KEY_RULES + HOSTING_RULES + BACKEND_RULES ==> HasForeign(r.prefix)
  {
    assert "sk_live_"[2] == '_' && "sk_test_"[2] == '_' && "AKIA"[0] == 'A' && "ASIA"[0] == 'A' && "AIza"[0] == 'A';
    assert "cfp_"[3] == '_' && "vercel_"[6] == '_' && "ntl_"[3] == '_' && "sbp_"[3] == '_';
  }

  lemma VariantPrefixes()
    ensures forall r :: r in GITHUB_VARIANT_RULES + GITHUB_OAUTH_RULES + REGISTRY_RULES ==> HasForeign(r.prefix)
  {
    assert "ghs_"[3] == '_' && "ghu_"[3] == '_' && "gho_"[3] == '_' && "ghr_"[3] == '_';
    assert "npm_"[3] == '_' && "pypi-"[4] == '-' && "hf_"[2] == '_';
  }

  lemma ServicePrefixes()
    ensures forall r :: r in SERVICE_RULES + VAULT_RULES + MAIL_RULES ==> HasForeign(r.prefix)
  {
    assert "whsec_"[5] == '_' && "dp.pt."[2] == '.' && "hvs."[3] == '.' && "hvb."[3] == '.' && "SG."[2] == '.';
  }

  lemma AllPrefixesAreForeign()
    ensures AllForeign(TABLES.prefixes)
  {
    ModelAndForgePrefixes();
    CloudPrefixes();
    VariantPrefixes();
    ServicePrefixes();
    forall i | 0 <= i < |TABLES.prefixes| ensures HasForeign(TABLES.prefixes[i].prefix) {
      assert TABLES.prefixes[i] in PREFIX_RULES;
    }
  }

  lemma PasswordKeys()
    ensures forall r :: r in API_KEY_RULES + PASSWORD_RULES ==> HasForeign(r.key) || r.key == "token"
  {
    assert "api_key"[3] == '_' && "apikey"[5] == 'y' && "api_secret"[3] == '_';
    assert "password"[4] == 'w' && "passwd"[4] == 'w';
  }

  lemma OauthKeys()
    ensures forall r :: r in OAUTH_RULES + SESSION_RULES ==> HasForeign(r.key)
  {
    assert "client_secret"[6] == '_' && "client_token"[6] == '_' && "access_token"[6] == '_' &&
           "refresh_token"[7] == '_';
    assert "id_token"[2] == '_';
  }

  lemma StoreKeys()
    ensures forall r :: r in STORE_RULES + DATABASE_RULES ==> HasForeign(r.key)
  {
    assert "secret_access_key"[6] == '_' && "aws_secret_access_key"[3] == '_' && "database_url"[8] == '_';
    assert "db_url"[2] == '_' && "connection_string"[10] == '_';
  }

  lemma OtherKeys()
    ensures forall r :: r in OTHER_KEY_RULES + GOOGLE_KEY_RULES ==> HasForeign(r.key)
  {
    assert "private_key"[7] == '_' && "webhook_secret"[7] == '_' && "gemini_api_key"[6] == '_';
    assert "antigravity_api_key"[11] == '_' && "google_api_key"[6] == '_' && "gcp_api_key"[3] == '_';
  }

  lemma AllKeysButOneAreForeign()
    ensures forall i :: 0 <= i < |TABLES.keys| ==> HasForeign(TABLES.keys[i].key) || TABLES.keys[i].key == "token"
  {
    PasswordKeys();
    OauthKeys();
    StoreKeys();
    OtherKeys();
    forall i | 0 <= i < |TABLES.keys| ensures HasForeign(TABLES.keys[i].key) || TABLES.keys[i].key == "token" {
      assert TABLES.keys[i] in KEY_RULES;
    }
  }

  lemma TokenIsAKey()
    ensures |TABLES.keys| > 3 && TABLES.keys[3].key == "token"
  {
    assert (API_KEY_RULES + PASSWORD_RULES)[3] == PASSWORD_RULES[0];
  }

  lemma TokenStandsOnce(p: int)
    ensures OccursAt(TEXT, "token", p) <==> p == 0
  {
    if OccursAt(TEXT, "token", p) {
      OccursChar(TEXT, "token", p, 0);
      OccursChar(TEXT, "token", p, 1);
    }
    assert TEXT[0..5] == "token";
  }

  /** Behind `is` only one scheme has its colon. */
  lemma OneSchemeBehindIs(i: nat)
    requires i < |SCHEMES|
    ensures |SCHEMES[i]| >= 5 && SCHEMES[i][|SCHEMES[i]| - 3] == ':'
    ensures i != 5 ==> SCHEMES[i][|SCHEMES[i]| - 4] != 's' || SCHEMES[i][|SCHEMES[i]| - 5] != 'i'
    ensures SCHEMES[5] == "redis://"
  {
    assert SCHEMES[0] == "postgresql://" && SCHEMES[1] == "postgres://" && SCHEMES[2] == "mysql://";
    assert SCHEMES[3] == "mongodb+srv://" && SCHEMES[4] == "mongodb://" && SCHEMES[5] == "redis://";
    assert SCHEMES[6] == "rediss://" && SCHEMES[7] == "amqp://" && SCHEMES[8] == "amqps://";
  }

  lemma OneColon(k: nat)
    requires k < |TEXT| && TEXT[k] == ':'
    ensures k == 17
  {}

  /** So the text holds one scheme, once. */
  lemma RedisStandsOnce(i: nat, p: int)
    requires i < |SCHEMES|
    ensures OccursAt(TEXT, SCHEMES[i], p) ==> i == 5 && p == 12
  {
    var scheme := SCHEMES[i];
    OneSchemeBehindIs(i);
    if OccursAt(TEXT, scheme, p) {
      OccursChar(TEXT, scheme, p, |scheme| - 3);
      OccursChar(TEXT, scheme, p, |scheme| - 4);
      OccursChar(TEXT, scheme, p, |scheme| - 5);
      OneColon(p + |scheme| - 3);
      assert TEXT[16] == 's' && TEXT[15] == 'i';
    }
  }

  lemma RedisStands()
    ensures OccursAt(TEXT, "redis://", 12)
  {
    assert TEXT[12..20] == "redis://";
  }

  // ---------- the findings ----------

  lemma TokenStops()
    ensures TokenEnd(TEXT, 6) == 20 && TokenEnd(TEXT, 0) == 20 && TokenEnd(TEXT, 21) == 28
  {
    TokenCharsOfText();
    TokenEndIs(TEXT, 6, 20);
    TokenEndIs(TEXT, 0, 20);
    TokenEndIs(TEXT, 21, 28);
  }

  lemma TokenCharsOfText()
    ensures |TEXT| == 28 && forall k :: 0 <= k < 28 ==> (IsTokenChar(TEXT[k]) <==> k != 20)
  {}

  lemma UrlStops()
    ensures RunEnd(TEXT, 12, InUrl) == 28
  {
    assert forall k :: 12 <= k < 28 ==> InUrl(TEXT[k]);
    RunEndIs(TEXT, 12, 28, InUrl);
  }

  lemma ValueStands()
    ensures ValueStart(TEXT, "token", 0) == 6
  {
    assert TEXT[5] == '=' && SeparatorFrom(TEXT, 5) == Some(5);
    assert IsSkipped(TEXT[5]) && !IsSkipped(TEXT[6]) && SkipFrom(TEXT, 6) == 6 && SkipFrom(TEXT, 5) == 6;
  }

  predicate Expected(f: Finding) { OneOfTwo(f, 6, 12, 20, 28) }

  ghost predicate Absent(text: string, needle: string) { forall p :: !OccursAt(text, needle, p) }

  lemma PrefixedAbsent(crypto: Crypto, text: string, options: Options, rule: PrefixRule)
    requires Absent(text, rule.prefix)
    ensures PrefixedTokens(crypto, text, rule, options, |text|) == []
  {
    NothingVisited(text, rule.prefix, PrefixNext(text, rule.prefix), PrefixedAt(crypto, text, rule, options), 0,
                   |text|);
  }

  lemma {:induction false} AllPrefixedAbsent(
    crypto: Crypto, text: string, options: Options, rules: seq<PrefixRule>, n: nat)
    requires n <= |rules| && forall i :: 0 <= i < |rules| ==> Absent(text, rules[i].prefix)
    ensures AllPrefixed(crypto, text, rules, options, n) == []
  {
    if n > 0 {
      AllPrefixedAbsent(crypto, text, options, rules, n - 1);
      PrefixedAbsent(crypto, text, options, rules[n - 1]);
    }
  }

  lemma NoPrefixed(crypto: Crypto, options: Options)
    ensures AllPrefixed(crypto, TEXT, TABLES.prefixes, options, |TABLES.prefixes|) == []
  {
    AllPrefixesAreForeign();
    ForeignAreAbsent(TABLES.prefixes);
    AllPrefixedAbsent(crypto, TEXT, options, TABLES.prefixes, |TABLES.prefixes|);
  }

  lemma ForeignAreAbsent(rules: seq<PrefixRule>)
    requires AllForeign(rules)
    ensures forall i :: 0 <= i < |rules| ==> Absent(TEXT, rules[i].prefix)
  {
    forall i | 0 <= i < |rules| ensures Absent(TEXT, rules[i].prefix) {
      forall p ensures !OccursAt(TEXT, rules[i].prefix, p) { ForeignIsAbsent(rules[i].prefix, p); }
    }
  }

  predicate AllForeign(rules: seq<PrefixRule>) { forall i :: 0 <= i < |rules| ==> HasForeign(rules[i].prefix) }

  lemma BearersAbsent(crypto: Crypto, options: Options, f: Finding)
    ensures f !in Bearers(crypto, TEXT, options, |TEXT|)
  {
    TextIsLower();
    assert BEARER[6] == ' ';
    forall p ensures !OccursAt(TEXT, BEARER, p) { ForeignIsAbsent(BEARER, p); }
    BearerFindings(crypto, TEXT, options, f);
  }

  lemma JwtsAbsent(crypto: Crypto, options: Options)
    ensures Jwts(crypto, TEXT, options, |TEXT|) == []
  {
    assert JWT_MARKER[2] == 'J';
    forall p ensures !OccursAt(TEXT, JWT_MARKER, p) { ForeignIsAbsent(JWT_MARKER, p); }
    NoJwts(crypto, TEXT, options);
  }

  lemma KeyBlocksAbsent(crypto: Crypto, options: Options)
    ensures KeyBlocks(crypto, TEXT, options, |TEXT|) == []
  {
    assert BEGIN_MARKER[0] == '-';
    forall p ensures !OccursAt(TEXT, BEGIN_MARKER, p) { ForeignIsAbsent(BEGIN_MARKER, p); }
    NoKeyBlocks(crypto, TEXT, options);
  }

  lemma {:induction false} UrlsExpected(crypto: Crypto, options: Options, n: nat, f: Finding)
    requires n <= |SCHEMES| && f in DatabaseUrls(crypto, TEXT, options, n)
    ensures Spanning(f, 12, 28)
  {
    if f in DatabaseUrls(crypto, TEXT, options, n - 1) {
      UrlsExpected(crypto, options, n - 1, f);
    } else {
      SchemeUrlExpected(crypto, options, n - 1, f);
    }
  }

  lemma SchemeUrlExpected(crypto: Crypto, options: Options, i: nat, f: Finding)
    requires i < |SCHEMES| && f in SchemeUrls(crypto, TEXT, options, SCHEMES[i], |TEXT|)
    ensures Spanning(f, 12, 28)
  {
    TextIsLower();
    var p := SchemeUrlStands(crypto, options, SCHEMES[i], f);
    RedisStandsOnce(i, p);
    RedisUrl(crypto, options, f);
  }

  lemma SchemeUrlStands(crypto: Crypto, options: Options, scheme: string, f: Finding) returns (p: nat)
    requires f in SchemeUrls(crypto, TEXT, options, scheme, |TEXT|)
    ensures OccursAt(Lower(TEXT), scheme, p) && f in UrlAt(crypto, TEXT, options)(p)
  {
    EmittedFrom(Lower(TEXT), scheme, UrlNext(TEXT, scheme), UrlAt(crypto, TEXT, options), |TEXT|, f);
    p :| p < |TEXT| && Visited(Lower(TEXT), scheme, UrlNext(TEXT, scheme), p) && f in UrlAt(crypto, TEXT, options)(p);
  }

  lemma RedisUrl(crypto: Crypto, options: Options, f: Finding)
    ensures f in UrlAt(crypto, TEXT, options)(12) ==> Spanning(f, 12, 28)
  {
    UrlStops();
  }

  lemma AssignedExpected(crypto: Crypto, options: Options, f: Finding)
    requires f in Assignments(crypto, TEXT, TABLES.keys, options, |TABLES.keys|)
    ensures Spanning(f, 6, 20)
  {
    TextIsLower();
    AllKeysButOneAreForeign();
    var i, p := AssignmentJustified(crypto, TEXT, TABLES.keys, options, |TABLES.keys|, f);
    if HasForeign(TABLES.keys[i].key) { ForeignIsAbsent(TABLES.keys[i].key, p); }
    TokenStandsOnce(p);
    ValueStands();
    TokenStops();
  }

  lemma RunsAbsent(crypto: Crypto, options: Options, f: Finding)
    ensures f !in EntropyRuns(crypto, TEXT, options, |TEXT|)
  {
    EntropyFindings(crypto, TEXT, options, |TEXT|, f);
    if f in EntropyRuns(crypto, TEXT, options, |TEXT|) {
      RunIsShort(f.start);
    }
  }

  lemma RunIsShort(s: nat)
    requires RunStart(TEXT, s)
    ensures TokenEnd(TEXT, s) - s < 24
  {
    TokenStops();
    TokenCharsOfText();
  }

  // ---------- what stays visible ----------

  lemma RedisIsReported(crypto: Crypto, options: Options) returns (u: Finding)
    ensures u in BlockFindings(crypto, TEXT, options) && Spanning(u, 12, 28)
  {
    u := FoundAt(crypto, TEXT, "database-url", 12, 28, High, options);
    UrlStops();
    assert TEXT[12..28][8] == '@' && u in UrlAt(crypto, TEXT, options)(12);
    TextIsLower();
    RedisStands();
    OneSchemeBehindIs(5);
    forall q | q < 12 ensures !OccursAt(TEXT, SCHEMES[5], q) { RedisStandsOnce(5, q); }
    assert Visited(Lower(TEXT), SCHEMES[5], UrlNext(TEXT, SCHEMES[5]), 12);
    EmittedFrom(Lower(TEXT), SCHEMES[5], UrlNext(TEXT, SCHEMES[5]), UrlAt(crypto, TEXT, options), |TEXT|, u);
    SchemeIsScanned(crypto, options, 5, |SCHEMES|, u);
  }

  lemma {:induction false} SchemeIsScanned(crypto: Crypto, options: Options, i: nat, n: nat, u: Finding)
    requires i < n <= |SCHEMES| && u in SchemeUrls(crypto, TEXT, options, SCHEMES[i], |TEXT|)
    ensures u in DatabaseUrls(crypto, TEXT, options, n)
  {
    if i < n - 1 { SchemeIsScanned(crypto, options, i, n - 1, u); }
    InEither(DatabaseUrls(crypto, TEXT, options, n - 1), SchemeUrls(crypto, TEXT, options, SCHEMES[n - 1], |TEXT|), u);
  }

  lemma TokenIsReported(crypto: Crypto, options: Options) returns (f: Finding)
    ensures f in Assignments(crypto, TEXT, TABLES.keys, options, |TABLES.keys|) && Spanning(f, 6, 20)
  {
    TokenIsAKey();
    var rule := TABLES.keys[3];
    f := FoundAt(crypto, TEXT, rule.kind, 6, 20, rule.confidence, options);
    ValueStands();
    TokenStops();
    assert f in KeyAt(crypto, TEXT, rule, options)(0);
    TextIsLower();
    TokenStandsOnce(0);
    AssignmentReported(crypto, TEXT, TABLES.keys, options, |TABLES.keys|, 3, 0, f);
  }

  lemma UrlOrAssigned(crypto: Crypto, text: string, tables: Tables, options: Options, f: Finding)
    requires f in RawFindings(crypto, text, tables, options)
    requires AllPrefixed(crypto, text, tables.prefixes, options, |tables.prefixes|) == []
    requires f !in Bearers(crypto, text, options, |text|) && f !in EntropyRuns(crypto, text, options, |text|)
    requires Jwts(crypto, text, options, |text|) == [] && KeyBlocks(crypto, text, options, |text|) == []
    ensures f in DatabaseUrls(crypto, text, options, |SCHEMES|)
            || f in Assignments(crypto, text, tables.keys, options, |tables.keys|)
  {}

  lemma IsExpected(crypto: Crypto, options: Options, f: Finding)
    requires f in RawFindings(crypto, TEXT, TABLES, options)
    ensures Expected(f)
  {
    NoPrefixed(crypto, options);
    BearersAbsent(crypto, options, f);
    RunsAbsent(crypto, options, f);
    JwtsAbsent(crypto, options);
    KeyBlocksAbsent(crypto, options);
    UrlOrAssigned(crypto, TEXT, TABLES, options, f);
    if f in DatabaseUrls(crypto, TEXT, options, |SCHEMES|) {
      UrlsExpected(crypto, options, |SCHEMES|, f);
    } else {
      AssignedExpected(crypto, options, f);
    }
  }

  lemma AllExpected(crypto: Crypto, options: Options)
    ensures forall f :: f in RawFindings(crypto, TEXT, TABLES, options) ==> Expected(f)
  {
    forall f | f in RawFindings(crypto, TEXT, TABLES, options) ensures Expected(f) { IsExpected(crypto, options, f); }
  }

  lemma InRaw(crypto: Crypto, input: string, tables: Tables, options: Options, u: Finding)
    requires u in BlockFindings(crypto, input, options)
    ensures u in RawFindings(crypto, input, tables, options)
  {}

  lemma InTokens(crypto: Crypto, input: string, tables: Tables, options: Options, f: Finding)
    requires f in Assignments(crypto, input, tables.keys, options, |tables.keys|)
    ensures f in TokenFindings(crypto, input, tables, options)
  {}

  /** No position in front of `n` lies in a span that is sealed. */
  ghost predicate NoneBefore(kept: seq<Finding>, n: nat) {
    forall p: nat :: p < n ==> !Inside(Sealable(kept), p)
  }

  /**
   The token assigned in this text is detected, and yet `secret`, its beginning, is copied into the
   redacted text: the URL that starts inside the token is longer and takes its place.
   */
  lemma TokenStaysVisible(crypto: Crypto) returns (f: Finding)
    ensures f in TokenFindings(crypto, TEXT, TABLES, DISPLAY) && Spanning(f, 6, 20) && TEXT[6..12] == "secret"
    ensures NoneBefore(Normalized(RawFindings(crypto, TEXT, TABLES, DISPLAY)), 12)
  {
    f := TokenIsReported(crypto, DISPLAY);
    InTokens(crypto, TEXT, TABLES, DISPLAY, f);
    SecretIsFirst();
    var u := RedisIsReported(crypto, DISPLAY);
    InRaw(crypto, TEXT, TABLES, DISPLAY, u);
    AllExpected(crypto, DISPLAY);
    FrontStaysVisible(crypto, TEXT, TABLES, DISPLAY, 6, 12, 20, 28, u);
  }

  lemma FrontStaysVisible(
    crypto: Crypto, text: string, tables: Tables, options: Options, a: nat, b: nat, c: nat, d: nat, u: Finding)
    requires a < b < c < d && c - a < d - b && u in RawFindings(crypto, text, tables, options) && Spanning(u, b, d)
    requires forall f :: f in RawFindings(crypto, text, tables, options) ==> OneOfTwo(f, a, b, c, d)
    ensures NoneBefore(Normalized(RawFindings(crypto, text, tables, options)), b)
  {
    forall p: nat | p < b ensures !Inside(Sealable(Normalized(RawFindings(crypto, text, tables, options))), p) {
      SealedIff(crypto, text, tables, options, p);
      FrontIsUncovered(RawFindings(crypto, text, tables, options), a, b, c, d, u, p);
    }
  }

  lemma SecretIsFirst()
    ensures TEXT[6..12] == "secret"
  {
    assert |TEXT| == 28 && TEXT[6] == 's' && TEXT[7] == 'e' && TEXT[8] == 'c' && TEXT[9] == 'r' && TEXT[10] == 'e' &&
           TEXT[11] == 't';
    SlicePoints(TEXT, 6, 12, "secret");
  }

  lemma SlicePoints(text: string, from: nat, to: nat, word: string)
    requires from + |word| == to <= |text| && forall i :: 0 <= i < |word| ==> text[from + i] == word[i]
    ensures text[from..to] == word
  {
    assert forall i :: 0 <= i < |word| ==> text[from..to][i] == word[i];
  }
}
