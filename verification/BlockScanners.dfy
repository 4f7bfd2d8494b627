/** The scanners whose spans need not end at a token run: JWTs, private key blocks and database URLs. */
module BlockScanners {
  import opened Basics
  import opened Text
  import opened Findings
  import opened TokenRuns
  import opened Scanners
  import opened Visits

  function CountChar(s: string, c: char): nat {
    if s == "" then 0 else (if s[0] == c then 1 else 0) + CountChar(s[1..], c)
  }

  // ---------- JWTs ----------

  const JWT_MARKER: string := "eyJ"

  predicate IsJwtChar(c: char) { IsAsciiAlphanumeric(c) || c == '-' || c == '_' || c == '.' }

  function JwtNext(input: string): nat -> nat {
    (p: nat) => if p <= |input| && RunEnd(input, p, IsJwtChar) > p + 3 then RunEnd(input, p, IsJwtChar) else p + 3
  }

  /** The run of JWT characters at `p`, if it has two dots and forty or more characters. */
  function JwtAt(crypto: Crypto, input: string, options: Options): nat -> seq<Finding> {
    (p: nat) =>
      if p > |input| then [] else
      var end := RunEnd(input, p, IsJwtChar);
      if CountChar(input[p..end], '.') == 2 && end - p >= 40 then
        [FoundAt(crypto, input, "jwt", p, end, Medium, options)] else []
  }

  ghost function Jwts(crypto: Crypto, input: string, options: Options, limit: nat): seq<Finding> {
    Emitted(input, JWT_MARKER, JwtNext(input), JwtAt(crypto, input, options), limit)
  }

  /** `scan_jwt`. */
  method ScanJwt(crypto: Crypto, input: string, options: Options) returns (out: seq<Finding>)
    ensures out == Jwts(crypto, input, options, |input|)
  {
    out := [];
    var offset: nat := 0;
    while true
      invariant offset <= |input|
      invariant Scanned(input, JWT_MARKER, JwtNext(input), JwtAt(crypto, input, options), offset, out)
      decreases |input| - offset
    {
      var pos := FindFrom(input, JWT_MARKER, offset);
      if pos.None? {
        NoMore(input, JWT_MARKER, JwtNext(input), JwtAt(crypto, input, options), offset, |input|, out);
        break;
      }
      Visit(input, JWT_MARKER, JwtNext(input), JwtAt(crypto, input, options), offset, pos.value, out);
      var end: nat;
      end, out := PushJwt(crypto, input, options, pos.value, out);
      offset := if end > pos.value + 3 then end else pos.value + 3;
    }
  }

  method PushJwt(
    crypto: Crypto, input: string, options: Options, start: nat, before: seq<Finding>)
    returns (end: nat, out: seq<Finding>)
    requires start <= |input|
    ensures end == RunEnd(input, start, IsJwtChar) && out == before + JwtAt(crypto, input, options)(start)
  {
    out := before;
    end := start;
    while end < |input| && IsJwtChar(input[end])
      invariant start <= end <= |input| && RunEnd(input, end, IsJwtChar) == RunEnd(input, start, IsJwtChar)
    {
      end := end + 1;
    }
    var value := input[start..end];
    if CountChar(value, '.') == 2 && |value| >= 40 {
      out := out + [Found(crypto, "jwt", start, end, value, Medium, options)];
    }
  }

  lemma JwtRuns(input: string)
    ensures SharesRuns(input, JWT_MARKER, JwtNext(input))
    ensures forall p: nat :: OccursAt(input, JWT_MARKER, p) ==> JwtNext(input)(p) == RunEnd(input, p, IsJwtChar)
  {
    forall p: nat | OccursAt(input, JWT_MARKER, p) ensures JwtNext(input)(p) == RunEnd(input, p, IsJwtChar) {
      JwtMarkerInRun(input, p);
    }
    RunsAreShared(input, JWT_MARKER, input, JwtNext(input), IsJwtChar);
  }

  lemma JwtMarkerInRun(input: string, p: nat)
    requires OccursAt(input, JWT_MARKER, p)
    ensures JwtNext(input)(p) == RunEnd(input, p, IsJwtChar)
  {
    forall k | p <= k < p + |JWT_MARKER| ensures IsJwtChar(input[k]) {
      CharOf(input, JWT_MARKER, p, k - p);
    }
    MarkerInRun(input, JWT_MARKER, input, p, IsJwtChar);
  }

  /** A marker of characters of the class, standing in `text`, lies in one run of the class in `input`. */
  lemma MarkerInRun(text: string, marker: string, input: string, p: nat, ok: char -> bool)
    requires OccursAt(text, marker, p) && |text| == |input|
    requires forall k :: p <= k < p + |marker| ==> ok(input[k])
    ensures p + |marker| <= RunEnd(input, p, ok)
  {}

  lemma RunsAreShared(text: string, marker: string, input: string, next: nat -> nat, ok: char -> bool)
    requires |text| == |input|
    requires forall p: nat :: OccursAt(text, marker, p) ==> p <= |input| && next(p) == RunEnd(input, p, ok)
    ensures SharesRuns(text, marker, next)
  {
    forall q: nat, p: nat | q < p < next(q) && OccursAt(text, marker, q) && OccursAt(text, marker, p)
      ensures next(p) == next(q)
    {
      RunEndShared(input, q, p, ok);
    }
  }

  /** A JWT is reported exactly for the first marker of each run that has two dots and is long enough behind it. */
  lemma JwtFindings(crypto: Crypto, input: string, options: Options, f: Finding)
    ensures f in Jwts(crypto, input, options, |input|) <==>
            exists p: nat :: p < |input| && FirstOfRun(input, JWT_MARKER, JwtNext(input), p)
                             && f in JwtAt(crypto, input, options)(p)
  {
    JwtRuns(input);
    EmittedFromFirst(input, JWT_MARKER, JwtNext(input), JwtAt(crypto, input, options), |input|, f);
  }

  // ---------- private key blocks ----------

  const BEGIN_MARKER: string := "-----BEGIN "
  const END_MARKER: string := "-----END "
  const CLOSE_MARKER: string := "-----"

  /** Behind the dashes that close the first end marker from `p` on. */
  function KeyBlockEnd(input: string, p: nat): (r: Option<nat>)
    ensures r.Some? ==> p < r.value <= |input|
  {
    if p > |input| then None else
    var e := FindFrom(input, END_MARKER, p);
    if e.None? then None else
    var close := FindFrom(input, CLOSE_MARKER, e.value + |END_MARKER|);
    if close.None? then None else Some(close.value + |CLOSE_MARKER|)
  }

  function KeyBlockNext(input: string): nat -> nat {
    (p: nat) => if KeyBlockEnd(input, p).Some? then KeyBlockEnd(input, p).value else p + |BEGIN_MARKER|
  }

  predicate NamesPrivateKey(value: string) {
    Contains(value, "PRIVATE KEY") || Contains(value, "OPENSSH") || Contains(value, "PGP")
  }

  /** The block that starts at `p`, if it closes and names a kind of private key. */
  function KeyBlockAt(crypto: Crypto, input: string, options: Options): nat -> seq<Finding> {
    (p: nat) =>
      var end := KeyBlockEnd(input, p);
      if end.Some? && NamesPrivateKey(input[p..end.value])
      then [FoundAt(crypto, input, "private-key-block", p, end.value, High, options)] else []
  }

  ghost function KeyBlocks(crypto: Crypto, input: string, options: Options, limit: nat): seq<Finding> {
    Emitted(input, BEGIN_MARKER, KeyBlockNext(input), KeyBlockAt(crypto, input, options), limit)
  }

  /** `scan_private_key_blocks`. */
  method ScanPrivateKeyBlocks(crypto: Crypto, input: string, options: Options) returns (out: seq<Finding>)
    ensures out == KeyBlocks(crypto, input, options, |input|)
  {
    out := [];
    var offset: nat := 0;
    while true
      invariant offset <= |input|
      invariant Scanned(input, BEGIN_MARKER, KeyBlockNext(input), KeyBlockAt(crypto, input, options), offset, out)
      decreases |input| - offset
    {
      var pos := FindFrom(input, BEGIN_MARKER, offset);
      if pos.None? {
        NoMore(input, BEGIN_MARKER, KeyBlockNext(input), KeyBlockAt(crypto, input, options), offset, |input|, out);
        break;
      }
      Visit(input, BEGIN_MARKER, KeyBlockNext(input), KeyBlockAt(crypto, input, options), offset, pos.value, out);
      offset, out := PushKeyBlock(crypto, input, options, pos.value, out);
    }
  }

  /** The body of the loop for the begin marker at `start`. */
  method PushKeyBlock(crypto: Crypto, input: string, options: Options, start: nat, before: seq<Finding>)
    returns (offset: nat, out: seq<Finding>)
    requires OccursAt(input, BEGIN_MARKER, start)
    ensures offset <= |input| && offset == KeyBlockNext(input)(start) &&
            out == before + KeyBlockAt(crypto, input, options)(start)
  {
    out := before;
    var endPos := FindFrom(input, END_MARKER, start);
    if endPos.Some? {
      var close := FindFrom(input, CLOSE_MARKER, endPos.value + |END_MARKER|);
      if close.Some? {
        var end := close.value + |CLOSE_MARKER|;
        var value := input[start..end];
        if NamesPrivateKey(value) {
          out := out + [Found(crypto, "private-key-block", start, end, value, High, options)];
        }
        return end, out;
      }
    }
    offset := start + |BEGIN_MARKER|;
  }

  // ---------- database URLs ----------

  const SCHEMES: seq<string> :=
    ["postgresql://", "postgres://", "mysql://", "mongodb+srv://", "mongodb://", "redis://", "rediss://", "amqp://",
     "amqps://"]

  predicate InUrl(c: char) {
    !(IsAsciiWhitespace(c) || c == '"' || c == '\'' || c == '`' || c == ')' || c == ']' || c == '}')
  }

  function UrlNext(input: string, scheme: string): nat -> nat {
    (p: nat) => if p <= |input| && RunEnd(input, p, InUrl) > p + |scheme| then RunEnd(input, p, InUrl) else p + |scheme|
  }

  /** The URL at `p`, if it has an `@` and sixteen or more characters. */
  function UrlAt(crypto: Crypto, input: string, options: Options): nat -> seq<Finding> {
    (p: nat) =>
      if p > |input| then [] else
      var end := RunEnd(input, p, InUrl);
      if '@' in input[p..end] && end - p >= 16 then [FoundAt(crypto, input, "database-url", p, end, High, options)]
      else []
  }

  ghost function SchemeUrls(crypto: Crypto, input: string, options: Options, scheme: string, limit: nat): seq<Finding> {
    Emitted(Lower(input), scheme, UrlNext(input, scheme), UrlAt(crypto, input, options), limit)
  }

  /** The URLs of the first `n` schemes, scheme after scheme. */
  ghost function DatabaseUrls(crypto: Crypto, input: string, options: Options, n: nat): seq<Finding>
    requires n <= |SCHEMES|
  {
    if n == 0 then []
    else
      DatabaseUrls(crypto, input, options, n - 1)
      + SchemeUrls(crypto, input, options, SCHEMES[n - 1], |input|)
  }

  /** `scan_database_urls`. */
  method ScanDatabaseUrls(crypto: Crypto, input: string, options: Options) returns (out: seq<Finding>)
    ensures out == DatabaseUrls(crypto, input, options, |SCHEMES|)
  {
    out := [];
    for i := 0 to |SCHEMES|
      invariant out == DatabaseUrls(crypto, input, options, i)
    {
      assert SCHEMES[i] != "";
      var urls := ScanScheme(crypto, input, options, SCHEMES[i]);
      out := out + urls;
    }
  }

  method ScanScheme(crypto: Crypto, input: string, options: Options, scheme: string) returns (out: seq<Finding>)
    requires scheme != ""
    ensures out == SchemeUrls(crypto, input, options, scheme, |input|)
  {
    var lower := Lower(input);
    out := [];
    var offset: nat := 0;
    while true
      invariant offset <= |input|
      invariant Scanned(lower, scheme, UrlNext(input, scheme), UrlAt(crypto, input, options), offset, out)
      decreases |input| - offset
    {
      var pos := FindFrom(lower, scheme, offset);
      if pos.None? {
        NoMore(lower, scheme, UrlNext(input, scheme), UrlAt(crypto, input, options), offset, |input|, out);
        break;
      }
      Visit(lower, scheme, UrlNext(input, scheme), UrlAt(crypto, input, options), offset, pos.value, out);
      var end: nat;
      end, out := PushUrl(crypto, input, options, pos.value, out);
      offset := if end > pos.value + |scheme| then end else pos.value + |scheme|;
    }
  }

  method PushUrl(
    crypto: Crypto, input: string, options: Options, start: nat, before: seq<Finding>)
    returns (end: nat, out: seq<Finding>)
    requires start <= |input|
    ensures end == RunEnd(input, start, InUrl) && out == before + UrlAt(crypto, input, options)(start)
  {
    out := before;
    end := start;
    while end < |input| && InUrl(input[end])
      invariant start <= end <= |input| && RunEnd(input, end, InUrl) == RunEnd(input, start, InUrl)
    {
      end := end + 1;
    }
    var value := input[start..end];
    if '@' in value && |value| >= 16 {
      out := out + [Found(crypto, "database-url", start, end, value, High, options)];
    }
  }

  predicate AllInUrl(s: string) { forall k :: 0 <= k < |s| ==> InUrl(s[k]) }

  lemma SqlSchemesAreInUrl()
    ensures AllInUrl("postgresql://") && AllInUrl("postgres://") && AllInUrl("mysql://")
  {}

  lemma StoreSchemesAreInUrl()
    ensures AllInUrl("mongodb+srv://") && AllInUrl("mongodb://") && AllInUrl("redis://") && AllInUrl("rediss://")
    ensures AllInUrl("amqp://") && AllInUrl("amqps://")
  {}

  lemma SchemesAreInUrl(i: nat)
    requires i < |SCHEMES|
    ensures AllInUrl(SCHEMES[i])
  {
    SqlSchemesAreInUrl();
    StoreSchemesAreInUrl();
  }

  lemma LowerStaysInUrl(c: char)
    ensures InUrl(LowerChar(c)) ==> InUrl(c)
  {}

  lemma SchemeInRun(input: string, scheme: string, p: nat)
    requires OccursAt(Lower(input), scheme, p) && AllInUrl(scheme)
    ensures p + |scheme| <= RunEnd(input, p, InUrl) && UrlNext(input, scheme)(p) == RunEnd(input, p, InUrl)
  {
    forall k | p <= k < p + |scheme| ensures InUrl(input[k]) {
      CharOf(Lower(input), scheme, p, k - p);
      LowerStaysInUrl(input[k]);
    }
    MarkerInRun(Lower(input), scheme, input, p, InUrl);
  }

  /** A URL is reported for a scheme exactly for its first occurrence in each run that is long enough and has an `@`. */
  lemma UrlFindings(crypto: Crypto, input: string, options: Options, i: nat, f: Finding)
    requires i < |SCHEMES|
    ensures f in SchemeUrls(crypto, input, options, SCHEMES[i], |input|) <==>
            exists p: nat :: p < |input| && FirstOfRun(Lower(input), SCHEMES[i], UrlNext(input, SCHEMES[i]), p)
                             && f in UrlAt(crypto, input, options)(p)
  {
    var scheme := SCHEMES[i];
    SchemesAreInUrl(i);
    forall p: nat | OccursAt(Lower(input), scheme, p) ensures UrlNext(input, scheme)(p) == RunEnd(input, p, InUrl) {
      SchemeInRun(input, scheme, p);
    }
    RunsAreShared(Lower(input), scheme, input, UrlNext(input, scheme), InUrl);
    EmittedFromFirst(Lower(input), scheme, UrlNext(input, scheme), UrlAt(crypto, input, options), |input|, f);
  }
}
