/** The scanners that look at what surrounds a token: assignments to known keys, and high-entropy tokens in context. */
module FieldScanners {
  import opened Basics
  import opened Text
  import opened Findings
  import opened TokenRuns
  import opened Scanners
  import opened Visits

  // ---------- assignments ----------

  datatype RawKeyRule = KeyRule(key: string, kind: string, confidence: Confidence)

  /** The rules in use: a nonempty key and a plain kind. */
  type KeyRule = r: RawKeyRule | r.key != "" && PlainKind(r.kind)
    witness KeyRule("-", "", Low)

  predicate IsSeparator(c: char) { c == '=' || c == ':' || IsWhitespace(c) }

  predicate IsQuote(c: char) { c == '"' || c == '\'' }

  predicate IsSkipped(c: char) { IsAsciiWhitespace(c) || c == '=' || c == ':' || IsQuote(c) }

  /** The first separator from `p` on. */
  function SeparatorFrom(input: string, p: nat): (r: Option<nat>)
    requires p <= |input|
    ensures r.Some? ==> p <= r.value < |input|
    decreases |input| - p
  {
    if p == |input| then None else if IsSeparator(input[p]) then Some(p) else SeparatorFrom(input, p + 1)
  }

  /** The first character from `p` on that is neither separator, blank nor quote. */
  function SkipFrom(input: string, p: nat): (r: nat)
    requires p <= |input|
    ensures p <= r <= |input|
    ensures forall k :: p <= k < r ==> IsSkipped(input[k])
    ensures r < |input| ==> !IsSkipped(input[r])
    decreases |input| - p
  {
    if p < |input| && IsSkipped(input[p]) then SkipFrom(input, p + 1) else p
  }

  /** Where the value assigned to a key that ends at `afterKey` starts, if a separator follows at all. */
  function Target(input: string, afterKey: nat): (r: Option<nat>)
    requires afterKey <= |input|
    ensures r.Some? ==> afterKey <= r.value <= |input|
  {
    var sp := SeparatorFrom(input, afterKey);
    if sp.None? then None else Some(SkipFrom(input, sp.value))
  }

  function TrimQuotes(s: string): string {
    if s != "" && IsQuote(s[0]) then TrimQuotes(s[1..])
    else if s != "" && IsQuote(s[|s| - 1]) then TrimQuotes(s[..|s| - 1])
    else s
  }

  /** Where the value assigned to the occurrence at `p` starts; the end of the text if nothing is assigned. */
  function ValueStart(input: string, key: string, p: nat): (t: nat)
    ensures t <= |input|
  {
    if p + |key| > |input| then |input| else
    var target := Target(input, p + |key|);
    if target.Some? then target.value else |input|
  }

  /** The token at `t`, if it has eight or more characters. */
  function AssignedAt(crypto: Crypto, input: string, rule: KeyRule, options: Options, t: nat): seq<Finding>
    requires t <= |input|
  {
    if TokenEnd(input, t) - t >= 8
    then [FoundAt(crypto, input, rule.kind, t, TokenEnd(input, t), rule.confidence, options)] else []
  }

  function KeyNext(key: string): nat -> nat {
    (p: nat) => p + |key|
  }

  /** What is reported for the key at `p`. */
  function KeyAt(crypto: Crypto, input: string, rule: KeyRule, options: Options): nat -> seq<Finding> {
    (p: nat) => AssignedAt(crypto, input, rule, options, ValueStart(input, rule.key, p))
  }

  ghost function KeyValues(crypto: Crypto, input: string, rule: KeyRule, options: Options, limit: nat): seq<Finding> {
    Emitted(Lower(input), rule.key, KeyNext(rule.key), KeyAt(crypto, input, rule, options), limit)
  }

  /** The values assigned to the first `n` keys, key after key. */
  ghost function Assignments(crypto: Crypto, input: string, keys: seq<KeyRule>, options: Options, n: nat): seq<Finding>
    requires n <= |keys|
  {
    if n == 0 then []
    else Assignments(crypto, input, keys, options, n - 1) + KeyValues(crypto, input, keys[n - 1], options, |input|)
  }

  lemma TokensHaveNoQuotes(input: string, t: nat)
    requires t <= |input|
    ensures TrimQuotes(input[t..TokenEnd(input, t)]) == input[t..TokenEnd(input, t)]
  {
    var value := input[t..TokenEnd(input, t)];
    assert forall k :: 0 <= k < |value| ==> value[k] == input[t + k] && IsTokenChar(value[k]);
  }

  /** `scan_assignment`: key after key, findings in that order. */
  method ScanAssignment(crypto: Crypto, input: string, keys: seq<KeyRule>, options: Options) returns (out: seq<Finding>)
    ensures out == Assignments(crypto, input, keys, options, |keys|)
  {
    out := [];
    for n := 0 to |keys|
      invariant out == Assignments(crypto, input, keys, options, n)
    {
      var found := ScanKey(crypto, input, keys[n], options);
      out := out + found;
    }
  }

  /** The loop for one key. */
  method ScanKey(crypto: Crypto, input: string, rule: KeyRule, options: Options) returns (out: seq<Finding>)
    ensures out == KeyValues(crypto, input, rule, options, |input|)
  {
    var lower := Lower(input);
    out := [];
    var offset: nat := 0;
    while true
      invariant KeyScanned(crypto, input, rule, options, offset, out)
      decreases |input| - offset
    {
      var pos := FindFrom(lower, rule.key, offset);
      if pos.None? {
        NoMoreKeys(crypto, input, rule, options, offset, out);
        return;
      }
      NextKey(crypto, input, rule, options, offset, pos.value, out);
      offset, out := PushAssigned(crypto, input, rule, options, pos.value, out);
    }
  }

  ghost predicate KeyScanned(
    crypto: Crypto, input: string, rule: KeyRule, options: Options, offset: nat, out: seq<Finding>)
  {
    offset <= |input| && Scanned(Lower(input), rule.key, KeyNext(rule.key), KeyAt(crypto, input, rule, options),
                                 offset, out)
  }

  lemma NextKey(crypto: Crypto, input: string, rule: KeyRule, options: Options, offset: nat, p: nat, out: seq<Finding>)
    requires KeyScanned(crypto, input, rule, options, offset, out) && offset <= p && OccursAt(Lower(input), rule.key, p)
    requires forall q :: offset <= q < p ==> !OccursAt(Lower(input), rule.key, q)
    ensures KeyScanned(crypto, input, rule, options, KeyNext(rule.key)(p), out + KeyAt(crypto, input, rule, options)(p))
  {
    Visit(Lower(input), rule.key, KeyNext(rule.key), KeyAt(crypto, input, rule, options), offset, p, out);
  }

  lemma NoMoreKeys(crypto: Crypto, input: string, rule: KeyRule, options: Options, offset: nat, out: seq<Finding>)
    requires KeyScanned(crypto, input, rule, options, offset, out)
    requires forall q :: offset <= q ==> !OccursAt(Lower(input), rule.key, q)
    ensures out == KeyValues(crypto, input, rule, options, |input|)
  {
    NoMore(Lower(input), rule.key, KeyNext(rule.key), KeyAt(crypto, input, rule, options), offset, |input|, out);
  }

  /** The body of the loop for the occurrence at `p`: find its value and push it if it is long enough. */
  method PushAssigned(crypto: Crypto, input: string, rule: KeyRule, options: Options, p: nat, before: seq<Finding>)
    returns (offset: nat, out: seq<Finding>)
    requires p + |rule.key| <= |input|
    ensures offset == KeyNext(rule.key)(p) && out == before + KeyAt(crypto, input, rule, options)(p)
  {
    offset := p + |rule.key|;
    var start := FindValue(input, p + |rule.key|);
    if start.Some? {
      out := PushValue(crypto, input, rule, options, start.value, before);
    } else {
      out := before;
      assert AssignedAt(crypto, input, rule, options, |input|) == [];
    }
  }

  method PushValue(
    crypto: Crypto, input: string, rule: KeyRule, options: Options, start: nat, before: seq<Finding>)
    returns (out: seq<Finding>)
    requires start <= |input|
    ensures out == before + AssignedAt(crypto, input, rule, options, start)
  {
    out := before;
    var end := ConsumeToken(input, start);
    TokensHaveNoQuotes(input, start);
    if end > start && end - start >= 8 {
      out := out + [Found(crypto, rule.kind, start, end, TrimQuotes(input[start..end]), rule.confidence, options)];
    }
  }

  /** The separator behind the key, then the loop over separators, blanks and quotes. */
  method FindValue(input: string, afterKey: nat) returns (start: Option<nat>)
    requires afterKey <= |input|
    ensures start == Target(input, afterKey)
  {
    var sep := SeparatorFrom(input, afterKey);
    if sep.None? {
      return None;
    }
    var i := sep.value;
    while i < |input| && IsSkipped(input[i])
      invariant sep.value <= i <= |input|
      invariant SkipFrom(input, i) == SkipFrom(input, sep.value)
    {
      i := i + 1;
    }
    return Some(i);
  }

  /** `f` is the value assigned to the key at `p`. */
  ghost predicate AssignedTo(crypto: Crypto, input: string, rule: KeyRule, options: Options, p: nat, f: Finding) {
    OccursAt(Lower(input), rule.key, p) && f in KeyAt(crypto, input, rule, options)(p)
  }

  /** The loop for a key that overlaps no copy of itself, as those in use do not, stops at each of its occurrences. */
  lemma KeysAreVisited(input: string, rule: KeyRule, p: nat)
    requires Borderless(rule.key)
    ensures Visited(Lower(input), rule.key, KeyNext(rule.key), p) <==> OccursAt(Lower(input), rule.key, p)
  {
    forall q: nat, p: nat | q < p && OccursAt(Lower(input), rule.key, q) && OccursAt(Lower(input), rule.key, p)
      ensures KeyNext(rule.key)(q) <= p
    {
      OccurrencesApart(Lower(input), rule.key, q, p);
    }
    VisitedIffFirst(Lower(input), rule.key, KeyNext(rule.key), p);
  }

  /** Every value assigned to a key is reported, wherever the key stands. */
  lemma {:induction false} AssignmentReported(
    crypto: Crypto, input: string, keys: seq<KeyRule>, options: Options, n: nat, i: nat, p: nat, f: Finding)
    requires i < n <= |keys| && Borderless(keys[i].key) && AssignedTo(crypto, input, keys[i], options, p, f)
    ensures f in Assignments(crypto, input, keys, options, n)
    decreases n
  {
    if i == n - 1 {
      KeyReported(crypto, input, keys[i], options, p, f);
    } else {
      AssignmentReported(crypto, input, keys, options, n - 1, i, p, f);
    }
    InEither(Assignments(crypto, input, keys, options, n - 1), KeyValues(crypto, input, keys[n - 1], options, |input|),
             f);
  }

  lemma KeyReported(crypto: Crypto, input: string, rule: KeyRule, options: Options, p: nat, f: Finding)
    requires Borderless(rule.key) && AssignedTo(crypto, input, rule, options, p, f)
    ensures f in KeyValues(crypto, input, rule, options, |input|)
  {
    KeysAreVisited(input, rule, p);
    EmittedFrom(Lower(input), rule.key, KeyNext(rule.key), KeyAt(crypto, input, rule, options), |input|, f);
  }

  /** And nothing else is. */
  lemma {:induction false} AssignmentJustified(
    crypto: Crypto, input: string, keys: seq<KeyRule>, options: Options, n: nat, f: Finding)
    returns (i: nat, p: nat)
    requires n <= |keys| && f in Assignments(crypto, input, keys, options, n)
    ensures i < n && AssignedTo(crypto, input, keys[i], options, p, f)
    decreases n
  {
    InEither(Assignments(crypto, input, keys, options, n - 1), KeyValues(crypto, input, keys[n - 1], options, |input|),
             f);
    if f in Assignments(crypto, input, keys, options, n - 1) {
      i, p := AssignmentJustified(crypto, input, keys, options, n - 1, f);
    } else {
      i := n - 1;
      p := KeyJustified(crypto, input, keys[i], options, f);
    }
  }

  lemma KeyJustified(crypto: Crypto, input: string, rule: KeyRule, options: Options, f: Finding) returns (p: nat)
    requires f in KeyValues(crypto, input, rule, options, |input|)
    ensures AssignedTo(crypto, input, rule, options, p, f)
  {
    EmittedFrom(Lower(input), rule.key, KeyNext(rule.key), KeyAt(crypto, input, rule, options), |input|, f);
    p :| p < |input| && Visited(Lower(input), rule.key, KeyNext(rule.key), p)
         && f in KeyAt(crypto, input, rule, options)(p);
  }

  lemma InEither(a: seq<Finding>, b: seq<Finding>, f: Finding)
    ensures f in a + b <==> f in a || f in b
  {}

  // ---------- high-entropy tokens ----------

  const HINTS: seq<string> := ["api", "token", "secret", "password", "bearer", "auth", "client", "key", "credential"]

  /** `context_suggests_secret`: a hint in the 48 characters before. */
  predicate ContextSuggests(input: string, start: nat)
    requires start <= |input|
  {
    var window := Lower(input[(if start >= 48 then start - 48 else 0)..start]);
    exists i :: 0 <= i < |HINTS| && Contains(window, HINTS[i])
  }

  predicate RunStart(input: string, s: nat) {
    s < |input| && IsTokenChar(input[s]) && (s > 0 ==> !IsTokenChar(input[s - 1]))
  }

  predicate Suspicious(crypto: Crypto, input: string, start: nat, end: nat)
    requires start <= end <= |input|
  {
    var value := input[start..end];
    && |value| >= 24 && crypto.highEntropy(value)
    && !StartsWith(value, "lockrail://")
    && (exists k :: 0 <= k < |value| && IsAsciiDigit(value[k]))
    && (exists k :: 0 <= k < |value| && IsAsciiAlphabetic(value[k]))
    && ContextSuggests(input, start)
  }

  predicate EntropyHit(crypto: Crypto, input: string, s: nat) {
    RunStart(input, s) && Suspicious(crypto, input, s, TokenEnd(input, s))
  }

  function EntropyAt(crypto: Crypto, input: string, options: Options, s: nat): Finding
    requires s <= |input|
  {
    FoundAt(crypto, input, "high-entropy-token", s, TokenEnd(input, s), Low, options)
  }

  /** What starts at `s`: a suspicious run or nothing. */
  function RunsAt(crypto: Crypto, input: string, options: Options): nat -> seq<Finding> {
    (s: nat) => if EntropyHit(crypto, input, s) then [EntropyAt(crypto, input, options, s)] else []
  }

  /** The suspicious maximal token runs that start before `limit`, in order. */
  ghost function EntropyRuns(crypto: Crypto, input: string, options: Options, limit: nat): seq<Finding> {
    Gathered(RunsAt(crypto, input, options), limit)
  }

  /** Every suspicious maximal run is reported, and nothing else is. */
  lemma EntropyFindings(crypto: Crypto, input: string, options: Options, limit: nat, f: Finding)
    ensures f in EntropyRuns(crypto, input, options, limit) <==>
            f.start < limit && EntropyHit(crypto, input, f.start) && f == EntropyAt(crypto, input, options, f.start)
  {
    GatheredFrom(RunsAt(crypto, input, options), limit, f);
    RunAt(crypto, input, options, f.start, f);
    if f in EntropyRuns(crypto, input, options, limit) {
      var p: nat :| p < limit && f in RunsAt(crypto, input, options)(p);
      RunAt(crypto, input, options, p, f);
    }
  }

  lemma RunAt(crypto: Crypto, input: string, options: Options, s: nat, f: Finding)
    ensures f in RunsAt(crypto, input, options)(s) <==>
            f.start == s && EntropyHit(crypto, input, f.start) && f == EntropyAt(crypto, input, options, f.start)
  {}

  method SkipToToken(input: string, from: nat) returns (i: nat)
    requires from <= |input|
    ensures from <= i <= |input|
    ensures forall k :: from <= k < i ==> !IsTokenChar(input[k])
    ensures i < |input| ==> IsTokenChar(input[i])
  {
    i := from;
    while i < |input| && !IsTokenChar(input[i])
      invariant from <= i <= |input|
      invariant forall k :: from <= k < i ==> !IsTokenChar(input[k])
    {
      i := i + 1;
    }
  }

  /** `scan_generic_entropy`. */
  method ScanGenericEntropy(crypto: Crypto, input: string, options: Options) returns (out: seq<Finding>)
    ensures out == EntropyRuns(crypto, input, options, |input|)
  {
    out := [];
    var i: nat := 0;
    while i < |input|
      invariant i <= |input|
      invariant 0 < i < |input| ==> !IsTokenChar(input[i])
      invariant out == EntropyRuns(crypto, input, options, i)
    {
      ghost var from := i;
      i := SkipToToken(input, i);
      NextRun(crypto, input, options, from, i);
      i, out := PushRun(crypto, input, options, i, out);
    }
  }

  /** What one round reports. */
  function EntropyRound(crypto: Crypto, input: string, options: Options, start: nat): seq<Finding>
    requires start <= |input|
  {
    var end := TokenEnd(input, start);
    if end > start && Suspicious(crypto, input, start, end) then [EntropyAt(crypto, input, options, start)] else []
  }

  /** The body of the loop for the run at `start`: read it and push it if it is suspicious. */
  method PushRun(
    crypto: Crypto, input: string, options: Options, start: nat, before: seq<Finding>)
    returns (end: nat, out: seq<Finding>)
    requires start <= |input|
    ensures end == TokenEnd(input, start) && out == before + EntropyRound(crypto, input, options, start)
  {
    out := before;
    end := ConsumeToken(input, start);
    if end > start {
      if Suspicious(crypto, input, start, end) {
        out := out + [Found(crypto, "high-entropy-token", start, end, input[start..end], Low, options)];
      }
    }
  }

  lemma NoRunAt(crypto: Crypto, input: string, options: Options, s: nat)
    requires !RunStart(input, s)
    ensures RunsAt(crypto, input, options)(s) == []
  {}

  lemma NoRunStarts(crypto: Crypto, input: string, options: Options, from: nat, to: nat)
    requires from <= to && forall k: nat :: from <= k < to ==> !RunStart(input, k)
    ensures EntropyRuns(crypto, input, options, to) == EntropyRuns(crypto, input, options, from)
  {
    forall k: nat | from <= k < to ensures RunsAt(crypto, input, options)(k) == [] {
      NoRunAt(crypto, input, options, k);
    }
    NothingGathered(RunsAt(crypto, input, options), from, to);
  }

  lemma RoundAtStart(crypto: Crypto, input: string, options: Options, s: nat)
    requires RunStart(input, s)
    ensures RunsAt(crypto, input, options)(s) == EntropyRound(crypto, input, options, s) && TokenEnd(input, s) > s
  {}

  /** Of the positions passed over in one round only `start` starts a run. */
  lemma NextRun(crypto: Crypto, input: string, options: Options, from: nat, start: nat)
    requires from <= start <= |input| && from < |input|
    requires 0 < from ==> !IsTokenChar(input[from])
    requires forall k :: from <= k < start ==> !IsTokenChar(input[k])
    requires start < |input| ==> IsTokenChar(input[start])
    ensures EntropyRuns(crypto, input, options, TokenEnd(input, start))
         == EntropyRuns(crypto, input, options, from) + EntropyRound(crypto, input, options, start)
  {
    NoRunStarts(crypto, input, options, from, start);
    if start < |input| {
      RoundAtStart(crypto, input, options, start);
      NoRunStarts(crypto, input, options, start + 1, TokenEnd(input, start));
    }
  }
}
