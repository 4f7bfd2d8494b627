/**
 The replay stores of the relay. Both prune expired entries before each check; a reject
 keeps the pruning in memory but not in the file. A history that is never pruned is the
 specification of both.
 */
module Replay {
  import opened Basics
  import opened LockedFile

  datatype Verdict = Fresh | ReplayDetected

  /** Expiry by joined key. */
  type Seen = map<string, int>

  /** `format!("{capability_hash}:{agent_id}:{nonce}")`. */
  function JoinKey(capabilityHash: string, agentId: string, nonce: string): string {
    capabilityHash + ":" + agentId + ":" + nonce
  }

  /** Keys of capability hashes of one length are equal exactly when the hashes and the agent-nonce tails are. */
  lemma JoinedKeysEqual(h1: string, a1: string, n1: string, h2: string, a2: string, n2: string)
    requires |h1| == |h2|
    ensures JoinKey(h1, a1, n1) == JoinKey(h2, a2, n2) <==> h1 == h2 && a1 + ":" + n1 == a2 + ":" + n2
  {
    var k1, k2 := JoinKey(h1, a1, n1), JoinKey(h2, a2, n2);
    assert k1 == h1 + (":" + (a1 + ":" + n1)) && k2 == h2 + (":" + (a2 + ":" + n2));
    if k1 == k2 {
      assert k1[..|h1|] == h1 && k2[..|h1|] == h2;
      assert k1[|h1| + 1..] == a1 + ":" + n1 && k2[|h1| + 1..] == a2 + ":" + n2;
    }
  }

  /** Colon-free agent ids make the key tell all triples apart. */
  lemma JoinedKeysDistinguish(h1: string, a1: string, n1: string, h2: string, a2: string, n2: string)
    requires |h1| == |h2| && ':' !in a1 && ':' !in a2
    ensures JoinKey(h1, a1, n1) == JoinKey(h2, a2, n2) <==> (h1, a1, n1) == (h2, a2, n2)
  {
    JoinedKeysEqual(h1, a1, n1, h2, a2, n2);
    var t1, t2 := a1 + ":" + n1, a2 + ":" + n2;
    assert t1[|a1|] == ':' && forall i :: 0 <= i < |a1| ==> t1[i] == a1[i] && a1[i] in a1;
    assert t2[|a2|] == ':' && forall i :: 0 <= i < |a2| ==> t2[i] == a2[i] && a2[i] in a2;
    if t1 == t2 {
      assert |a1| == |a2|;
      assert t1[..|a1|] == a1 && t2[..|a1|] == a2;
      assert t1[|a1| + 1..] == n1 && t2[|a1| + 1..] == n2;
    }
  }

  /**
   Which agent ids can clash, for some nonces: exactly those of which one is the other, or
   continues the other behind a colon.
   */
  lemma AgentsClashIff(h: string, a1: string, a2: string)
    ensures (exists n1, n2 :: JoinKey(h, a1, n1) == JoinKey(h, a2, n2))
       <==> a1 == a2 || a1 + ":" <= a2 || a2 + ":" <= a1
  {
    if n1, n2 :| JoinKey(h, a1, n1) == JoinKey(h, a2, n2) {
      JoinedKeysEqual(h, a1, n1, h, a2, n2);
      TailsClash(a1, n1, a2, n2);
    }
    if a1 == a2 { assert JoinKey(h, a1, "") == JoinKey(h, a2, ""); }
    if a1 + ":" <= a2 { ClashingNonces(h, a1, a2); }
    if a2 + ":" <= a1 { ClashingNonces(h, a2, a1); }
  }

  lemma TailsClash(a1: string, n1: string, a2: string, n2: string)
    requires a1 + ":" + n1 == a2 + ":" + n2
    ensures a1 == a2 || a1 + ":" <= a2 || a2 + ":" <= a1
  {
    var t := a1 + ":" + n1;
    assert t[..|a1|] == a1 && t[..|a2|] == a2 && t[|a1|] == ':' && t[|a2|] == ':';
    if |a1| < |a2| {
      assert a2[..|a1| + 1] == t[..|a1| + 1] == a1 + ":";
    } else if |a2| < |a1| {
      assert a1[..|a2| + 1] == t[..|a2| + 1] == a2 + ":";
    }
  }

  lemma ClashingNonces(h: string, short: string, long: string)
    requires short + ":" <= long
    ensures exists n1, n2 :: JoinKey(h, short, n1) == JoinKey(h, long, n2)
    ensures exists n1, n2 :: JoinKey(h, long, n1) == JoinKey(h, short, n2)
  {
    var rest := long[|short| + 1..];
    assert long == short + ":" + rest;
    JoinedKeysEqual(h, short, rest + ":", h, long, "");
    assert short + ":" + (rest + ":") == long + ":" + "";
    assert JoinKey(h, short, rest + ":") == JoinKey(h, long, "");
    assert JoinKey(h, long, "") == JoinKey(h, short, rest + ":");
  }

  /** An agent id with a colon can share its key with another agent's nonce. */
  lemma ColonBlursKeys(hash: string)
    ensures JoinKey(hash, "a:b", "c") == JoinKey(hash, "a", "b:c")
  {
    assert hash + ":" + "a:b" + ":" + "c" == hash + ":" + "a" + ":" + "b:c";
  }

  function Prune(seen: Seen, now: int): Seen {
    map k | k in seen && seen[k] >= now :: seen[k]
  }

  /** `InMemoryReplayStore::check_and_store`. */
  function MemoryCheck(seen: Seen, key: string, expiresAt: int, now: int): (Seen, Verdict) {
    var pruned := Prune(seen, now);
    if key in pruned then (pruned, ReplayDetected) else (pruned[key := expiresAt], Fresh)
  }

  /** The file: absent until the first accepted check. */
  type SeenFile = Option<Seen>

  function Load(file: SeenFile): Seen {
    if file.Some? then file.value else map[]
  }

  /** `FileReplayStore::check_and_store`: a reject leaves the file as it was. */
  function FileCheck(file: SeenFile, key: string, expiresAt: int, now: int): (SeenFile, Verdict) {
    var pruned := Prune(Load(file), now);
    if key in pruned then (file, ReplayDetected) else (Some(pruned[key := expiresAt]), Fresh)
  }

  class InMemoryReplayStore {
    var inner: Seen

    constructor ()
      ensures inner == map[]
    {
      inner := map[];
    }

    method CheckAndStore(
      capabilityHash: string, agentId: string, nonce: string, expiresAt: int, now: int) returns (v: Verdict)
      modifies this
      ensures (inner, v) == MemoryCheck(old(inner), JoinKey(capabilityHash, agentId, nonce), expiresAt, now)
      ensures v == ReplayDetected <==>
              var key := JoinKey(capabilityHash, agentId, nonce); key in old(inner) && old(inner)[key] >= now
    {
      var key := JoinKey(capabilityHash, agentId, nonce);
      inner := map k | k in inner && inner[k] >= now :: inner[k];
      if key in inner {
        return ReplayDetected;
      }
      inner := inner[key := expiresAt];
      return Fresh;
    }
  }

  class FileReplayStore {
    var file: SeenFile

    constructor (file: SeenFile)
      ensures this.file == file
    {
      this.file := file;
    }

    /** The body between taking and releasing the lock. */
    method CheckAndStore(
      capabilityHash: string, agentId: string, nonce: string, expiresAt: int, now: int) returns (v: Verdict)
      modifies this
      ensures (file, v) == FileCheck(old(file), JoinKey(capabilityHash, agentId, nonce), expiresAt, now)
      ensures v == ReplayDetected ==> file == old(file)
    {
      var seen := Load(file);
      seen := map k | k in seen && seen[k] >= now :: seen[k];
      var key := JoinKey(capabilityHash, agentId, nonce);
      if key in seen {
        return ReplayDetected;
      }
      seen := seen[key := expiresAt];
      file := Some(seen);
      return Fresh;
    }
  }

  /** An accepted check. */
  datatype Accept = Accept(key: string, expiresAt: int)

  /** Some accepted check of this key has not expired at `now`. */
  ghost predicate Live(history: seq<Accept>, key: string, now: int) {
    exists i :: 0 <= i < |history| && history[i].key == key && history[i].expiresAt >= now
  }

  /** The specification: reject while an accepted check of the key is unexpired; forget nothing. */
  ghost function HistoryCheck(history: seq<Accept>, key: string, expiresAt: int, now: int): (seq<Accept>, Verdict) {
    if Live(history, key, now) then (history, ReplayDetected) else (history + [Accept(key, expiresAt)], Fresh)
  }

  /** From `now` on the pruned map says of every key what the whole history says. */
  ghost predicate Refines(seen: Seen, history: seq<Accept>, now: int) {
    forall key, t :: t >= now ==> (Live(history, key, t) <==> key in seen && seen[key] >= t)
  }

  lemma EmptyRefines(now: int)
    ensures Refines(map[], [], now)
  {}

  lemma LaterRefines(seen: Seen, history: seq<Accept>, now: int, later: int)
    requires Refines(seen, history, now) && now <= later
    ensures Refines(seen, history, later) && Refines(Prune(seen, later), history, later)
  {}

  lemma AcceptRefines(seen: Seen, history: seq<Accept>, key: string, expiresAt: int, now: int)
    requires Refines(seen, history, now) && !Live(history, key, now)
    ensures Refines(seen[key := expiresAt], history + [Accept(key, expiresAt)], now)
  {
    forall k, t | t >= now
      ensures Live(history + [Accept(key, expiresAt)], k, t)
         <==> k in seen[key := expiresAt] && seen[key := expiresAt][k] >= t
    {
      LiveGrows(history, Accept(key, expiresAt), k, t);
      LiveEarlier(history, k, now, t);
    }
  }

  lemma LiveEarlier(history: seq<Accept>, key: string, now: int, t: int)
    requires now <= t
    ensures Live(history, key, t) ==> Live(history, key, now)
  {}

  lemma LiveGrows(history: seq<Accept>, last: Accept, key: string, t: int)
    ensures Live(history + [last], key, t) <==> Live(history, key, t) || (last.key == key && last.expiresAt >= t)
  {
    var longer := history + [last];
    assert longer[|history|] == last;
    if Live(history, key, t) {
      var i :| 0 <= i < |history| && history[i].key == key && history[i].expiresAt >= t;
      assert longer[i] == history[i];
    }
  }

  /** One check of either store gives the history's verdict and keeps refining it. */
  lemma ChecksRefine(seen: Seen, history: seq<Accept>, before: int, key: string, expiresAt: int, now: int)
    requires Refines(seen, history, before) && before <= now
    ensures MemoryCheck(seen, key, expiresAt, now).1 == HistoryCheck(history, key, expiresAt, now).1
    ensures Refines(MemoryCheck(seen, key, expiresAt, now).0, HistoryCheck(history, key, expiresAt, now).0, now)
    ensures forall file: SeenFile | Load(file) == seen ::
              && FileCheck(file, key, expiresAt, now).1 == HistoryCheck(history, key, expiresAt, now).1
              && Refines(Load(FileCheck(file, key, expiresAt, now).0), HistoryCheck(history, key, expiresAt, now).0,
                         now)
  {
    LaterRefines(seen, history, before, now);
    if !Live(history, key, now) { AcceptRefines(Prune(seen, now), history, key, expiresAt, now); }
  }

  /** One check of the store in use: of the file, whose contents are `seen`, or of memory. */
  function StoreCheck(onFile: bool, seen: Seen, key: string, expiresAt: int, now: int): (Seen, Verdict) {
    if onFile then
      var (file, verdict) := FileCheck(Some(seen), key, expiresAt, now);
      (Load(file), verdict)
    else MemoryCheck(seen, key, expiresAt, now)
  }

  /** The key was held unexpired at the start, or an accepted check of it has not expired. */
  ghost predicate Held(before: Seen, history: seq<Accept>, key: string, now: int) {
    (key in before && before[key] >= now) || Live(history, key, now)
  }

  /** From `now` on the pruned map says of every key what the start and the whole history since say. */
  ghost predicate Continues(before: Seen, seen: Seen, history: seq<Accept>, now: int) {
    forall key, t :: t >= now ==> (Held(before, history, key, t) <==> key in seen && seen[key] >= t)
  }

  lemma AcceptContinues(before: Seen, seen: Seen, history: seq<Accept>, key: string, expiresAt: int, now: int)
    requires Continues(before, seen, history, now) && !Held(before, history, key, now)
    ensures Continues(before, seen[key := expiresAt], history + [Accept(key, expiresAt)], now)
  {
    var next := seen[key := expiresAt];
    forall k, t | t >= now
      ensures Held(before, history + [Accept(key, expiresAt)], k, t) <==> k in next && next[k] >= t
    {
      LiveGrows(history, Accept(key, expiresAt), k, t);
      LiveEarlier(history, k, now, t);
      assert Held(before, history, k, t) <==> k in seen && seen[k] >= t;
    }
  }

  /** A check of either store, with a clock reading that may have grown old, keeps that up at the clock itself. */
  lemma StaleCheckContinues(
    onFile: bool, before: Seen, seen: Seen, history: seq<Accept>, clock: int, key: string, expiresAt: int, reading: int)
    requires Continues(before, seen, history, clock) && reading <= clock
    ensures
      var (next, verdict) := StoreCheck(onFile, seen, key, expiresAt, reading);
      && (verdict == Fresh ==> !Held(before, history, key, clock))
      && (reading == clock ==> (verdict == Fresh <==> !Held(before, history, key, clock)))
      && Continues(before, next, if verdict == Fresh then history + [Accept(key, expiresAt)] else history, clock)
  {
    var pruned := Prune(seen, reading);
    assert Continues(before, pruned, history, clock);
    if StoreCheck(onFile, seen, key, expiresAt, reading).1 == Fresh {
      assert !Held(before, history, key, clock);
      AcceptContinues(before, pruned, history, key, expiresAt, clock);
    }
  }

  datatype Check = Check(key: string, expiresAt: int, now: int)

  predicate ClockForward(checks: seq<Check>, start: int) {
    && (forall i :: 0 <= i < |checks| ==> start <= checks[i].now)
    && forall i, j :: 0 <= i < j < |checks| ==> checks[i].now <= checks[j].now
  }

  function MemoryVerdicts(seen: Seen, checks: seq<Check>): seq<Verdict>
    decreases |checks|
  {
    if checks == [] then []
    else
      var (next, v) := MemoryCheck(seen, checks[0].key, checks[0].expiresAt, checks[0].now);
      [v] + MemoryVerdicts(next, checks[1..])
  }

  function FileVerdicts(file: SeenFile, checks: seq<Check>): seq<Verdict>
    decreases |checks|
  {
    if checks == [] then []
    else
      var (next, v) := FileCheck(file, checks[0].key, checks[0].expiresAt, checks[0].now);
      [v] + FileVerdicts(next, checks[1..])
  }

  ghost function HistoryVerdicts(history: seq<Accept>, checks: seq<Check>): (vs: seq<Verdict>)
    ensures |vs| == |checks|
    decreases |checks|
  {
    if checks == [] then []
    else
      var (next, v) := HistoryCheck(history, checks[0].key, checks[0].expiresAt, checks[0].now);
      [v] + HistoryVerdicts(next, checks[1..])
  }

  /** On every run with a forward clock both stores give the unpruned history's verdicts. */
  lemma {:induction false} StoresAgree(seen: Seen, file: SeenFile, history: seq<Accept>, start: int, checks: seq<Check>)
    requires Refines(seen, history, start) && Refines(Load(file), history, start)
    requires ClockForward(checks, start)
    ensures MemoryVerdicts(seen, checks) == HistoryVerdicts(history, checks)
    ensures FileVerdicts(file, checks) == HistoryVerdicts(history, checks)
    decreases checks
  {
    if checks != [] {
      var c := checks[0];
      ChecksRefine(seen, history, start, c.key, c.expiresAt, c.now);
      ChecksRefine(Load(file), history, start, c.key, c.expiresAt, c.now);
      StoresAgree(MemoryCheck(seen, c.key, c.expiresAt, c.now).0, FileCheck(file, c.key, c.expiresAt, c.now).0,
                  HistoryCheck(history, c.key, c.expiresAt, c.now).0, c.now, checks[1..]);
    }
  }

  /** An earlier check of the run with this key was accepted and is unexpired at `now`. */
  ghost predicate AcceptedBefore(checks: seq<Check>, verdicts: seq<Verdict>, i: nat, key: string, now: int)
    requires |verdicts| == |checks| && i <= |checks|
  {
    exists j :: 0 <= j < i && verdicts[j] == Fresh && checks[j].key == key && checks[j].expiresAt >= now
  }

  /** The history verdicts, said without the history. */
  lemma {:induction false} HistoryMeans(history: seq<Accept>, checks: seq<Check>, i: nat)
    requires i < |checks|
    ensures var verdicts := HistoryVerdicts(history, checks);
            verdicts[i] == ReplayDetected <==>
            Live(history, checks[i].key, checks[i].now)
            || AcceptedBefore(checks, verdicts, i, checks[i].key, checks[i].now)
    decreases checks
  {
    var verdicts := HistoryVerdicts(history, checks);
    if i > 0 {
      var (next, v) := HistoryCheck(history, checks[0].key, checks[0].expiresAt, checks[0].now);
      var later := HistoryVerdicts(next, checks[1..]);
      assert verdicts == [v] + later;
      HistoryMeans(next, checks[1..], i - 1);
      LiveGrows(history, Accept(checks[0].key, checks[0].expiresAt), checks[i].key, checks[i].now);
      if AcceptedBefore(checks[1..], later, i - 1, checks[i].key, checks[i].now) {
        var j :| 0 <= j < i - 1 && later[j] == Fresh && checks[1..][j].key == checks[i].key &&
                 checks[1..][j].expiresAt >= checks[i].now;
        assert verdicts[j + 1] == Fresh && checks[j + 1] == checks[1..][j];
      }
      if AcceptedBefore(checks, verdicts, i, checks[i].key, checks[i].now) {
        var j :| 0 <= j < i && verdicts[j] == Fresh && checks[j].key == checks[i].key &&
                 checks[j].expiresAt >= checks[i].now;
        if j > 0 { assert later[j - 1] == Fresh && checks[1..][j - 1] == checks[j]; }
      }
    }
  }

  /**
   Starting empty, with a forward clock, both stores reject a check exactly when an earlier
   accepted check of the same key has not expired by then.
   */
  lemma {:induction false} RejectsExactlyLive(start: int, checks: seq<Check>, i: nat)
    requires ClockForward(checks, start) && i < |checks|
    ensures var verdicts := HistoryVerdicts([], checks);
            && MemoryVerdicts(map[], checks) == verdicts && FileVerdicts(None, checks) == verdicts
            && (verdicts[i] == ReplayDetected <==> AcceptedBefore(checks, verdicts, i, checks[i].key, checks[i].now))
  {
    EmptyRefines(start);
    StoresAgree(map[], None, [], start, checks);
    HistoryMeans([], checks, i);
  }

  // ---------- any clock at all ----------

  /**
   An entry that expires at `expiry` survives every pruning by the checks after `j`, up to `i`, that prune for
   good.
   */
  ghost predicate Survives(
    checks: seq<Check>, verdicts: seq<Verdict>, everyCheckPrunes: bool, expiry: int, from: nat, i: nat)
    requires |verdicts| == |checks| && i < |checks|
  {
    forall m :: from <= m <= i && (m == i || everyCheckPrunes || verdicts[m] == Fresh) ==> expiry >= checks[m].now
  }

  /** Check `j` was accepted for the key of check `i` and is still in the store when check `i` looks. */
  ghost predicate HeldFrom(checks: seq<Check>, verdicts: seq<Verdict>, everyCheckPrunes: bool, j: nat, i: nat)
    requires |verdicts| == |checks| && j < i < |checks|
  {
    && verdicts[j] == Fresh && checks[j].key == checks[i].key
    && Survives(checks, verdicts, everyCheckPrunes, checks[j].expiresAt, j + 1, i)
  }

  /** An accepted check of the key before `i` is still in the store when check `i` looks. */
  ghost predicate StillHeld(checks: seq<Check>, verdicts: seq<Verdict>, everyCheckPrunes: bool, i: nat)
    requires |verdicts| == |checks| && i < |checks|
  {
    exists j :: 0 <= j < i && HeldFrom(checks, verdicts, everyCheckPrunes, j, i)
  }

  /** The key was in the store from the start and is still there when check `i` looks. */
  ghost predicate HeldFromStart(seen: Seen, checks: seq<Check>, verdicts: seq<Verdict>, everyCheckPrunes: bool, i: nat)
    requires |verdicts| == |checks| && i < |checks|
  {
    checks[i].key in seen && Survives(checks, verdicts, everyCheckPrunes, seen[checks[i].key], 0, i)
  }

  /** Surviving from `from` on is passing the check at `from` and surviving in the rest of the run. */
  lemma SurvivesStep(checks: seq<Check>, verdicts: seq<Verdict>, everyCheckPrunes: bool, expiry: int, from: nat, i: nat)
    requires |verdicts| == |checks| && 0 < i < |checks|
    ensures from > 0 ==>
              (Survives(checks, verdicts, everyCheckPrunes, expiry, from, i)
               <==> Survives(checks[1..], verdicts[1..], everyCheckPrunes, expiry, from - 1, i - 1))
    ensures from == 0 ==>
              (Survives(checks, verdicts, everyCheckPrunes, expiry, from, i)
               <==> (everyCheckPrunes || verdicts[0] == Fresh ==> expiry >= checks[0].now)
                    && Survives(checks[1..], verdicts[1..], everyCheckPrunes, expiry, 0, i - 1))
  {
    assert forall m :: 1 <= m <= i ==> checks[m] == checks[1..][m - 1] && verdicts[m] == verdicts[1..][m - 1];
    assert forall m :: 0 <= m <= i - 1 ==> checks[1..][m] == checks[m + 1] && verdicts[1..][m] == verdicts[m + 1];
  }

  /** What is held in the whole run is held in the rest of it, or was accepted by the first check. */
  lemma StillHeldStep(checks: seq<Check>, verdicts: seq<Verdict>, everyCheckPrunes: bool, i: nat)
    requires |verdicts| == |checks| && 0 < i < |checks|
    ensures StillHeld(checks, verdicts, everyCheckPrunes, i)
       <==> StillHeld(checks[1..], verdicts[1..], everyCheckPrunes, i - 1)
            || (verdicts[0] == Fresh && checks[0].key == checks[i].key
                && Survives(checks[1..], verdicts[1..], everyCheckPrunes, checks[0].expiresAt, 0, i - 1))
  {
    var cs, vs := checks[1..], verdicts[1..];
    forall j | 0 <= j < i
      ensures Survives(checks, verdicts, everyCheckPrunes, checks[j].expiresAt, j + 1, i)
         <==> Survives(cs, vs, everyCheckPrunes, checks[j].expiresAt, j, i - 1)
    {
      SurvivesStep(checks, verdicts, everyCheckPrunes, checks[j].expiresAt, j + 1, i);
    }
    if StillHeld(cs, vs, everyCheckPrunes, i - 1) {
      var j :| 0 <= j < i - 1 && HeldFrom(cs, vs, everyCheckPrunes, j, i - 1);
      assert HeldFrom(checks, verdicts, everyCheckPrunes, j + 1, i);
    }
    if StillHeld(checks, verdicts, everyCheckPrunes, i) {
      var j :| 0 <= j < i && HeldFrom(checks, verdicts, everyCheckPrunes, j, i);
      if j > 0 { assert HeldFrom(cs, vs, everyCheckPrunes, j - 1, i - 1); }
    }
    if verdicts[0] == Fresh && checks[0].key == checks[i].key &&
       Survives(cs, vs, everyCheckPrunes, checks[0].expiresAt, 0, i - 1) {
      assert HeldFrom(checks, verdicts, everyCheckPrunes, 0, i);
    }
  }

  /**
   The in-memory store under any clock: rejected exactly when held from the start or accepted and not pruned since.
   */
  lemma {:induction false} MemoryRejects(seen: Seen, checks: seq<Check>, i: nat)
    requires i < |checks|
    ensures |MemoryVerdicts(seen, checks)| == |checks|
    ensures
      var verdicts := MemoryVerdicts(seen, checks);
      verdicts[i] == ReplayDetected <==>
      (HeldFromStart(seen, checks, verdicts, true, i) || StillHeld(checks, verdicts, true, i))
    decreases |checks|
  {
    MemoryCounts(seen, checks);
    var c := checks[0];
    var verdicts := MemoryVerdicts(seen, checks);
    var next := MemoryCheck(seen, c.key, c.expiresAt, c.now).0;
    assert verdicts[1..] == MemoryVerdicts(next, checks[1..]);
    if i > 0 {
      MemoryRejects(next, checks[1..], i - 1);
      StillHeldStep(checks, verdicts, true, i);
      if checks[i].key in seen { SurvivesStep(checks, verdicts, true, seen[checks[i].key], 0, i); }
    }
  }

  lemma {:induction false} MemoryCounts(seen: Seen, checks: seq<Check>)
    ensures |MemoryVerdicts(seen, checks)| == |checks|
    decreases |checks|
  {
    if checks != [] {
      MemoryCounts(MemoryCheck(seen, checks[0].key, checks[0].expiresAt, checks[0].now).0, checks[1..]);
    }
  }

  lemma {:induction false} FileCounts(file: SeenFile, checks: seq<Check>)
    ensures |FileVerdicts(file, checks)| == |checks|
    decreases |checks|
  {
    if checks != [] { FileCounts(FileCheck(file, checks[0].key, checks[0].expiresAt, checks[0].now).0, checks[1..]); }
  }

  /** The file store under any clock: only accepted checks prune for good. */
  lemma {:induction false} FileRejects(file: SeenFile, checks: seq<Check>, i: nat)
    requires i < |checks|
    ensures |FileVerdicts(file, checks)| == |checks|
    ensures
      var verdicts := FileVerdicts(file, checks);
      verdicts[i] == ReplayDetected
      <==> HeldFromStart(Load(file), checks, verdicts, false, i) || StillHeld(checks, verdicts, false, i)
    decreases |checks|
  {
    FileCounts(file, checks);
    var c := checks[0];
    var verdicts := FileVerdicts(file, checks);
    var next := FileCheck(file, c.key, c.expiresAt, c.now).0;
    assert verdicts[1..] == FileVerdicts(next, checks[1..]);
    if i > 0 {
      FileRejects(next, checks[1..], i - 1);
      StillHeldStep(checks, verdicts, false, i);
      if checks[i].key in Load(file) { SurvivesStep(checks, verdicts, false, Load(file)[checks[i].key], 0, i); }
    }
  }

  /**
   Starting empty, under any clock: a check is rejected exactly when an earlier accepted check of its
   key has survived the pruning since, by every check in memory, by the accepted ones in the file.
   */
  lemma {:induction false} RejectsExactlyHeld(checks: seq<Check>, i: nat)
    requires i < |checks|
    ensures |MemoryVerdicts(map[], checks)| == |checks| && |FileVerdicts(None, checks)| == |checks|
    ensures MemoryVerdicts(map[], checks)[i] == ReplayDetected
       <==> StillHeld(checks, MemoryVerdicts(map[], checks), true, i)
    ensures FileVerdicts(None, checks)[i] == ReplayDetected <==> StillHeld(checks, FileVerdicts(None, checks), false, i)
  {
    MemoryRejects(map[], checks, i);
    FileRejects(None, checks, i);
  }

  /** A rejected check between `j` and `i` saw a clock beyond the expiry of check `j`. */
  ghost predicate RejectPruned(checks: seq<Check>, verdicts: seq<Verdict>, j: nat, i: nat)
    requires |verdicts| == |checks| && j < i < |checks|
  {
    exists m :: j < m < i && verdicts[m] == ReplayDetected && checks[j].expiresAt < checks[m].now
  }

  /**
   Where the two stores part: as long as they have agreed, the next verdict differs exactly when the file
   still holds the key and, for each accepted check that it holds it from, a rejected check has pruned
   that one from memory. Then the file rejects and the memory accepts.
   */
  lemma {:induction false} StoresPart(checks: seq<Check>, i: nat)
    requires i < |checks|
    requires |MemoryVerdicts(map[], checks)| == |checks| && |FileVerdicts(None, checks)| == |checks|
    requires MemoryVerdicts(map[], checks)[..i] == FileVerdicts(None, checks)[..i]
    ensures
      var memory, file := MemoryVerdicts(map[], checks), FileVerdicts(None, checks);
      && (memory[i] != file[i] ==> memory[i] == Fresh && file[i] == ReplayDetected)
      && (memory[i] != file[i] <==>
          && file[i] == ReplayDetected
          && forall j :: 0 <= j < i && HeldFrom(checks, file, false, j, i) ==> RejectPruned(checks, file, j, i))
  {
    var memory, file := MemoryVerdicts(map[], checks), FileVerdicts(None, checks);
    RejectsExactlyHeld(checks, i);
    assert forall m :: 0 <= m < i ==> memory[m] == memory[..i][m] == file[..i][m] == file[m];
    forall j | 0 <= j < i
      ensures HeldFrom(checks, memory, true, j, i)
         <==> HeldFrom(checks, file, false, j, i) && !RejectPruned(checks, file, j, i)
    {
      SurvivesBoth(checks, memory, file, j, i);
    }
  }

  lemma SurvivesBoth(checks: seq<Check>, memory: seq<Verdict>, file: seq<Verdict>, j: nat, i: nat)
    requires |memory| == |file| == |checks| && j < i < |checks|
    requires forall m :: 0 <= m < i ==> memory[m] == file[m]
    ensures Survives(checks, memory, true, checks[j].expiresAt, j + 1, i)
       <==> Survives(checks, file, false, checks[j].expiresAt, j + 1, i) && !RejectPruned(checks, file, j, i)
  {
    if Survives(checks, file, false, checks[j].expiresAt, j + 1, i) && !RejectPruned(checks, file, j, i) {
      forall m | j + 1 <= m <= i ensures checks[j].expiresAt >= checks[m].now {
        assert m < i && file[m] != Fresh ==> file[m] == ReplayDetected;
      }
    }
  }

  /** A run on which they do part: the second check of `x` is rejected late and prunes `k` from memory only. */
  lemma BackwardClockParts()
    ensures
      var checks := [Check("k", 10, 5), Check("x", 20, 5), Check("x", 20, 11), Check("k", 10, 6)];
      && MemoryVerdicts(map[], checks) == [Fresh, Fresh, ReplayDetected, Fresh]
      && FileVerdicts(None, checks) == [Fresh, Fresh, ReplayDetected, ReplayDetected]
  {
    var c0, c1, c2, c3 := Check("k", 10, 5), Check("x", 20, 5), Check("x", 20, 11), Check("k", 10, 6);
    assert [c0, c1, c2, c3][1..] == [c1, c2, c3] && [c1, c2, c3][1..] == [c2, c3] && [c2, c3][1..] == [c3] &&
           [c3][1..] == [];
    var s0: Seen := map[];
    var s1: Seen := map["k" := 10];
    var s2: Seen := map["k" := 10, "x" := 20];
    var s3: Seen := map["x" := 20];
    assert Prune(s0, 5) == s0 && Prune(s1, 5) == s1 && Prune(s2, 11) == s3 && Prune(s3, 6) == s3 && Prune(s2, 6) == s2;
    assert MemoryCheck(s0, "k", 10, 5) == (s1, Fresh) && MemoryCheck(s1, "x", 20, 5) == (s2, Fresh);
    assert MemoryCheck(s2, "x", 20, 11) == (s3, ReplayDetected) && MemoryCheck(s3, "k", 10, 6).1 == Fresh;
    assert MemoryVerdicts(s3, [c3]) == [Fresh];
    assert MemoryVerdicts(s2, [c2, c3]) == [ReplayDetected, Fresh];
    assert FileCheck(None, "k", 10, 5) == (Some(s1), Fresh) && FileCheck(Some(s1), "x", 20, 5) == (Some(s2), Fresh);
    assert FileCheck(Some(s2), "x", 20, 11) == (Some(s2), ReplayDetected);
    assert FileVerdicts(Some(s2), [c3]) == [ReplayDetected];
    assert FileVerdicts(Some(s2), [c2, c3]) == [ReplayDetected, ReplayDetected];
  }

  /** If the clock may step back the stores forget: the key is still unexpired when it is accepted again. */
  lemma BackwardClockForgets()
    ensures MemoryVerdicts(map[], [Check("k", 10, 5), Check("other", 20, 11), Check("k", 10, 6)])
         == [Fresh, Fresh, Fresh]
  {
    var c0, c1, c2 := Check("k", 10, 5), Check("other", 20, 11), Check("k", 10, 6);
    var checks := [c0, c1, c2];
    assert checks[1..] == [c1, c2] && [c1, c2][1..] == [c2] && [c2][1..] == [];
    var s0: Seen := map[];
    assert Prune(s0, 5) == map[];
    var s1: Seen := map["k" := 10];
    assert MemoryCheck(s0, "k", 10, 5) == (s1, Fresh);
    assert Prune(s1, 11) == map[];
    var s2: Seen := map["other" := 20];
    assert MemoryCheck(s1, "other", 20, 11) == (s2, Fresh);
    assert Prune(s2, 6) == s2;
    assert MemoryCheck(s2, "k", 10, 6).1 == Fresh;
    assert MemoryVerdicts(MemoryCheck(s2, "k", 10, 6).0, []) == [];
    assert MemoryVerdicts(s2, [c2]) == [Fresh];
    assert MemoryVerdicts(s1, [c1, c2]) == [Fresh, Fresh];
  }

  datatype CheckCall = CheckCall(key: string, expiresAt: int)

  /** What a process of the file store computes from the file it read and the clock. */
  function FileOp(now: int, file: SeenFile, call: CheckCall): (SeenFile, Verdict) {
    FileCheck(file, call.key, call.expiresAt, now)
  }

  /** The committed checks as a sequential run. */
  function Checks(calls: seq<CheckCall>, order: seq<Commit>): (cs: seq<Check>)
    requires forall i :: 0 <= i < |order| ==> order[i].pid < |calls|
    ensures |cs| == |order|
    ensures forall i :: 0 <= i < |order| ==>
                          cs[i] == Check(calls[order[i].pid].key, calls[order[i].pid].expiresAt, order[i].now)
  {
    seq(|order|, i requires 0 <= i < |order| =>
      Check(calls[order[i].pid].key, calls[order[i].pid].expiresAt, order[i].now))
  }

  /** Sequential answers of the locked file are the file store's verdicts on that run. */
  lemma {:induction false} AnswersAreVerdicts(calls: seq<CheckCall>, file: SeenFile, order: seq<Commit>, i: nat)
    requires forall j :: 0 <= j < |order| ==> order[j].pid < |calls|
    requires i < |order|
    ensures |FileVerdicts(file, Checks(calls, order))| == |order|
    ensures SequentialResult(FileOp, calls, file, order, i) == FileVerdicts(file, Checks(calls, order))[i]
    decreases order
  {
    var checks := Checks(calls, order);
    var next := FileOp(order[0].now, file, calls[order[0].pid]).0;
    assert checks[1..] == Checks(calls, order[1..]);
    if i > 0 {
      AnswersAreVerdicts(calls, next, order[1..], i - 1);
      SequentialFromNext(calls, file, order, i);
    } else if |order| > 1 {
      AnswersAreVerdicts(calls, next, order[1..], 0);
    }
  }

  lemma {:induction false} SequentialFromNext(calls: seq<CheckCall>, file: SeenFile, order: seq<Commit>, i: nat)
    requires forall j :: 0 <= j < |order| ==> order[j].pid < |calls|
    requires 0 < i < |order|
    ensures SequentialResult(FileOp, calls, file, order, i)
         == SequentialResult(FileOp, calls, FileOp(order[0].now, file, calls[order[0].pid]).0, order[1..], i - 1)
  {
    FileFromNext(calls, file, order[..i]);
    assert order[..i][1..] == order[1..][..i - 1];
  }

  lemma {:induction false} FileFromNext(calls: seq<CheckCall>, file: SeenFile, order: seq<Commit>)
    requires forall j :: 0 <= j < |order| ==> order[j].pid < |calls|
    requires |order| > 0
    ensures SequentialFile(FileOp, calls, file, order)
         == SequentialFile(FileOp, calls, FileOp(order[0].now, file, calls[order[0].pid]).0, order[1..])
    decreases order
  {
    if |order| > 1 {
      var n := |order| - 1;
      FileFromNext(calls, file, order[..n]);
      assert order[..n][1..] == order[1..][..n - 1];
    } else {
      assert order[..0] == [] && order[1..] == [];
    }
  }

  /** The committed calls, read as checks, and the verdicts the history gives them. */
  ghost predicate AnswersFollowHistory(calls: seq<CheckCall>, s: System<SeenFile, Verdict>)
    requires |calls| == |s.pcs| && Ordered(|calls|, s.clock, s.order)
  {
    var checks := Checks(calls, s.order);
    forall i :: 0 <= i < |s.order| ==>
                  && Answered(s.pcs[s.order[i].pid])
                  && Answer(s.pcs[s.order[i].pid]) == HistoryVerdicts([], checks)[i]
  }

  lemma InterleavedFollowsHistory(calls: seq<CheckCall>, clock: int, schedule: seq<Action>)
    ensures var s := Run(FileOp, calls, Init(clock, None, |calls|), schedule);
            && Ordered(|calls|, s.clock, s.order) && AnsweredAreCommitted(s) && AnswersFollowHistory(calls, s)
            && ClockForward(Checks(calls, s.order), clock)
  {
    var s := Run(FileOp, calls, Init(clock, None, |calls|), schedule);
    Linearizable(FileOp, calls, clock, None, schedule);
    var checks := Checks(calls, s.order);
    assert ClockForward(checks, clock);
    EmptyRefines(clock);
    StoresAgree(map[], None, [], clock, checks);
    forall i | 0 <= i < |s.order|
      ensures Answered(s.pcs[s.order[i].pid]) && Answer(s.pcs[s.order[i].pid]) == HistoryVerdicts([], checks)[i]
    {
      assert RightAnswer(FileOp, calls, None, s.pcs[s.order[i].pid], s.order, i);
      AnswersAreVerdicts(calls, None, s.order, i);
    }
  }

  /**
   Under any interleaving of file-store processes and any passage of time, a call is
   rejected exactly when an earlier committed call of its key was accepted and has not
   expired at the clock it read. So of two accepted calls with one key the later read
   the clock after the first one's expiry.
   */
  lemma InterleavedRejectsExactlyLive(calls: seq<CheckCall>, clock: int, schedule: seq<Action>, i: nat)
    requires i < |Run(FileOp, calls, Init(clock, None, |calls|), schedule).order|
    ensures var s := Run(FileOp, calls, Init(clock, None, |calls|), schedule);
            && Ordered(|calls|, s.clock, s.order) && AnsweredAreCommitted(s) && Answered(s.pcs[s.order[i].pid])
            && (Answer(s.pcs[s.order[i].pid]) == ReplayDetected <==> CommittedLive(calls, s, i))
  {
    var s := Run(FileOp, calls, Init(clock, None, |calls|), schedule);
    InterleavedFollowsHistory(calls, clock, schedule);
    var checks := Checks(calls, s.order);
    var verdicts := HistoryVerdicts([], checks);
    HistoryMeans([], checks, i);
    if AcceptedBefore(checks, verdicts, i, checks[i].key, checks[i].now) {
      var j :| 0 <= j < i && verdicts[j] == Fresh && checks[j].key == checks[i].key &&
               checks[j].expiresAt >= checks[i].now;
      assert AcceptedAt(calls, s, j, calls[s.order[i].pid].key, s.order[i].now);
    }
    if CommittedLive(calls, s, i) {
      var j :| 0 <= j < i && AcceptedAt(calls, s, j, calls[s.order[i].pid].key, s.order[i].now);
      assert verdicts[j] == Fresh;
    }
  }

  /** The call committed at place `j` was accepted for `key` and is unexpired at `now`. */
  ghost predicate AcceptedAt(calls: seq<CheckCall>, s: System<SeenFile, Verdict>, j: nat, key: string, now: int)
    requires |calls| == |s.pcs| && Ordered(|calls|, s.clock, s.order) && j < |s.order|
  {
    var pc := s.pcs[s.order[j].pid];
    Answered(pc) && Answer(pc) == Fresh && calls[s.order[j].pid].key == key && calls[s.order[j].pid].expiresAt >= now
  }

  ghost predicate CommittedLive(calls: seq<CheckCall>, s: System<SeenFile, Verdict>, i: nat)
    requires |calls| == |s.pcs| && Ordered(|calls|, s.clock, s.order) && i < |s.order|
  {
    exists j :: 0 <= j < i && AcceptedAt(calls, s, j, calls[s.order[i].pid].key, s.order[i].now)
  }
}
