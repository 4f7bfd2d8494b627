/** The environments of the vault: listing one, and rebuilding it from its exported text. */
module Environments {
  import opened Basics
  import opened Text
  import opened Ordering
  import opened Vaults
  import opened VaultRuns
  import opened Dotenv
  import opened DotenvRoundTrip

  /** The secrets with a tag, name by name. */
  function Tagged(data: VaultData, tag: string, names: seq<string>): seq<Pair> {
    if names == [] then []
    else
      (if names[0] in data.keys && tag in data.keys[names[0]].metadata.tags then
         [(names[0], data.keys[names[0]].value)] else [])
      + Tagged(data, tag, names[1..])
  }

  /** `secrets_for_env`: no environment means the default one. */
  ghost function EnvView(data: VaultData, environment: Option<string>): seq<Pair> {
    Tagged(data, EnvTag(if environment.Some? then environment.value else "default"), SortedKeys(data.keys.Keys))
  }

  function NamesOf(pairs: seq<Pair>): seq<string> {
    seq(|pairs|, i requires 0 <= i < |pairs| => pairs[i].0)
  }

  /** Setting the pairs in an environment from `i` on, up to the first error. */
  function Imports(
    fp: string -> string, s: Store, pairs: seq<Pair>, environment: string, now: int, saved: nat -> bool, i: nat)
    : Step<()>
    requires i <= |pairs|
    decreases |pairs| - i
  {
    if i == |pairs| then Step(s, Ok(())) else
    var one := KeyUpserted(fp, s, pairs[i].0, pairs[i].1, WithEnvTag([], environment), now, saved(i));
    if one.answer.Err? then one else Imports(fp, one.store, pairs, environment, now, saved, i + 1)
  }

  /** The import command: set each pair in turn. */
  method ImportSecrets(
    vault: Vault, pairs: seq<Pair>, environment: string, now: int, saved: nat -> bool)
    returns (r: Result<(), VaultError>)
    modifies vault
    ensures Step(vault.State(), r) == Imports(vault.fingerprint, old(vault.State()), pairs, environment, now, saved, 0)
  {
    for i := 0 to |pairs|
      invariant Imports(vault.fingerprint, vault.State(), pairs, environment, now, saved, i)
             == Imports(vault.fingerprint, old(vault.State()), pairs, environment, now, saved, 0)
    {
      var one := vault.SetSecret(pairs[i].0, pairs[i].1, environment, [], now, saved(i));
      if one.Err? {
        return one;
      }
    }
    return Ok(());
  }

  /** Setting one pair in the environment. */
  function PairSet(
    fp: string -> string, s: Store, pair: Pair, environment: string, now: int, saved: bool): Step<()>
  {
    KeyUpserted(fp, s, pair.0, pair.1, ["env:" + environment], now, saved)
  }

  /** The stores in which the pairs from `i` on are set: each is what setting the pair before it left. */
  ghost predicate Trace(
    fp: string -> string, stores: seq<Store>, pairs: seq<Pair>, environment: string, now: int, saved: nat -> bool,
    i: nat)
  {
    && 0 < |stores| && i + |stores| <= |pairs| + 1
    && forall k: nat :: k + 1 < |stores| ==>
                          PairSet(fp, stores[k], pairs[i + k], environment, now, saved(i + k))
                          == Step(stores[k + 1], Ok(()))
  }

  /** Importing sets the pairs in turn, and ends at the end or at the first that cannot be set, with its error. */
  lemma {:induction false} ImportsStop(
    fp: string -> string, s: Store, pairs: seq<Pair>, environment: string, now: int, saved: nat -> bool, i: nat)
    returns (stores: seq<Store>)
    requires i <= |pairs|
    ensures Trace(fp, stores, pairs, environment, now, saved, i) && stores[0] == s
    ensures
      var result := Imports(fp, s, pairs, environment, now, saved, i);
      var n := |stores| - 1;
      if i + n == |pairs| then result == Step(stores[n], Ok(()))
      else result == PairSet(fp, stores[n], pairs[i + n], environment, now, saved(i + n)) && result.answer.Err?
    decreases |pairs| - i
  {
    stores := [s];
    if i < |pairs| {
      var one := PairSet(fp, s, pairs[i], environment, now, saved(i));
      assert WithEnvTag([], environment) == ["env:" + environment];
      if one.answer.Ok? {
        var later := ImportsStop(fp, one.store, pairs, environment, now, saved, i + 1);
        stores := [s] + later;
        forall k: nat | k + 1 < |stores|
          ensures PairSet(fp, stores[k], pairs[i + k], environment, now, saved(i + k)) == Step(stores[k + 1], Ok(()))
        {
          if k > 0 { assert stores[k] == later[k - 1] && stores[k + 1] == later[k] && i + k == i + 1 + (k - 1); }
        }
      }
    }
  }

  // ---------- what an environment lists ----------

  /** Each pair is a stored secret. */
  predicate Holds(data: VaultData, pairs: seq<Pair>) {
    forall i :: 0 <= i < |pairs| ==> pairs[i].0 in data.keys && data.keys[pairs[i].0].value == pairs[i].1
  }

  /** The listed names are ascending and were asked for. */
  lemma {:induction false} TaggedAscends(data: VaultData, tag: string, names: seq<string>)
    requires Ascending(names)
    ensures Ascending(NamesOf(Tagged(data, tag, names)))
    ensures forall i :: 0 <= i < |Tagged(data, tag, names)| ==> Tagged(data, tag, names)[i].0 in names
    ensures Holds(data, Tagged(data, tag, names))
    decreases names
  {
    if names != [] {
      TaggedAscends(data, tag, names[1..]);
      assert names == [names[0]] + names[1..];
      var all, rest := Tagged(data, tag, names), Tagged(data, tag, names[1..]);
      assert all == rest || NamesOf(all) == [names[0]] + NamesOf(rest);
      forall i | 0 <= i < |rest| ensures Before(names[0], rest[i].0) {
        var j :| 0 <= j < |names[1..]| && names[1..][j] == rest[i].0;
        assert names[j + 1] == rest[i].0;
      }
    }
  }

  lemma ViewAscends(data: VaultData, environment: Option<string>)
    ensures Ascending(NamesOf(EnvView(data, environment)))
    ensures Holds(data, EnvView(data, environment))
  {
    SortedKeysListsAll(data.keys.Keys);
    TaggedAscends(data, EnvTag(if environment.Some? then environment.value else "default"), SortedKeys(data.keys.Keys));
  }

  // ---------- what importing leaves in the vault ----------

  /** The vault holds exactly the first `n` pairs, each tagged. */
  ghost predicate HoldsPairs(data: VaultData, pairs: seq<Pair>, tag: string, n: nat)
    requires n <= |pairs|
  {
    && (forall name :: name in data.keys <==> name in NamesOf(pairs[..n]))
    && (forall i :: 0 <= i < n ==>
                      pairs[i].0 in data.keys && data.keys[pairs[i].0].value == pairs[i].1 &&
                      data.keys[pairs[i].0].metadata.tags == [tag])
  }

  /** Pairs that `set_secret` accepts. */
  predicate Storable(pairs: seq<Pair>) {
    forall i :: 0 <= i < |pairs| ==> ValidName(pairs[i].0) && !PreviewPanics(pairs[i].1)
  }

  lemma OneMorePair(fp: string -> string, s: Store, pairs: seq<Pair>, environment: string, now: int, n: nat)
    requires n < |pairs| && Ascending(NamesOf(pairs)) && HoldsPairs(s.mem, pairs, EnvTag(environment), n)
    requires ValidName(pairs[n].0) && !PreviewPanics(pairs[n].1)
    ensures HoldsPairs(KeyUpserted(fp, s, pairs[n].0, pairs[n].1, WithEnvTag([], environment), now, true).store.mem,
                       pairs, EnvTag(environment), n + 1)
  {
    var names := NamesOf(pairs);
    assert NamesOf(pairs[..n + 1]) == NamesOf(pairs[..n]) + [pairs[n].0];
    forall i | 0 <= i < n ensures pairs[i].0 != pairs[n].0 {
      assert names[i] == pairs[i].0 && names[n] == pairs[n].0;
      BeforeIsTotal(names[i], names[n]);
    }
  }

  lemma {:induction false} ImportsHold(
    fp: string -> string, s: Store, pairs: seq<Pair>, environment: string, now: int, saved: nat -> bool, n: nat)
    requires n <= |pairs| && Ascending(NamesOf(pairs)) && Storable(pairs)
    requires HoldsPairs(s.mem, pairs, EnvTag(environment), n)
    requires forall i: nat :: i < |pairs| ==> saved(i)
    ensures
      var after := Imports(fp, s, pairs, environment, now, saved, n);
      after.answer.Ok? && HoldsPairs(after.store.mem, pairs, EnvTag(environment), |pairs|)
    decreases |pairs| - n
  {
    if n < |pairs| {
      OneMorePair(fp, s, pairs, environment, now, n);
      var one := KeyUpserted(fp, s, pairs[n].0, pairs[n].1, WithEnvTag([], environment), now, saved(n));
      ImportsHold(fp, one.store, pairs, environment, now, saved, n + 1);
    }
  }

  lemma {:induction false} TaggedIs(data: VaultData, pairs: seq<Pair>, tag: string, n: nat)
    requires n <= |pairs| && HoldsPairs(data, pairs, tag, |pairs|)
    ensures Tagged(data, tag, NamesOf(pairs)[n..]) == pairs[n..]
    decreases |pairs| - n
  {
    var names := NamesOf(pairs);
    if n < |pairs| {
      TaggedIs(data, pairs, tag, n + 1);
      assert names[n..][0] == pairs[n].0 && names[n..][1..] == names[n + 1..];
      assert pairs[n..] == [pairs[n]] + pairs[n + 1..];
    }
  }

  lemma HeldPairsAreListed(data: VaultData, pairs: seq<Pair>, environment: string)
    requires Ascending(NamesOf(pairs)) && HoldsPairs(data, pairs, EnvTag(environment), |pairs|)
    ensures EnvView(data, Some(environment)) == pairs
  {
    SortedKeysListsAll(data.keys.Keys);
    assert pairs[..|pairs|] == pairs;
    AscendingIsUnique(SortedKeys(data.keys.Keys), NamesOf(pairs));
    TaggedIs(data, pairs, EnvTag(environment), 0);
    assert NamesOf(pairs)[0..] == NamesOf(pairs) && pairs[0..] == pairs;
  }

  /**
   Exporting an environment and importing the text into an empty vault, under any
   environment name, rebuilds the same environment when its names and values are portable.
   */
  lemma {:induction false} EnvironmentRebuilt(
    fp: string -> string, data: VaultData, environment: Option<string>, target: string, now: int, saved: nat -> bool)
    requires Sound(data) && Portable(EnvView(data, environment))
    requires forall i: nat :: i < |EnvView(data, environment)| ==> saved(i)
    ensures
      var pairs := Imported(Lines(Exported(EnvView(data, environment))));
      var after := Imports(fp, Store(EMPTY, EMPTY), pairs, target, now, saved, 0);
      after.answer.Ok? && EnvView(after.store.mem, Some(target)) == EnvView(data, environment)
  {
    var view := EnvView(data, environment);
    ViewAscends(data, environment);
    PortableComesBack(view);
    ImportsHold(fp, Store(EMPTY, EMPTY), view, target, now, saved, 0);
    HeldPairsAreListed(Imports(fp, Store(EMPTY, EMPTY), view, target, now, saved, 0).store.mem, view, target);
  }
}
