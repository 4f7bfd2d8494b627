/** What holds over whole runs of vault operations, saves that fail and reopening included. */
module VaultRuns {
  import opened Basics
  import opened Text
  import opened Ordering
  import opened Vaults

  datatype Call =
    | AddKey(name: string, value: string, now: int, saved: bool)
    | UpsertKey(name: string, value: string, tags: seq<string>, now: int, saved: bool)
    | SetSecret(name: string, value: string, environment: string, tags: seq<string>, now: int, saved: bool)
    | UseKey(name: string, now: int, saved: bool)
    | RemoveKey(name: string, saved: bool)
    | DeleteSecret(name: string, saved: bool)
    | SaveAgent(doc: AgentKeypair, now: int, io: Writes)
    | LoadAgent(agentId: string, now: int, saved: bool)
    | RevokeAgent(agentId: string, io: Writes)
    | Reopen

  function Next(fp: string -> string, s: Store, c: Call): Store {
    match c
    case AddKey(name, value, now, saved) => KeyAdded(fp, s, name, value, now, saved).store
    case UpsertKey(name, value, tags, now, saved) => KeyUpserted(fp, s, name, value, tags, now, saved).store
    case SetSecret(name, value, environment, tags, now, saved) =>
      KeyUpserted(fp, s, name, value, WithEnvTag(tags, environment), now, saved).store
    case UseKey(name, now, saved) => KeyUsed(s, name, now, saved).store
    case RemoveKey(name, saved) => KeyRemoved(s, name, saved).store
    case DeleteSecret(name, saved) => SecretDeleted(s, name, saved).store
    case SaveAgent(doc, now, io) => AgentSaved(fp, s, doc, now, io).store
    case LoadAgent(agentId, now, saved) => AgentLoaded(s, agentId, now, saved).store
    case RevokeAgent(agentId, io) => AgentRevoked(s, agentId, io).store
    case Reopen => Store(s.disk, s.disk)
  }

  function Run(fp: string -> string, s: Store, calls: seq<Call>): Store
    decreases |calls|
  {
    if calls == [] then s else Run(fp, Next(fp, s, calls[0]), calls[1..])
  }

  // ---------- registered agents keep a private key ----------

  /**
   Names are valid, values can be previewed, every registered agent has a private-key record,
   and only registered agents are revoked.
   */
  ghost predicate Sound(data: VaultData) {
    && (forall n :: n in data.keys ==>
                      ValidName(n) && data.keys[n].metadata.name == n && !PreviewPanics(data.keys[n].value))
    && (forall id :: id in data.agents ==> KeyName(id) in data.keys && data.agents[id].public.agentId == id)
    && data.revokedAgents <= data.agents.Keys
  }

  ghost predicate SoundStore(s: Store) { Sound(s.mem) && Sound(s.disk) }

  lemma PutKeepsSound(data: VaultData, name: string, record: SecretRecord)
    requires Sound(data) && ValidName(name) && record.metadata.name == name && !PreviewPanics(record.value)
    ensures Sound(data.(keys := data.keys[name := record]))
  {}

  /** The name is not the key name of a registered agent. */
  ghost predicate NoAgentKey(data: VaultData, name: string) {
    forall id :: id in data.agents ==> KeyName(id) != name
  }

  /** What `delete_secret` lets through is never an agent's key. */
  lemma GuardedNames(data: VaultData, name: string)
    requires !StartsWith(name, AGENT_SECRET_PREFIX)
    ensures NoAgentKey(data, name)
  {
    forall id | id in data.agents ensures KeyName(id) != name {
      assert KeyName(id)[0..|AGENT_SECRET_PREFIX|] == AGENT_SECRET_PREFIX;
    }
  }

  /** Removing a key keeps the vault sound exactly when it is no registered agent's. */
  lemma RemoveKeyIff(s: Store, name: string, saved: bool)
    requires SoundStore(s)
    ensures SoundStore(KeyRemoved(s, name, saved).store) <==> NoAgentKey(s.mem, name)
  {
    var after := KeyRemoved(s, name, saved).store.mem;
    assert after.agents == s.mem.agents && after.keys == s.mem.keys - {name};
    if id :| id in s.mem.agents && KeyName(id) == name {
      assert KeyName(id) !in after.keys;
    }
  }

  lemma SaveAgentKeepsSound(fp: string -> string, s: Store, doc: AgentKeypair, now: int, io: Writes)
    requires SoundStore(s)
    ensures SoundStore(AgentSaved(fp, s, doc, now, io).store)
  {
    var name := KeyName(doc.agentId);
    if ValidName(name) && !PreviewPanics(doc.privateKey) {
      PutKeepsSound(s.mem, name, Written(fp, s.mem, name, doc.privateKey, ["agent", doc.kind], now));
    }
  }

  lemma KeyCallKeepsSound(fp: string -> string, s: Store, c: Call)
    requires SoundStore(s) && (c.AddKey? || c.UpsertKey? || c.SetSecret? || c.UseKey?)
    ensures SoundStore(Next(fp, s, c))
  {
    var mem := Next(fp, s, c).mem;
    if mem != s.mem && c.name in mem.keys {
      PutKeepsSound(s.mem, c.name, mem.keys[c.name]);
      assert mem == s.mem.(keys := s.mem.keys[c.name := mem.keys[c.name]]);
    }
  }

  lemma LoadKeepsSound(s: Store, agentId: string, now: int, saved: bool)
    requires SoundStore(s)
    ensures SoundStore(AgentLoaded(s, agentId, now, saved).store)
  {}

  lemma RevokeKeepsSound(s: Store, agentId: string, io: Writes)
    requires SoundStore(s)
    ensures SoundStore(AgentRevoked(s, agentId, io).store)
  {}

  lemma DeleteKeepsSound(s: Store, name: string, saved: bool)
    requires SoundStore(s)
    ensures SoundStore(SecretDeleted(s, name, saved).store)
  {
    if !StartsWith(name, AGENT_SECRET_PREFIX) {
      GuardedNames(s.mem, name);
      RemoveKeyIff(s, name, saved);
    }
  }

  /** One call keeps the vault sound unless it removes the key of an agent registered at that moment. */
  lemma NextSoundIff(fp: string -> string, s: Store, c: Call)
    requires SoundStore(s)
    ensures SoundStore(Next(fp, s, c)) <==> (c.RemoveKey? ==> NoAgentKey(s.mem, c.name))
  {
    match c
    case RemoveKey(name, saved) => RemoveKeyIff(s, name, saved);
    case DeleteSecret(name, saved) => DeleteKeepsSound(s, name, saved);
    case SaveAgent(doc, now, io) => SaveAgentKeepsSound(fp, s, doc, now, io);
    case LoadAgent(agentId, now, saved) => LoadKeepsSound(s, agentId, now, saved);
    case RevokeAgent(agentId, io) => RevokeKeepsSound(s, agentId, io);
    case Reopen =>
    case _ => KeyCallKeepsSound(fp, s, c);
  }

  /** No `remove_key` of the run takes the key of an agent that is registered when it is called. */
  ghost predicate RemovesNoAgentKey(fp: string -> string, s: Store, calls: seq<Call>)
    decreases |calls|
  {
    calls == []
    || ((calls[0].RemoveKey? ==> NoAgentKey(s.mem, calls[0].name))
        && RemovesNoAgentKey(fp, Next(fp, s, calls[0]), calls[1..]))
  }

  /** The vault is sound after each call of the run. */
  ghost predicate SoundThroughout(fp: string -> string, s: Store, calls: seq<Call>)
    decreases |calls|
  {
    SoundStore(s) && (calls == [] || SoundThroughout(fp, Next(fp, s, calls[0]), calls[1..]))
  }

  /**
   Over every run, failed saves and reopening included, each registered agent has a private-key
   record at every moment if and only if no `remove_key` takes one.
   */
  lemma {:induction false} AgentsKeepKeys(fp: string -> string, s: Store, calls: seq<Call>)
    requires SoundStore(s)
    ensures SoundThroughout(fp, s, calls) <==> RemovesNoAgentKey(fp, s, calls)
    ensures SoundThroughout(fp, s, calls) ==> SoundStore(Run(fp, s, calls))
    decreases |calls|
  {
    if calls != [] {
      NextSoundIff(fp, s, calls[0]);
      if SoundStore(Next(fp, s, calls[0])) { AgentsKeepKeys(fp, Next(fp, s, calls[0]), calls[1..]); }
    }
  }

  /** In particular when all deletions go through `delete_secret`. */
  lemma {:induction false} GuardedRun(fp: string -> string, s: Store, calls: seq<Call>)
    requires forall i :: 0 <= i < |calls| ==> !calls[i].RemoveKey?
    ensures RemovesNoAgentKey(fp, s, calls)
    decreases |calls|
  {
    if calls != [] { GuardedRun(fp, Next(fp, s, calls[0]), calls[1..]); }
  }

  /** So from an empty vault on, loading a registered agent fails only for a revocation or a save that failed. */
  lemma {:induction false} LoadFindsKey(fp: string -> string, calls: seq<Call>, agentId: string, now: int, saved: bool)
    requires RemovesNoAgentKey(fp, Store(EMPTY, EMPTY), calls)
    ensures
      var s := Run(fp, Store(EMPTY, EMPTY), calls);
      agentId in s.mem.agents ==>
        var answer := AgentLoaded(s, agentId, now, saved).answer;
        (answer.Ok? <==> !IsRevoked(s.mem, agentId) && saved) && (answer.Ok? ==> answer.value.agentId == agentId)
  {
    AgentsKeepKeys(fp, Store(EMPTY, EMPTY), calls);
  }

  /** `remove_key` itself guards nothing: it can take the key of a registered agent. */
  lemma RemoveKeyOrphans(fp: string -> string, s: Store, agentId: string, now: int)
    requires agentId in s.mem.agents && !IsRevoked(s.mem, agentId)
    ensures AgentLoaded(Next(fp, s, RemoveKey(KeyName(agentId), true)), agentId, now, true).answer
         == Err(MissingCredential)
  {}

  // ---------- revocation is for good ----------

  ghost predicate RevokedIn(data: VaultData, agentId: string) {
    agentId in data.revokedAgents && agentId in data.agents && data.agents[agentId].public.agentId == agentId
  }

  /** Revoked in memory, and also on disk unless the run never goes back to the disk. */
  ghost predicate StaysRevoked(s: Store, agentId: string, calls: seq<Call>) {
    RevokedIn(s.mem, agentId) && (RevokedIn(s.disk, agentId) || Reopen !in calls)
  }

  /** The disk is left alone or follows the memory, and the memory keeps the revocation unless it is reread. */
  lemma NextRevoked(fp: string -> string, s: Store, agentId: string, c: Call)
    requires RevokedIn(s.mem, agentId) && !c.Reopen?
    ensures RevokedIn(Next(fp, s, c).mem, agentId)
    ensures Next(fp, s, c).disk == s.disk || RevokedIn(Next(fp, s, c).disk, agentId)
  {
    match c
    case SaveAgent(doc, now, io) => SaveKeepsRevoked(fp, s, agentId, doc, now, io);
    case RevokeAgent(id, io) =>
    case LoadAgent(id, now, saved) =>
    case _ =>
  }

  lemma SaveKeepsRevoked(fp: string -> string, s: Store, agentId: string, doc: AgentKeypair, now: int, io: Writes)
    requires RevokedIn(s.mem, agentId)
    ensures RevokedIn(AgentSaved(fp, s, doc, now, io).store.mem, agentId)
    ensures AgentSaved(fp, s, doc, now, io).store.disk == s.disk ||
            RevokedIn(AgentSaved(fp, s, doc, now, io).store.disk, agentId)
  {}

  lemma NextKeepsRevoked(fp: string -> string, s: Store, agentId: string, calls: seq<Call>)
    requires calls != [] && StaysRevoked(s, agentId, calls)
    ensures StaysRevoked(Next(fp, s, calls[0]), agentId, calls[1..])
  {
    assert calls == [calls[0]] + calls[1..];
    if !calls[0].Reopen? { NextRevoked(fp, s, agentId, calls[0]); }
  }

  /**
   Once revoked, an agent is refused by `load_agent` and listed as revoked forever, even
   after a later `save_agent` with its id.
   */
  lemma {:induction false} RevokedForever(
    fp: string -> string, s: Store, agentId: string, calls: seq<Call>, now: int, saved: bool)
    requires StaysRevoked(s, agentId, calls)
    ensures
      var after := Run(fp, s, calls);
      && AgentLoaded(after, agentId, now, saved) == Step(after, Err(Revoked))
      && (exists i :: 0 <= i < |Listed(after.mem)| && Listed(after.mem)[i].agentId == agentId)
      && (forall i :: 0 <= i < |Listed(after.mem)| && Listed(after.mem)[i].agentId == agentId ==>
                        Listed(after.mem)[i].revoked)
    decreases calls
  {
    if calls == [] {
      ListedRevoked(s.mem, agentId);
    } else {
      NextKeepsRevoked(fp, s, agentId, calls);
      RevokedForever(fp, Next(fp, s, calls[0]), agentId, calls[1..], now, saved);
    }
  }

  lemma ListedRevoked(data: VaultData, agentId: string)
    requires RevokedIn(data, agentId)
    ensures exists i :: 0 <= i < |Listed(data)| && Listed(data)[i].agentId == agentId
    ensures forall i :: 0 <= i < |Listed(data)| && Listed(data)[i].agentId == agentId ==> Listed(data)[i].revoked
  {
    var ids := SortedKeys(data.agents.Keys);
    SortedKeysListsAll(data.agents.Keys);
    assert agentId in ids;
    var i :| 0 <= i < |ids| && ids[i] == agentId;
    assert Listed(data)[i].agentId == agentId;
  }

  /** The call writes the vault file. */
  predicate Flushes(s: Store, c: Call) {
    match c
    case AddKey(name, value, _, saved) => ValidName(name) && name !in s.mem.keys && !PreviewPanics(value) && saved
    case UpsertKey(name, value, _, _, saved) => ValidName(name) && !PreviewPanics(value) && saved
    case SetSecret(name, value, _, _, _, saved) => ValidName(name) && !PreviewPanics(value) && saved
    case UseKey(name, _, saved) => name in s.mem.keys && saved
    case RemoveKey(_, saved) => saved
    case DeleteSecret(name, saved) => !StartsWith(name, AGENT_SECRET_PREFIX) && saved
    case SaveAgent(doc, _, io) =>
      ValidName(doc.name) && ValidName(KeyName(doc.agentId)) && !PreviewPanics(doc.privateKey) && io.first
    case LoadAgent(id, _, saved) => id in s.mem.agents && !IsRevoked(s.mem, id) && KeyName(id) in s.mem.keys && saved
    case RevokeAgent(id, io) => id in s.mem.agents && io.first
    case Reopen => false
  }

  /** The vault is reopened before any call of the run has written its file. */
  predicate ReopensUnsaved(fp: string -> string, s: Store, calls: seq<Call>)
    decreases |calls|
  {
    && calls != []
    && (calls[0].Reopen? || (!Flushes(s, calls[0]) && ReopensUnsaved(fp, Next(fp, s, calls[0]), calls[1..])))
  }

  lemma NoFlushKeepsDisk(fp: string -> string, s: Store, c: Call)
    requires !Flushes(s, c) && !c.Reopen?
    ensures Next(fp, s, c).disk == s.disk
  {
    match c
    case SaveAgent(doc, now, io) =>
      var first := KeyUpserted(fp, s, KeyName(doc.agentId), doc.privateKey, ["agent", doc.kind], now, io.first);
      assert ValidName(doc.name) ==> first.answer.Err?;
    case _ =>
  }

  /** What is revoked in memory is revoked on disk after a write. */
  lemma FlushRevokes(fp: string -> string, s: Store, agentId: string, c: Call)
    requires RevokedIn(s.mem, agentId) && Flushes(s, c)
    ensures RevokedIn(Next(fp, s, c).mem, agentId) && RevokedIn(Next(fp, s, c).disk, agentId)
  {
    match c
    case SaveAgent(doc, now, io) => FlushedSaveRevokes(fp, s, agentId, doc, now, io);
    case LoadAgent(id, now, saved) => assert RevokedIn(KeyUsed(s, KeyName(id), now, saved).store.disk, agentId);
    case _ =>
  }

  lemma FlushedSaveRevokes(fp: string -> string, s: Store, agentId: string, doc: AgentKeypair, now: int, io: Writes)
    requires RevokedIn(s.mem, agentId) && Flushes(s, SaveAgent(doc, now, io))
    ensures RevokedIn(AgentSaved(fp, s, doc, now, io).store.mem, agentId)
    ensures RevokedIn(AgentSaved(fp, s, doc, now, io).store.disk, agentId)
  {
    var first := KeyUpserted(fp, s, KeyName(doc.agentId), doc.privateKey, ["agent", doc.kind], now, io.first);
    assert first.answer.Ok? && RevokedIn(first.store.mem, agentId) && RevokedIn(first.store.disk, agentId);
  }

  predicate Revokes(c: Call, agentId: string) { c.RevokeAgent? && c.agentId == agentId }

  ghost predicate Unrevoked(s: Store, agentId: string) { !IsRevoked(s.mem, agentId) && !IsRevoked(s.disk, agentId) }

  lemma NextKeepsUnrevoked(fp: string -> string, s: Store, c: Call, agentId: string)
    requires Unrevoked(s, agentId) && !Revokes(c, agentId)
    ensures Unrevoked(Next(fp, s, c), agentId)
  {
    match c
    case SaveAgent(doc, now, io) =>
      var first := KeyUpserted(fp, s, KeyName(doc.agentId), doc.privateKey, ["agent", doc.kind], now, io.first);
      assert Unrevoked(first.store, agentId);
    case _ =>
  }

  lemma {:induction false} RunKeepsUnrevoked(fp: string -> string, s: Store, calls: seq<Call>, agentId: string)
    requires Unrevoked(s, agentId) && forall i :: 0 <= i < |calls| ==> !Revokes(calls[i], agentId)
    ensures Unrevoked(Run(fp, s, calls), agentId)
    decreases |calls|
  {
    if calls != [] {
      NextKeepsUnrevoked(fp, s, calls[0], agentId);
      RunKeepsUnrevoked(fp, Next(fp, s, calls[0]), calls[1..], agentId);
    }
  }

  /** A revocation that is in memory only holds at the end unless the vault is reopened before it is written. */
  lemma {:induction false} PendingRevocation(
    fp: string -> string, s: Store, agentId: string, calls: seq<Call>, now: int, saved: bool)
    requires RevokedIn(s.mem, agentId) && !IsRevoked(s.disk, agentId)
    requires forall i :: 0 <= i < |calls| ==> !Revokes(calls[i], agentId)
    ensures AgentLoaded(Run(fp, s, calls), agentId, now, saved).answer == Err(Revoked)
       <==> !ReopensUnsaved(fp, s, calls)
    decreases |calls|
  {
    if calls != [] {
      var next := Next(fp, s, calls[0]);
      if calls[0].Reopen? {
        RunKeepsUnrevoked(fp, next, calls[1..], agentId);
      } else if Flushes(s, calls[0]) {
        FlushRevokes(fp, s, agentId, calls[0]);
        RevokedForever(fp, next, agentId, calls[1..], now, saved);
      } else {
        NextRevoked(fp, s, agentId, calls[0]);
        NoFlushKeepsDisk(fp, s, calls[0]);
        PendingRevocation(fp, next, agentId, calls[1..], now, saved);
      }
    }
  }

  /**
   After a revocation, and no other one of that agent, the agent is refused as revoked at the end of
   the run if and only if the vault was not reopened before the first save that succeeded.
   */
  lemma {:induction false} RevocationHoldsIff(
    fp: string -> string, s: Store, agentId: string, io: Writes, calls: seq<Call>, now: int, saved: bool)
    requires agentId in s.mem.agents && s.mem.agents[agentId].public.agentId == agentId && !IsRevoked(s.disk, agentId)
    requires forall i :: 0 <= i < |calls| ==> !Revokes(calls[i], agentId)
    ensures
      var after := AgentRevoked(s, agentId, io).store;
      AgentLoaded(Run(fp, after, calls), agentId, now, saved).answer == Err(Revoked)
      <==> io.first || !ReopensUnsaved(fp, after, calls)
  {
    var after := AgentRevoked(s, agentId, io).store;
    assert RevokedIn(after.mem, agentId);
    if io.first {
      RevokedForever(fp, after, agentId, calls, now, saved);
    } else {
      PendingRevocation(fp, after, agentId, calls, now, saved);
    }
  }

  /** A revocation whose save failed can be forgotten: the vault is reopened at once. */
  lemma UnsavedRevocationIsLost(fp: string -> string, s: Store, agentId: string, now: int)
    requires agentId in s.mem.agents && s.disk == s.mem && !IsRevoked(s.mem, agentId) && KeyName(agentId) in s.mem.keys
    ensures
      var calls := [RevokeAgent(agentId, Writes(false, true, true)), Reopen];
      Run(fp, s, calls) == s && AgentLoaded(Run(fp, s, calls), agentId, now, true).answer.Ok?
  {
    var c0, c1 := RevokeAgent(agentId, Writes(false, true, true)), Call.Reopen;
    assert [c0, c1][1..] == [c1] && [c1][1..] == [];
    assert Run(fp, s, [c0, c1]) == Run(fp, Next(fp, s, c0), [c1]);
    assert Run(fp, Next(fp, s, c0), [c1]) == Run(fp, Next(fp, Next(fp, s, c0), c1), []);
  }

  // ---------- creation times ----------

  ghost predicate CreatedIn(data: VaultData, name: string, createdAt: int) {
    name in data.keys && data.keys[name].metadata.createdAt == createdAt
  }

  ghost predicate Created(s: Store, name: string, createdAt: int) {
    CreatedIn(s.mem, name, createdAt) && CreatedIn(s.disk, name, createdAt)
  }

  predicate Deletes(c: Call, name: string) {
    (c.RemoveKey? && c.name == name) || (c.DeleteSecret? && c.name == name)
  }

  lemma NextKeepsCreated(fp: string -> string, s: Store, c: Call, name: string, createdAt: int)
    requires Created(s, name, createdAt) && !Deletes(c, name)
    ensures Created(Next(fp, s, c), name, createdAt)
  {
    match c
    case SaveAgent(doc, now, io) =>
      var first := KeyUpserted(fp, s, KeyName(doc.agentId), doc.privateKey, ["agent", doc.kind], now, io.first).store;
      assert Created(first, name, createdAt);
    case _ =>
  }

  /** A key disappears or gets another creation time only in a run that deletes it. */
  lemma {:induction false} CreationTimeKept(
    fp: string -> string, s: Store, calls: seq<Call>, name: string, createdAt: int)
    requires Created(s, name, createdAt) && !Created(Run(fp, s, calls), name, createdAt)
    ensures exists i :: 0 <= i < |calls| && Deletes(calls[i], name)
    decreases calls
  {
    if calls != [] && !Deletes(calls[0], name) {
      NextKeepsCreated(fp, s, calls[0], name, createdAt);
      CreationTimeKept(fp, Next(fp, s, calls[0]), calls[1..], name, createdAt);
      var i :| 0 <= i < |calls[1..]| && Deletes(calls[1..][i], name);
      assert calls[i + 1] == calls[1..][i];
    }
  }

  // ---------- what an agent gets back ----------

  /** The agent is registered with its public half, and its private key is stored. */
  ghost predicate HasAgent(data: VaultData, doc: AgentKeypair) {
    && doc.agentId in data.agents && data.agents[doc.agentId].public == doc.PublicView()
    && KeyName(doc.agentId) in data.keys && data.keys[KeyName(doc.agentId)].value == doc.privateKey
  }

  /** Writing this value under this name puts another one in the place of the agent's key. */
  predicate ReplacesKey(name: string, value: string, doc: AgentKeypair) {
    name == KeyName(doc.agentId) && value != doc.privateKey && !PreviewPanics(value)
  }

  /** The call replaces or removes the agent's key, or the agent's public half. */
  predicate ChangesAgent(c: Call, doc: AgentKeypair) {
    match c
    case UpsertKey(name, value, _, _, _) => ReplacesKey(name, value, doc)
    case SetSecret(name, value, _, _, _, _) => ReplacesKey(name, value, doc)
    case RemoveKey(name, _) => name == KeyName(doc.agentId)
    case SaveAgent(other, _, io) =>
      && other.agentId == doc.agentId && ValidName(other.name) && !PreviewPanics(other.privateKey)
      && (other.privateKey != doc.privateKey || (io.first && other.PublicView() != doc.PublicView()))
    case _ => false
  }

  /**
   A write leaves a registered agent's stored key as it was exactly when it goes elsewhere, panics,
   or writes that key again.
   */
  lemma WriteKeepsKeyIff(
    fp: string -> string, s: Store, name: string, value: string, tags: seq<string>, now: int, saved: bool,
    agentId: string)
    requires SoundStore(s) && agentId in s.mem.agents
    ensures
      var key, after := KeyName(agentId), KeyUpserted(fp, s, name, value, tags, now, saved).store.mem;
      && key in s.mem.keys && key in after.keys
      && (after.keys[key].value == s.mem.keys[key].value
          <==> name != key || value == s.mem.keys[key].value || PreviewPanics(value))
  {}

  /** So `set_secret` can overwrite an agent's private key. */
  lemma SecretOverwritesAgentKey(fp: string -> string, s: Store, agentId: string, value: string, now: int)
    requires SoundStore(s) && agentId in s.mem.agents && !IsRevoked(s.mem, agentId) && !PreviewPanics(value)
    ensures
      var after := Next(fp, s, SetSecret(KeyName(agentId), value, "default", [], now, true));
      AgentLoaded(after, agentId, now, true).answer.Ok? &&
      AgentLoaded(after, agentId, now, true).answer.value.privateKey == value
  {}

  lemma SaveKeepsAgentIff(fp: string -> string, s: Store, other: AgentKeypair, now: int, io: Writes, doc: AgentKeypair)
    requires ValidName(KeyName(doc.agentId)) && HasAgent(s.mem, doc) && HasAgent(s.disk, doc)
    ensures
      var after := AgentSaved(fp, s, other, now, io).store;
      && (HasAgent(after.mem, doc) <==> !ChangesAgent(SaveAgent(other, now, io), doc))
      && (HasAgent(after.mem, doc) ==> HasAgent(after.disk, doc))
  {
    var first := KeyUpserted(fp, s, KeyName(other.agentId), other.privateKey, ["agent", other.kind], now,
                             io.first).store;
    assert KeyName(other.agentId) == KeyName(doc.agentId) <==> other.agentId == doc.agentId by {
      assert KeyName(other.agentId)[|AGENT_SECRET_PREFIX|..] == other.agentId;
      assert KeyName(doc.agentId)[|AGENT_SECRET_PREFIX|..] == doc.agentId;
    }
    assert other.agentId != doc.agentId ==> HasAgent(first.mem, doc) && HasAgent(first.disk, doc);
  }

  /** One call leaves a saved agent as it was exactly when it is none of the calls that change it. */
  lemma NextKeepsAgentIff(fp: string -> string, s: Store, c: Call, doc: AgentKeypair)
    requires ValidName(KeyName(doc.agentId)) && HasAgent(s.mem, doc) && HasAgent(s.disk, doc)
    ensures HasAgent(Next(fp, s, c).mem, doc) <==> !ChangesAgent(c, doc)
    ensures HasAgent(Next(fp, s, c).mem, doc) ==> HasAgent(Next(fp, s, c).disk, doc)
  {
    match c
    case SaveAgent(other, now, io) => SaveKeepsAgentIff(fp, s, other, now, io, doc);
    case DeleteSecret(name, _) => assert KeyName(doc.agentId)[0..|AGENT_SECRET_PREFIX|] == AGENT_SECRET_PREFIX;
    case _ =>
  }

  lemma {:induction false} RunKeepsAgent(fp: string -> string, s: Store, calls: seq<Call>, doc: AgentKeypair)
    requires ValidName(KeyName(doc.agentId)) && HasAgent(s.mem, doc) && HasAgent(s.disk, doc)
    requires forall i :: 0 <= i < |calls| ==> !ChangesAgent(calls[i], doc)
    ensures HasAgent(Run(fp, s, calls).mem, doc) && HasAgent(Run(fp, s, calls).disk, doc)
    decreases |calls|
  {
    if calls != [] {
      NextKeepsAgentIff(fp, s, calls[0], doc);
      RunKeepsAgent(fp, Next(fp, s, calls[0]), calls[1..], doc);
    }
  }

  /**
   An agent that was saved is loaded back as it was, private key included, after any run
   none of whose calls changes it, unless it is revoked by then.
   */
  lemma {:induction false} SavedAgentLoads(
    fp: string -> string, s: Store, doc: AgentKeypair, io: Writes, calls: seq<Call>, saveTime: int, now: int)
    requires AgentSaved(fp, s, doc, saveTime, io).answer.Ok?
    requires forall i :: 0 <= i < |calls| ==> !ChangesAgent(calls[i], doc)
    ensures
      var after := Run(fp, AgentSaved(fp, s, doc, saveTime, io).store, calls);
      AgentLoaded(after, doc.agentId, now, true).answer ==
      (if IsRevoked(after.mem, doc.agentId) then Err(Revoked) else Ok(doc))
  {
    RunKeepsAgent(fp, AgentSaved(fp, s, doc, saveTime, io).store, calls, doc);
  }
}
