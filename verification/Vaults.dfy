/** The vault: named secrets, agents and their revocation. Every save can fail, and the vault can be reopened. */
module Vaults {
  import opened Basics
  import opened Text
  import opened Ordering
  import Scanners

  const AGENT_SECRET_PREFIX: string := "agent-private/"

  /** `Panicked` is no error value of the source: the call panics, and so leaves the vault as it was. */
  datatype VaultError = InvalidName | MissingCredential | CredentialExists | Revoked | Io | Panicked

  datatype SecretMetadata = SecretMetadata(
    name: string, kind: string, fingerprint: string, createdAt: int, updatedAt: int, lastUsedAt: Option<int>,
    tags: seq<string>)

  datatype SecretRecord = SecretRecord(value: string, metadata: SecretMetadata)

  datatype AgentPublic = AgentPublic(
    version: nat, agentId: string, name: string, kind: string, createdAt: int, updatedAt: int, publicKey: string,
    revoked: bool)

  datatype AgentKeypair = AgentKeypair(
    version: nat, agentId: string, name: string, kind: string, createdAt: int, updatedAt: int, publicKey: string,
    privateKey: string)
  {
    function PublicView(): AgentPublic {
      AgentPublic(version, agentId, name, kind, createdAt, updatedAt, publicKey, false)
    }
  }

  datatype AgentRecord = AgentRecord(public: AgentPublic, updatedAt: int, revoked: bool)

  datatype VaultData = VaultData(keys: map<string, SecretRecord>, agents: map<string, AgentRecord>,
                                 revokedAgents: set<string>)

  const EMPTY: VaultData := VaultData(map[], map[], {})

  /** The vault in memory, and what the last save that succeeded wrote. */
  datatype Store = Store(mem: VaultData, disk: VaultData)

  /** `validate_name`. */
  predicate ValidName(name: string) {
    name != "" && (forall i :: 0 <= i < |name| ==> !IsWhitespace(name[i])) && !Contains(name, "..")
  }

  /** `classify_kind`: what stands in front of the first slash. */
  function ClassifyKind(name: string): string {
    var slash := FindChar(name, '/', 0);
    if slash.Some? then name[..slash.value] else "generic"
  }

  /** `redacted_preview` scans the value for secrets, and that scan panics on some values. */
  predicate PreviewPanics(value: string) { Scanners.EndsInEvenBearer(value) }

  function KeyName(agentId: string): string { AGENT_SECRET_PREFIX + agentId }

  function Fresh(fp: string -> string, name: string, value: string, tags: seq<string>, now: int): SecretMetadata {
    SecretMetadata(name, ClassifyKind(name), fp(value), now, now, None, tags)
  }

  /** The record a write stores: the creation time of the record it replaces survives. */
  function Written(
    fp: string -> string, data: VaultData, name: string, value: string, tags: seq<string>, now: int): SecretRecord
  {
    var createdAt := if name in data.keys then data.keys[name].metadata.createdAt else now;
    SecretRecord(value, Fresh(fp, name, value, tags, now).(createdAt := createdAt))
  }

  function EnvTag(environment: string): string { "env:" + environment }

  function WithEnvTag(tags: seq<string>, environment: string): seq<string> {
    if EnvTag(environment) in tags then tags else tags + [EnvTag(environment)]
  }

  // ---------- what each operation does ----------

  /** What one operation leaves behind and answers. */
  datatype Step<+T> = Step(store: Store, answer: Result<T, VaultError>)

  function Saved(s: Store, mem: VaultData, ok: bool): Step<()> {
    if ok then Step(Store(mem, mem), Ok(())) else Step(Store(mem, s.disk), Err(Io))
  }

  function KeyAdded(fp: string -> string, s: Store, name: string, value: string, now: int, saved: bool): Step<()> {
    if !ValidName(name) then Step(s, Err(InvalidName))
    else if name in s.mem.keys then Step(s, Err(CredentialExists))
    else if PreviewPanics(value) then Step(s, Err(Panicked))
    else Saved(s, s.mem.(keys := s.mem.keys[name := SecretRecord(value, Fresh(fp, name, value, [], now))]), saved)
  }

  function KeyUpserted(
    fp: string -> string, s: Store, name: string, value: string, tags: seq<string>, now: int, saved: bool): Step<()>
  {
    if !ValidName(name) then Step(s, Err(InvalidName))
    else if PreviewPanics(value) then Step(s, Err(Panicked))
    else Saved(s, s.mem.(keys := s.mem.keys[name := Written(fp, s.mem, name, value, tags, now)]), saved)
  }

  function KeyUsed(s: Store, name: string, now: int, saved: bool): Step<string> {
    if name !in s.mem.keys then Step(s, Err(MissingCredential)) else
    var record := s.mem.keys[name];
    var used := record.(metadata := record.metadata.(lastUsedAt := Some(now), updatedAt := now));
    var step := Saved(s, s.mem.(keys := s.mem.keys[name := used]), saved);
    Step(step.store, if step.answer.Ok? then Ok(record.value) else Err(step.answer.error))
  }

  function KeyRemoved(s: Store, name: string, saved: bool): Step<bool> {
    var step := Saved(s, s.mem.(keys := s.mem.keys - {name}), saved);
    Step(step.store, if step.answer.Ok? then Ok(name in s.mem.keys) else Err(step.answer.error))
  }

  function SecretDeleted(s: Store, name: string, saved: bool): Step<bool> {
    if StartsWith(name, AGENT_SECRET_PREFIX) then Step(s, Err(InvalidName)) else KeyRemoved(s, name, saved)
  }

  /** Registering an agent: first its private key, then the agent, each with a save of its own. */
  function AgentSaved(fp: string -> string, s: Store, doc: AgentKeypair, now: int, io: Writes): Step<()> {
    if !ValidName(doc.name) then Step(s, Err(InvalidName)) else
    var first := KeyUpserted(fp, s, KeyName(doc.agentId), doc.privateKey, ["agent", doc.kind], now, io.first);
    if first.answer.Err? then first else
    var mem := first.store.mem;
    var agents := mem.agents[doc.agentId := AgentRecord(doc.PublicView(), now, false)];
    var second := Saved(first.store, mem.(agents := agents), io.second);
    if second.answer.Err? then second else Step(second.store, Published(io.public))
  }

  /** Which writes of one operation succeed: the saves in order, and the public document. */
  datatype Writes = Writes(first: bool, second: bool, public: bool)

  function Published(ok: bool): Result<(), VaultError> { if ok then Ok(()) else Err(Io) }

  predicate IsRevoked(data: VaultData, agentId: string) {
    agentId in data.revokedAgents || (agentId in data.agents && data.agents[agentId].revoked)
  }

  function AgentLoaded(s: Store, agentId: string, now: int, saved: bool): Step<AgentKeypair> {
    if agentId !in s.mem.agents then Step(s, Err(MissingCredential))
    else if IsRevoked(s.mem, agentId) then Step(s, Err(Revoked))
    else
      var used := KeyUsed(s, KeyName(agentId), now, saved);
      var p := s.mem.agents[agentId].public;
      Step(used.store,
           if used.answer.Err? then Err(used.answer.error)
           else Ok(AgentKeypair(p.version, p.agentId, p.name, p.kind, p.createdAt, p.updatedAt, p.publicKey,
                                used.answer.value)))
  }

  function AgentRevoked(s: Store, agentId: string, io: Writes): Step<()> {
    if agentId !in s.mem.agents then Step(s, Err(MissingCredential)) else
    var mem := s.mem.(agents := s.mem.agents[agentId := s.mem.agents[agentId].(revoked := true)],
               revokedAgents := s.mem.revokedAgents + {agentId});
    var step := Saved(s, mem, io.first);
    if step.answer.Err? then step else Step(step.store, Published(io.public))
  }

  /** `list_agents`, in the order of the agent ids. */
  ghost function Listed(data: VaultData): seq<AgentPublic> {
    var ids := SortedKeys(data.agents.Keys);
    SortedKeysListsAll(data.agents.Keys);
    seq(|ids|, i requires 0 <= i < |ids| =>
      assert ids[i] in ids;
      var public := data.agents[ids[i]].public;
      public.(revoked := data.agents[ids[i]].revoked || public.agentId in data.revokedAgents))
  }

  // ---------- what names, records and stores are like ----------

  ghost predicate NameFits(name: string) {
    && name != ""
    && (forall i :: 0 <= i < |name| ==> !IsBlank(name[i]))
    && (forall i :: 0 <= i && i + 1 < |name| ==> !TwoDotsAt(name, i))
  }

  predicate TwoDotsAt(name: string, i: nat)
    requires i + 1 < |name|
  {
    name[i] == '.' && name[i + 1] == '.'
  }

  lemma TwoDotsIff(name: string)
    ensures Contains(name, "..") <==> exists i: nat :: i + 1 < |name| && TwoDotsAt(name, i)
  {
    if Contains(name, "..") {
      var p :| 0 <= p <= |name| && OccursAt(name, "..", p);
      assert name[p..p + 2][0] == name[p] && name[p..p + 2][1] == name[p + 1];
      assert TwoDotsAt(name, p);
    }
    if i: nat :| i + 1 < |name| && TwoDotsAt(name, i) {
      assert name[i..i + 2] == "..";
      assert OccursAt(name, "..", i);
    }
  }

  /** A name is valid exactly when it is not empty and holds neither blanks nor two dots in a row. */
  lemma ValidNameIff(name: string)
    ensures ValidName(name) <==> NameFits(name)
  {
    TwoDotsIff(name);
    forall i | 0 <= i < |name| ensures IsWhitespace(name[i]) <==> IsBlank(name[i]) { WhitespaceMeans(name[i]); }
  }

  /** What stands in front of the first slash; without a slash, `generic`. */
  ghost predicate KindFits(name: string, kind: string) {
    if '/' in name then kind < name && '/' !in kind && name[|kind|] == '/' else kind == "generic"
  }

  lemma KindMeans(name: string)
    ensures KindFits(name, ClassifyKind(name))
  {}

  /** The record that a write leaves. */
  ghost predicate RecordFits(
    r: SecretRecord, fp: string -> string, name: string, value: string, tags: seq<string>, createdAt: int, now: int)
  {
    && r.value == value && r.metadata.name == name && KindFits(name, r.metadata.kind)
    && r.metadata.fingerprint == fp(value) && r.metadata.tags == tags
    && r.metadata.createdAt == createdAt && r.metadata.updatedAt == now && r.metadata.lastUsedAt == None
  }

  /** The same record, used at `now`. */
  ghost predicate UsedAt(before: SecretRecord, after: SecretRecord, now: int) {
    && after.value == before.value && after.metadata.name == before.metadata.name
    && after.metadata.kind == before.metadata.kind && after.metadata.fingerprint == before.metadata.fingerprint
    && after.metadata.createdAt == before.metadata.createdAt && after.metadata.tags == before.metadata.tags
    && after.metadata.lastUsedAt == Some(now) && after.metadata.updatedAt == now
  }

  /** Nothing changed but what is stored under `name`. */
  ghost predicate OnlyKey(name: string, before: VaultData, after: VaultData) {
    && after.keys - {name} == before.keys - {name}
    && after.agents == before.agents && after.revokedAgents == before.revokedAgents
  }

  /** Nothing changed but what is known of one agent. */
  ghost predicate OnlyAgent(agentId: string, before: VaultData, after: VaultData) {
    && after.agents - {agentId} == before.agents - {agentId}
    && after.revokedAgents - {agentId} == before.revokedAgents - {agentId}
    && after.keys == before.keys
  }

  /** `name` was written; a record that stood there keeps its creation time. */
  ghost predicate KeyWritten(
    fp: string -> string, before: VaultData, after: VaultData, name: string, value: string, tags: seq<string>, now: int)
  {
    && OnlyKey(name, before, after) && name in after.keys
    && RecordFits(after.keys[name], fp, name, value, tags,
                  if name in before.keys then before.keys[name].metadata.createdAt else now, now)
  }

  /** The save answered, and the disk followed if it succeeded. */
  ghost predicate SavedAs<T>(
    r: Result<T, VaultError>, saved: bool, mem: VaultData, before: VaultData, disk: VaultData)
  {
    && (r.Ok? <==> saved) && (r.Err? ==> r.error == Io)
    && disk == if saved then mem else before
  }

  /** The agent was registered under its id with the public half of `doc`, unless its key could not be saved. */
  ghost predicate AgentFits(
    fp: string -> string, before: VaultData, after: VaultData, doc: AgentKeypair, now: int, keySaved: bool)
  {
    && KeyWritten(fp, before, after.(agents := before.agents), "agent-private/" + doc.agentId, doc.privateKey,
                  ["agent", doc.kind], now)
    && after.agents - {doc.agentId} == before.agents - {doc.agentId}
    && if !keySaved then after.agents == before.agents else
       && doc.agentId in after.agents
       && KeypairFits(doc, after.agents[doc.agentId].public, doc.privateKey)
       && !after.agents[doc.agentId].public.revoked && !after.agents[doc.agentId].revoked
       && after.agents[doc.agentId].updatedAt == now
  }

  /** The two halves of an agent. */
  ghost predicate KeypairFits(doc: AgentKeypair, public: AgentPublic, privateKey: string) {
    && doc.version == public.version && doc.agentId == public.agentId && doc.name == public.name
    && doc.kind == public.kind && doc.createdAt == public.createdAt && doc.updatedAt == public.updatedAt
    && doc.publicKey == public.publicKey && doc.privateKey == privateKey
  }

  ghost predicate RevokedRecord(before: AgentRecord, after: AgentRecord) {
    after.revoked && after.public == before.public && after.updatedAt == before.updatedAt
  }

  /** The tags with the environment among them, put last if it was not. */
  ghost predicate TagsFit(extra: seq<string>, environment: string, tags: seq<string>) {
    && extra <= tags && "env:" + environment in tags
    && (tags != extra ==> |tags| == |extra| + 1 && "env:" + environment !in extra)
  }

  lemma TagsMean(extra: seq<string>, environment: string)
    ensures TagsFit(extra, environment, WithEnvTag(extra, environment))
  {
    var tags := WithEnvTag(extra, environment);
    if tags != extra { assert tags[|extra|] == "env:" + environment; }
  }

  // ---------- the vault object ----------

  class Vault {
    const fingerprint: string -> string
    var data: VaultData
    var disk: VaultData

    ghost function State(): Store reads this { Store(data, disk) }

    constructor (fingerprint: string -> string)
      ensures this.fingerprint == fingerprint && State() == Store(EMPTY, EMPTY)
    {
      this.fingerprint := fingerprint;
      data, disk := EMPTY, EMPTY;
    }

    /** Writes the whole vault to its file, if the write succeeds. */
    method Save(ok: bool) returns (r: Result<(), VaultError>)
      modifies this`disk
      ensures Step(State(), r) == Saved(old(State()), data, ok)
      ensures SavedAs(r, ok, data, old(disk), disk)
    {
      if !ok {
        return Err(Io);
      }
      disk := data;
      return Ok(());
    }

    method AddKey(name: string, value: string, now: int, saved: bool) returns (r: Result<(), VaultError>)
      modifies this
      ensures Step(State(), r) == KeyAdded(fingerprint, old(State()), name, value, now, saved)
      ensures
        if !NameFits(name) then r == Err(InvalidName) && unchanged(this)
        else if name in old(data).keys then r == Err(CredentialExists) && unchanged(this)
        else if PreviewPanics(value) then r == Err(Panicked) && unchanged(this)
        else KeyWritten(fingerprint, old(data), data, name, value, [], now) &&
             SavedAs(r, saved, data, old(disk), disk)
    {
      ValidNameIff(name);
      KindMeans(name);
      if !ValidName(name) {
        return Err(InvalidName);
      }
      if name in data.keys {
        return Err(CredentialExists);
      }
      if PreviewPanics(value) {
        return Err(Panicked);
      }
      data := data.(keys := data.keys[name := SecretRecord(value, Fresh(fingerprint, name, value, [], now))]);
      r := Save(saved);
    }

    method UpsertKey(
      name: string, value: string, tags: seq<string>, now: int, saved: bool) returns (r: Result<(), VaultError>)
      modifies this
      ensures Step(State(), r) == KeyUpserted(fingerprint, old(State()), name, value, tags, now, saved)
      ensures
        if !NameFits(name) then r == Err(InvalidName) && unchanged(this)
        else if PreviewPanics(value) then r == Err(Panicked) && unchanged(this)
        else KeyWritten(fingerprint, old(data), data, name, value, tags, now) &&
             SavedAs(r, saved, data, old(disk), disk)
    {
      ValidNameIff(name);
      KindMeans(name);
      if !ValidName(name) {
        return Err(InvalidName);
      }
      if PreviewPanics(value) {
        return Err(Panicked);
      }
      var createdAt := if name in data.keys then data.keys[name].metadata.createdAt else now;
      var metadata := Fresh(fingerprint, name, value, tags, now);
      var record := SecretRecord(value, metadata.(createdAt := createdAt, updatedAt := now));
      data := data.(keys := data.keys[name := record]);
      r := Save(saved);
    }

    method SetSecret(name: string, value: string, environment: string, extraTags: seq<string>, now: int, saved: bool)
      returns (r: Result<(), VaultError>)
      modifies this
      ensures
        var tags := WithEnvTag(extraTags, environment);
        Step(State(), r) == KeyUpserted(fingerprint, old(State()), name, value, tags, now, saved)
      ensures
        if !NameFits(name) then r == Err(InvalidName) && unchanged(this)
        else if PreviewPanics(value) then r == Err(Panicked) && unchanged(this)
        else exists tags :: TagsFit(extraTags, environment, tags) &&
                            KeyWritten(fingerprint, old(data), data, name, value, tags, now) &&
                            SavedAs(r, saved, data, old(disk), disk)
    {
      ValidNameIff(name);
      KindMeans(name);
      TagsMean(extraTags, environment);
      if !ValidName(name) {
        return Err(InvalidName);
      }
      var tags, envTag := extraTags, "env:" + environment;
      if envTag !in tags {
        tags := tags + [envTag];
      }
      if PreviewPanics(value) {
        return Err(Panicked);
      }
      var createdAt := if name in data.keys then data.keys[name].metadata.createdAt else now;
      var metadata := Fresh(fingerprint, name, value, tags, now);
      var record := SecretRecord(value, metadata.(createdAt := createdAt, updatedAt := now));
      data := data.(keys := data.keys[name := record]);
      r := Save(saved);
    }

    method UseKey(name: string, now: int, saved: bool) returns (r: Result<string, VaultError>)
      modifies this
      ensures Step(State(), r) == KeyUsed(old(State()), name, now, saved)
      ensures
        if name !in old(data).keys then r == Err(MissingCredential) && unchanged(this)
        else OnlyKey(name, old(data), data) && name in data.keys &&
             UsedAt(old(data).keys[name], data.keys[name], now) &&
             SavedAs(r, saved, data, old(disk), disk) && (r.Ok? ==> r.value == old(data).keys[name].value)
    {
      if name !in data.keys {
        return Err(MissingCredential);
      }
      var record := data.keys[name];
      var metadata := record.metadata.(lastUsedAt := Some(now));
      metadata := metadata.(updatedAt := now);
      data := data.(keys := data.keys[name := record.(metadata := metadata)]);
      var result := Save(saved);
      if result.Err? {
        return Err(result.error);
      }
      return Ok(record.value);
    }

    method RemoveKey(name: string, saved: bool) returns (r: Result<bool, VaultError>)
      modifies this
      ensures Step(State(), r) == KeyRemoved(old(State()), name, saved)
      ensures OnlyKey(name, old(data), data) && name !in data.keys
      ensures SavedAs(r, saved, data, old(disk), disk) && (r.Ok? ==> r.value == (name in old(data).keys))
    {
      var existed := name in data.keys;
      data := data.(keys := data.keys - {name});
      var result := Save(saved);
      if result.Err? {
        return Err(result.error);
      }
      return Ok(existed);
    }

    method DeleteSecret(name: string, saved: bool) returns (r: Result<bool, VaultError>)
      modifies this
      ensures Step(State(), r) == SecretDeleted(old(State()), name, saved)
      ensures
        if "agent-private/" <= name then r == Err(InvalidName) && unchanged(this)
        else OnlyKey(name, old(data), data) && name !in data.keys &&
             SavedAs(r, saved, data, old(disk), disk) && (r.Ok? ==> r.value == (name in old(data).keys))
    {
      if StartsWith(name, AGENT_SECRET_PREFIX) {
        return Err(InvalidName);
      }
      r := RemoveKey(name, saved);
    }

    method SaveAgent(doc: AgentKeypair, now: int, io: Writes) returns (r: Result<(), VaultError>)
      modifies this
      ensures Step(State(), r) == AgentSaved(fingerprint, old(State()), doc, now, io)
      ensures
        var name := "agent-private/" + doc.agentId;
        if !NameFits(doc.name) || !NameFits(name) then r == Err(InvalidName) && unchanged(this)
        else if PreviewPanics(doc.privateKey) then r == Err(Panicked) && unchanged(this)
        else AgentFits(fingerprint, old(data), data, doc, now, io.first) &&
             (r.Ok? <==> io.first && io.second && io.public) && (r.Err? ==> r.error == Io) &&
             if io.first && io.second then disk == data
             else if io.first then disk == data.(agents := old(data).agents)
             else disk == old(disk)
    {
      ValidNameIff(doc.name);
      if !ValidName(doc.name) {
        return Err(InvalidName);
      }
      var public := doc.PublicView();
      r := UpsertKey(AGENT_SECRET_PREFIX + public.agentId, doc.privateKey, ["agent", public.kind], now, io.first);
      if r.Err? {
        return;
      }
      data := data.(agents := data.agents[public.agentId := AgentRecord(public, now, false)]);
      r := Save(io.second);
      if r.Err? {
        return;
      }
      r := Published(io.public);
    }

    method LoadAgent(agentId: string, now: int, saved: bool) returns (r: Result<AgentKeypair, VaultError>)
      modifies this
      ensures Step(State(), r) == AgentLoaded(old(State()), agentId, now, saved)
      ensures
        var name := "agent-private/" + agentId;
        if agentId !in old(data).agents then r == Err(MissingCredential) && unchanged(this)
        else if agentId in old(data).revokedAgents || old(data).agents[agentId].revoked then
          r == Err(Revoked) && unchanged(this)
        else if name !in old(data).keys then r == Err(MissingCredential) && unchanged(this)
        else OnlyKey(name, old(data), data) && name in data.keys &&
             UsedAt(old(data).keys[name], data.keys[name], now) && SavedAs(r, saved, data, old(disk), disk) &&
             (r.Ok? ==> KeypairFits(r.value, old(data).agents[agentId].public, old(data).keys[name].value))
    {
      if agentId !in data.agents {
        return Err(MissingCredential);
      }
      var record := data.agents[agentId];
      if record.revoked || agentId in data.revokedAgents {
        return Err(Revoked);
      }
      var key := UseKey(AGENT_SECRET_PREFIX + agentId, now, saved);
      if key.Err? {
        return Err(key.error);
      }
      var p := record.public;
      return Ok(AgentKeypair(p.version, p.agentId, p.name, p.kind, p.createdAt, p.updatedAt, p.publicKey, key.value));
    }

    method RevokeAgent(agentId: string, io: Writes) returns (r: Result<(), VaultError>)
      modifies this
      ensures Step(State(), r) == AgentRevoked(old(State()), agentId, io)
      ensures
        if agentId !in old(data).agents then r == Err(MissingCredential) && unchanged(this)
        else OnlyAgent(agentId, old(data), data) && agentId in data.agents && agentId in data.revokedAgents &&
             RevokedRecord(old(data).agents[agentId], data.agents[agentId]) &&
             (r.Ok? <==> io.first && io.public) && (r.Err? ==> r.error == Io) &&
             disk == if io.first then data else old(disk)
    {
      if agentId !in data.agents {
        return Err(MissingCredential);
      }
      data := data.(agents := data.agents[agentId := data.agents[agentId].(revoked := true)]);
      data := data.(revokedAgents := data.revokedAgents + {agentId});
      r := Save(io.first);
      if r.Err? {
        return;
      }
      r := Published(io.public);
    }

    /** `Vault::open` on the file of this vault. */
    method Reopen()
      modifies this`data
      ensures State() == Store(old(disk), old(disk))
      ensures data == old(disk) && disk == old(disk)
    {
      data := disk;
    }
  }
}
