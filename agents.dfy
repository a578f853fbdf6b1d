/** The `agents` table: an agent belongs to a business and optionally to a
    user, and carries a configuration (tone and voice). Creation requires the
    business to exist; a user may update the configuration of an agent that
    is theirs, with the supplied keys overriding the stored ones. */
module Agents {
  import opened Base

  datatype Tone = Casual | Professional | Friendly

  datatype Voice = Ana | David

  datatype Configuration = Configuration(tone: Tone, voice: Voice)

  /** The optional keys of an update's `configuration` object. */
  datatype ConfigurationPatch = ConfigurationPatch(tone: Option<Tone>, voice: Option<Voice>)

  datatype Agent = Agent(
    id: Id,
    businessId: Id,
    userId: Option<Id>,
    configuration: Configuration,
    createdAt: int,
    updatedAt: Option<int>)

  /** The messages of the two errors the mutations throw. */
  const BusinessNotFound := "Business não encontrado"
  const AgentNotFound := "Agent não encontrado ou não pertence ao utilizador"

  /** `{ ...current, ...patch }`: each key the patch supplies wins, the other
      keys keep their stored value; so the configuration changes exactly
      when the patch supplies a key with a value different from the stored
      one. */
  function Merge(current: Configuration, patch: ConfigurationPatch): (r: Configuration)
    ensures r == current <==>
      (patch.tone.None? || patch.tone.value == current.tone) && (patch.voice.None? || patch.voice.value == current.voice)
    ensures patch.tone.Some? ==> r.tone == patch.tone.value
    ensures patch.tone.None? ==> r.tone == current.tone
    ensures patch.voice.Some? ==> r.voice == patch.voice.value
    ensures patch.voice.None? ==> r.voice == current.voice
  {
    Configuration(
      if patch.tone.Some? then patch.tone.value else current.tone,
      if patch.voice.Some? then patch.voice.value else current.voice)
  }

  /** The agent `agentId` when it is listed under `userId`. */
  predicate OwnedBy(a: Agent, agentId: Id, userId: Id) {
    a.id == agentId && a.userId == Some(userId)
  }

  function OwnedFn(agentId: Id, userId: Id): Agent -> bool {
    a => OwnedBy(a, agentId, userId)
  }

  ghost predicate WellFormed(rows: seq<Agent>, nextId: Id) {
    (forall i, j :: 0 <= i < j < |rows| ==> rows[i].id < rows[j].id)
    && (forall i :: 0 <= i < |rows| ==> rows[i].id < nextId)
  }

  /** `updateMyAgent`: refused unless the agent is the user's; otherwise
      `updatedAt` is set and, when a configuration is supplied, merged in. */
  function UpdateMine(rows: seq<Agent>, userId: Id, agentId: Id, configuration: Option<ConfigurationPatch>, now: int)
    : (r: (Result<()>, seq<Agent>))
    ensures |r.1| == |rows|
    ensures r.0.Err? <==> forall i :: 0 <= i < |rows| ==> !OwnedBy(rows[i], agentId, userId)
    ensures r.0.Err? ==> r == (Err(AgentNotFound), rows)
  {
    if FirstIndex(rows, OwnedFn(agentId, userId)).None? then (Err(AgentNotFound), rows)
    else
      (Ok(()), seq(|rows|, i requires 0 <= i < |rows| =>
        if rows[i].id == agentId then Updated(rows[i], configuration, now) else rows[i]))
  }

  /** One agent row after `updateMyAgent`'s patch. */
  function Updated(a: Agent, configuration: Option<ConfigurationPatch>, now: int): Agent {
    a.(updatedAt := Some(now),
       configuration := if configuration.Some? then Merge(a.configuration, configuration.value) else a.configuration)
  }

  class AgentStore {
    var rows: seq<Agent>
    var nextId: Id

    ghost predicate Valid()
      reads this
    {
      WellFormed(rows, nextId)
    }

    constructor ()
      ensures Valid() && rows == []
    {
      rows := [];
      nextId := 0;
    }

    /** `createAgent`: `businesses` stands for the ids of the `businesses`
        table. */
    method CreateAgent(businesses: set<Id>, businessId: Id, userId: Option<Id>, configuration: Configuration, now: int)
      returns (r: Result<Id>)
      requires Valid()
      modifies this
      ensures Valid()
      ensures businessId !in businesses ==> r == Err(BusinessNotFound) && rows == old(rows) && nextId == old(nextId)
      ensures businessId in businesses ==>
        r == Ok(old(nextId)) && nextId == old(nextId) + 1
        && rows == old(rows) + [Agent(old(nextId), businessId, userId, configuration, now, None)]
    {
      if businessId !in businesses {
        return Err(BusinessNotFound);
      }
      r := Ok(nextId);
      rows := rows + [Agent(nextId, businessId, userId, configuration, now, None)];
      nextId := nextId + 1;
    }

    /** `updateMyAgent`: builds the patch field by field, then applies it. */
    method UpdateMyAgent(userId: Id, agentId: Id, configuration: Option<ConfigurationPatch>, now: int)
      returns (r: Result<()>)
      requires Valid()
      modifies this
      ensures Valid() && nextId == old(nextId)
      ensures (r, rows) == UpdateMine(old(rows), userId, agentId, configuration, now)
    {
      var found := FirstIndex(rows, OwnedFn(agentId, userId));
      if found.None? {
        return Err(AgentNotFound);
      }
      var k := found.value;
      var agent := rows[k];
      var updated := agent.(updatedAt := Some(now));
      if configuration.Some? {
        updated := updated.(configuration := Merge(agent.configuration, configuration.value));
      }
      assert updated == Updated(agent, configuration, now);
      assert forall i :: 0 <= i < |rows| && rows[i].id == agentId ==> i == k;
      ghost var expected := UpdateMine(rows, userId, agentId, configuration, now).1;
      assert rows[k := updated] == expected by {
        forall i | 0 <= i < |rows| ensures rows[k := updated][i] == expected[i] {
        }
      }
      rows := rows[k := updated];
      r := Ok(());
    }
  }

  /** `updateMyAgent` touches only the named agent: its `updatedAt` becomes
      `now` and its configuration is the merge; business, owner and creation
      time stay, and every other agent is unchanged. */
  lemma UpdateMineEffect(rows: seq<Agent>, nextId: Id, userId: Id, agentId: Id, configuration: Option<ConfigurationPatch>, now: int)
    requires WellFormed(rows, nextId)
    requires UpdateMine(rows, userId, agentId, configuration, now).0.Ok?
    ensures var after := UpdateMine(rows, userId, agentId, configuration, now).1;
      WellFormed(after, nextId)
      && forall i :: 0 <= i < |rows| ==>
        if rows[i].id == agentId then
          after[i].updatedAt == Some(now)
          && after[i].businessId == rows[i].businessId && after[i].userId == Some(userId)
          && after[i].createdAt == rows[i].createdAt
          && after[i].configuration == (if configuration.Some? then Merge(rows[i].configuration, configuration.value)
                                        else rows[i].configuration)
        else after[i] == rows[i]
  {
    var k :| 0 <= k < |rows| && OwnedBy(rows[k], agentId, userId);
    assert forall i :: 0 <= i < |rows| && rows[i].id == agentId ==> i == k;
  }

  /** Merging the same keys twice is merging them once. */
  lemma MergeIdempotent(current: Configuration, patch: ConfigurationPatch)
    ensures Merge(Merge(current, patch), patch) == Merge(current, patch)
  {
  }

  /** Merging an empty object keeps the configuration; merging one that
      supplies both keys replaces it. */
  lemma MergeExtremes(current: Configuration, tone: Tone, voice: Voice)
    ensures Merge(current, ConfigurationPatch(None, None)) == current
    ensures Merge(current, ConfigurationPatch(Some(tone), Some(voice))) == Configuration(tone, voice)
  {
  }

  /** Two successive merges are one merge of the later keys over the
      earlier ones. */
  lemma MergeCompose(current: Configuration, p: ConfigurationPatch, q: ConfigurationPatch)
    ensures Merge(Merge(current, p), q)
         == Merge(current, ConfigurationPatch(if q.tone.Some? then q.tone else p.tone,
                                              if q.voice.Some? then q.voice else p.voice))
  {
  }
}
