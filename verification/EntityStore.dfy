// The stored entities over any sequence of extractions: what never falls, and why there is one node
// per name and type.

module EntityStore {
  import opened Options
  import opened Upserts
  import opened MemoryValues
  import opened GraphRows
  import opened GraphWrite
  import Profiles = EntityProfiles
  import Nodes = EntityDeduplicator
  import Fusion = GraphFusion

  datatype Write = Write(now: Time, graph: MemoryGraph)

  /** A sequence of extractions, each with one chained query. */
  function WriteAll(s: Store, writes: seq<Write>): Store {
    if writes == [] then s
    else
      var last := writes[|writes| - 1];
      ChainedWrite(WriteAll(s, writes[..|writes| - 1]), last.now, last.graph)
  }

  // ---- nothing fades ----

  ghost predicate NotBelowReal(was: Option<real>, now: Option<real>) {
    was.Some? ==> now.Some? && was.value <= now.value
  }

  ghost predicate NotBelowInt(was: Option<int>, now: Option<int>) {
    was.Some? ==> now.Some? && was.value <= now.value
  }

  ghost predicate Grown(was: Entity, now: Entity) {
    && NotBelowReal(was.importance, now.importance) && NotBelowReal(was.confidence, now.confidence)
    && NotBelowInt(was.mentionCount, now.mentionCount)
    && (was.memoryLayer == LONG_TERM ==> now.memoryLayer == LONG_TERM)
    && was.accessCount == now.accessCount && (was.lastAccessAt.Some? ==> now.lastAccessAt == was.lastAccessAt)
    && was.createdAt == now.createdAt && was.coreFacts == now.coreFacts && was.traits == now.traits
  }

  ghost predicate AllGrown(was: map<Id, Entity>, now: map<Id, Entity>) {
    forall id :: id in was ==> id in now && Grown(was[id], now[id])
  }

  lemma {:induction false} UpsertsGrow(now: Time, m: map<Id, Entity>, rows: seq<EntityRow>)
    ensures AllGrown(m, Fold((r: EntityRow) => r.id, EntityPut(now), m, rows))
  {
    if rows != [] {
      UpsertsGrow(now, m, rows[..|rows| - 1]);
    }
  }

  /** The chained query either upserts all entities of the graph or none. */
  lemma ChainedEntities(s: Store, now: Time, g: MemoryGraph)
    ensures var t := ChainedWrite(s, now, g).entities;
            t == s.entities || t == Fold((r: EntityRow) => r.id, EntityPut(now), s.entities, g.entities)
  {
    ChainedWritesWhatItReaches(s, now, g);
    hide ChainedWrite;
    EmptyListsWriteNothing(s, now);
  }

  /** Whatever is extracted, no stored entity disappears, falls in importance, confidence or
      mentions, leaves long-term memory, or changes when and how often it was accessed. */
  lemma {:induction false} EntitiesNeverFade(s: Store, writes: seq<Write>)
    ensures AllGrown(s.entities, WriteAll(s, writes).entities)
  {
    if writes != [] {
      var last, t := writes[|writes| - 1], WriteAll(s, writes[..|writes| - 1]);
      EntitiesNeverFade(s, writes[..|writes| - 1]);
      ChainedEntities(t, last.now, last.graph);
      UpsertsGrow(last.now, t.entities, last.graph.entities);
      hide ChainedWrite, Fold;
    }
  }

  // ---- what a write makes of an entity ----

  /** The greatest of a stored value and those of all rows with the id; a missing value counts as 0, and
      stays missing only below it. */
  ghost predicate GreatestReal(after: Option<real>, stored: Option<real>, rows: seq<EntityRow>, id: Id, of: EntityRow -> real) {
    var base := if stored.Some? then stored.value else 0.0;
    var top := if after.Some? then after.value else 0.0;
    && top >= base && (forall r :: r in rows && r.id == id ==> of(r) <= top)
    && (top == base || exists r :: r in rows && r.id == id && of(r) == top)
    && (after.None? ==> stored.None? && forall r :: r in rows && r.id == id ==> of(r) < 0.0)
  }

  ghost predicate GreatestInt(after: Option<int>, stored: Option<int>, rows: seq<EntityRow>, id: Id, of: EntityRow -> int) {
    var base := if stored.Some? then stored.value else 0;
    var top := if after.Some? then after.value else 0;
    && top >= base && (forall r :: r in rows && r.id == id ==> of(r) <= top)
    && (top == base || exists r :: r in rows && r.id == id && of(r) == top)
    && (after.None? ==> stored.None? && forall r :: r in rows && r.id == id ==> of(r) < 0)
  }

  ghost predicate HasRow(rows: seq<EntityRow>, id: Id) {
    exists r :: r in rows && r.id == id
  }

  ghost predicate GradesGreatest(after: Entity, stored: Option<Entity>, rows: seq<EntityRow>, id: Id) {
    && GreatestReal(after.importance, if stored.Some? then stored.value.importance else None, rows, id, (r: EntityRow) => r.importance)
    && GreatestReal(after.confidence, if stored.Some? then stored.value.confidence else None, rows, id, (r: EntityRow) => r.confidence)
    && GreatestInt(after.mentionCount, if stored.Some? then stored.value.mentionCount else None, rows, id, (r: EntityRow) => r.mentionCount)
  }

  lemma GreatestRealStep(between: Option<real>, stored: Option<real>, rows: seq<EntityRow>, id: Id, of: EntityRow -> real, last: EntityRow)
    requires HasRow(rows, id) ==> GreatestReal(between, stored, rows, id, of)
    requires !HasRow(rows, id) ==> between == stored
    requires last.id == id
    ensures GreatestReal(RaisedReal(between, of(last)), stored, rows + [last], id, of)
  {
    assert last in rows + [last];
  }

  lemma GreatestIntStep(between: Option<int>, stored: Option<int>, rows: seq<EntityRow>, id: Id, of: EntityRow -> int, last: EntityRow)
    requires HasRow(rows, id) ==> GreatestInt(between, stored, rows, id, of)
    requires !HasRow(rows, id) ==> between == stored
    requires last.id == id
    ensures GreatestInt(RaisedInt(between, of(last)), stored, rows + [last], id, of)
  {
    assert last in rows + [last];
  }

  /** What writing rows makes of one id: nothing if no row has it; otherwise its importance, confidence and
      mentions are the greatest of those stored and those of its rows. */
  ghost predicate WrittenAt(before: map<Id, Entity>, after: map<Id, Entity>, rows: seq<EntityRow>, id: Id) {
    if HasRow(rows, id) then id in after && GradesGreatest(after[id], Lookup(before, id), rows, id)
    else Lookup(after, id) == Lookup(before, id)
  }

  lemma OtherRows(rows: seq<EntityRow>, last: EntityRow, id: Id)
    requires last.id != id
    ensures HasRow(rows + [last], id) <==> HasRow(rows, id)
    ensures forall after, stored :: GradesGreatest(after, stored, rows, id) ==> GradesGreatest(after, stored, rows + [last], id)
  {
  }

  lemma WrittenNext(now: Time, before: map<Id, Entity>, between: map<Id, Entity>, rows: seq<EntityRow>, last: EntityRow, id: Id)
    requires WrittenAt(before, between, rows, id)
    ensures WrittenAt(before, between[last.id := PutEntity(now, Lookup(between, last.id), last)], rows + [last], id)
  {
    if last.id == id {
      assert last in rows + [last];
      var stored, mid := Lookup(before, id), Lookup(between, id);
      GreatestRealStep(if mid.Some? then mid.value.importance else None, if stored.Some? then stored.value.importance else None,
                       rows, id, (r: EntityRow) => r.importance, last);
      GreatestRealStep(if mid.Some? then mid.value.confidence else None, if stored.Some? then stored.value.confidence else None,
                       rows, id, (r: EntityRow) => r.confidence, last);
      GreatestIntStep(if mid.Some? then mid.value.mentionCount else None, if stored.Some? then stored.value.mentionCount else None,
                      rows, id, (r: EntityRow) => r.mentionCount, last);
      hide GreatestReal, GreatestInt, RaisedReal, RaisedInt;
    } else {
      OtherRows(rows, last, id);
    }
  }

  /** Whatever rows are written, each stored value is the greatest of the one before and those of the rows,
      and entities without rows stay as they are. */
  lemma {:induction false} StoredAreGreatest(now: Time, m: map<Id, Entity>, rows: seq<EntityRow>, id: Id)
    ensures WrittenAt(m, Fold((r: EntityRow) => r.id, EntityPut(now), m, rows), rows, id)
  {
    if rows != [] {
      var early, last := rows[..|rows| - 1], rows[|rows| - 1];
      StoredAreGreatest(now, m, early, id);
      WrittenNext(now, m, Fold((r: EntityRow) => r.id, EntityPut(now), m, early), early, last, id);
      assert rows == early + [last];
      hide WrittenAt;
    }
  }

  /** The layer after a write: long-term once it was long-term, the row's otherwise. */
  ghost predicate LayerWritten(stored: Option<string>, row: string, after: string) {
    after == if stored == Some("long_term") then "long_term" else row
  }

  /** An entity row with an id of its own: names, texts and embedding are the row's; what only the store
      knows stays, and comes from the row where nothing is stored. */
  lemma EntityWritten(now: Time, m: map<Id, Entity>, rows: seq<EntityRow>, r: EntityRow)
    requires r in rows && forall i, j :: 0 <= i < j < |rows| ==> rows[i].id != rows[j].id
    ensures var m' := Fold((r: EntityRow) => r.id, EntityPut(now), m, rows);
            && r.id in m'
            && var e := m'[r.id];
            && e.name == r.name && e.kind == r.kind && e.description == r.description && e.embedding == r.embedding
            && if r.id in m then
                 && e.accessCount == m[r.id].accessCount && e.createdAt == m[r.id].createdAt
                 && e.coreFacts == m[r.id].coreFacts && e.traits == m[r.id].traits
                 && e.lastAccessAt == (if m[r.id].lastAccessAt.Some? then m[r.id].lastAccessAt else r.lastAccessAt)
                 && LayerWritten(Some(m[r.id].memoryLayer), r.memoryLayer, e.memoryLayer)
               else
                 && e.accessCount == r.accessCount && e.createdAt == now && e.coreFacts == r.coreFacts && e.traits == r.traits
                 && e.lastAccessAt == r.lastAccessAt && LayerWritten(None, r.memoryLayer, e.memoryLayer)
  {
    var key := (r: EntityRow) => r.id;
    var n :| 0 <= n < |rows| && rows[n] == r;
    FoldOnce(key, EntityPut(now), m, rows, n);
    assert Lookup(Fold(key, EntityPut(now), m, rows), r.id) == Some(PutEntity(now, Lookup(m, r.id), r));
  }

  /** A statement row with an id of its own; uses and last use stay where they are stored. */
  lemma StatementWritten(m: map<Id, Statement>, rows: seq<StatementRow>, r: StatementRow)
    requires r in rows && forall i, j :: 0 <= i < j < |rows| ==> rows[i].id != rows[j].id
    ensures var m' := Fold((r: StatementRow) => r.id, PutStatement, m, rows);
            && r.id in m'
            && var t := m'[r.id];
            && t.index == r.index && t.text == r.text && t.statementType == r.statementType && t.temporalType == r.temporalType
            && t.importance == r.importance && t.confidence == r.confidence && t.validAt == r.validAt && t.invalidAt == r.invalidAt
            && t.accessCount == (if r.id in m then m[r.id].accessCount else r.accessCount)
            && t.lastAccessAt == (if r.id in m && m[r.id].lastAccessAt.Some? then m[r.id].lastAccessAt else r.lastAccessAt)
            && LayerWritten(if r.id in m then Some(m[r.id].memoryLayer) else None, r.memoryLayer, t.memoryLayer)
  {
    var key := (r: StatementRow) => r.id;
    var n :| 0 <= n < |rows| && rows[n] == r;
    FoldOnce(key, PutStatement, m, rows, n);
    assert Lookup(Fold(key, PutStatement, m, rows), r.id) == Some(PutStatement(Lookup(m, r.id), r));
  }

  /** A relation row with end points and id of its own; uses and last use stay where they are stored. */
  lemma RelationWritten(m: map<RelationKey, Relation>, rows: seq<RelationRow>, r: RelationRow)
    requires r in rows
    requires forall i, j :: 0 <= i < j < |rows| ==>
               rows[i].id != rows[j].id || rows[i].sourceId != rows[j].sourceId || rows[i].targetId != rows[j].targetId
    ensures var m', k := Fold(KeyOf, PutRelation, m, rows), RelationKey(r.sourceId, r.id, r.targetId);
            && k in m'
            && var t := m'[k];
            && t.name == r.name && t.evidence == r.evidence && t.statementId == r.statementId
            && t.importance == r.importance && t.confidence == r.confidence && t.validAt == r.validAt && t.invalidAt == r.invalidAt
            && t.accessCount == (if k in m then m[k].accessCount else r.accessCount)
            && t.lastAccessAt == (if k in m && m[k].lastAccessAt.Some? then m[k].lastAccessAt else r.lastAccessAt)
            && LayerWritten(if k in m then Some(m[k].memoryLayer) else None, r.memoryLayer, t.memoryLayer)
  {
    var k := RelationKey(r.sourceId, r.id, r.targetId);
    var n :| 0 <= n < |rows| && rows[n] == r;
    FoldOnce(KeyOf, PutRelation, m, rows, n);
    assert Lookup(Fold(KeyOf, PutRelation, m, rows), k) == Some(PutRelation(Lookup(m, k), r));
  }

  lemma ChunkWritten(m: map<Id, Chunk>, rows: seq<ChunkRow>, r: ChunkRow)
    requires r in rows && forall i, j :: 0 <= i < j < |rows| ==> rows[i].id != rows[j].id
    ensures var m' := Fold((r: ChunkRow) => r.id, PutChunk, m, rows);
            r.id in m' && m'[r.id].index == r.index && m'[r.id].text == r.text
  {
    var key := (r: ChunkRow) => r.id;
    var n :| 0 <= n < |rows| && rows[n] == r;
    FoldOnce(key, PutChunk, m, rows, n);
    assert Lookup(Fold(key, PutChunk, m, rows), r.id) == Some(PutChunk(Lookup(m, r.id), r));
  }

  ghost predicate NoNegativeCounts(m: map<Id, Entity>) {
    forall id :: id in m && m[id].mentionCount.Some? ==> m[id].mentionCount.value >= 0
  }

  lemma {:induction false} UpsertsKeepCounts(now: Time, m: map<Id, Entity>, rows: seq<EntityRow>)
    requires NoNegativeCounts(m)
    ensures NoNegativeCounts(Fold((r: EntityRow) => r.id, EntityPut(now), m, rows))
  {
    if rows != [] {
      UpsertsKeepCounts(now, m, rows[..|rows| - 1]);
    }
  }

  /** Whatever is written, no stored mention count becomes negative. */
  lemma {:induction false} CountsStayNonNegative(s: Store, writes: seq<Write>)
    requires NoNegativeCounts(s.entities)
    ensures NoNegativeCounts(WriteAll(s, writes).entities)
  {
    if writes != [] {
      var last, t := writes[|writes| - 1], WriteAll(s, writes[..|writes| - 1]);
      CountsStayNonNegative(s, writes[..|writes| - 1]);
      ChainedEntities(t, last.now, last.graph);
      UpsertsKeepCounts(last.now, t.entities, last.graph.entities);
      hide ChainedWrite, Fold;
    }
  }

  // ---- one node per name and type ----

  /** Every node's id is made from its name and type. */
  ghost predicate KeyedStore(norm: string -> string, hash: ((string, string)) -> Id, m: map<Id, Entity>) {
    forall id :: id in m ==> id == hash((norm(m[id].name), m[id].kind))
  }

  ghost predicate KeyedRows(norm: string -> string, hash: ((string, string)) -> Id, rows: seq<EntityRow>) {
    forall r :: r in rows ==> r.id == hash((norm(r.name), r.kind))
  }

  lemma {:induction false} UpsertsKeepKeys(norm: string -> string, hash: ((string, string)) -> Id, now: Time, m: map<Id, Entity>, rows: seq<EntityRow>)
    requires KeyedStore(norm, hash, m) && KeyedRows(norm, hash, rows)
    ensures KeyedStore(norm, hash, Fold((r: EntityRow) => r.id, EntityPut(now), m, rows))
  {
    if rows != [] {
      UpsertsKeepKeys(norm, hash, now, m, rows[..|rows| - 1]);
      assert rows[|rows| - 1] in rows;
    }
  }

  lemma {:induction false} StoreStaysKeyed(norm: string -> string, hash: ((string, string)) -> Id, s: Store, writes: seq<Write>)
    requires KeyedStore(norm, hash, s.entities)
    requires forall w :: w in writes ==> KeyedRows(norm, hash, w.graph.entities)
    ensures KeyedStore(norm, hash, WriteAll(s, writes).entities)
  {
    if writes != [] {
      var last, t := writes[|writes| - 1], WriteAll(s, writes[..|writes| - 1]);
      StoreStaysKeyed(norm, hash, s, writes[..|writes| - 1]);
      ChainedEntities(t, last.now, last.graph);
      assert last in writes;
      UpsertsKeepKeys(norm, hash, last.now, t.entities, last.graph.entities);
      hide ChainedWrite, Fold;
    }
  }

  /** After any sequence of extractions two nodes with one name and type are the same node, and a
      node keeps its name and type for good. */
  lemma OneNodePerKey(norm: string -> string, hash: ((string, string)) -> Id, s: Store, writes: seq<Write>, a: Id, b: Id)
    requires KeyedStore(norm, hash, s.entities)
    requires forall w :: w in writes ==> KeyedRows(norm, hash, w.graph.entities)
    requires Fusion.Injective(hash)
    ensures var t := WriteAll(s, writes).entities;
            && (a in t && b in t ==>
                  ((norm(t[a].name), t[a].kind) == (norm(t[b].name), t[b].kind) <==> a == b))
            && (a in s.entities ==>
                  a in t && norm(t[a].name) == norm(s.entities[a].name) && t[a].kind == s.entities[a].kind)
  {
    StoreStaysKeyed(norm, hash, s, writes);
    EntitiesNeverFade(s, writes);
    hide WriteAll, Grown;
  }

  /** The row of a resolved entity. */
  function RowOf(e: Nodes.EntityNode): EntityRow
    reads e
  {
    EntityRow(e.id, e.name, e.kind, e.description, e.embedding, e.importance, e.confidence, e.mentionCount, e.accessCount,
              e.lastAccessAt, e.memoryLayer, e.coreFacts, e.traits)
  }

  function RowsOf(entities: seq<Nodes.EntityNode>): (rows: seq<EntityRow>)
    reads entities
    ensures |rows| == |entities| && forall i :: 0 <= i < |entities| ==> rows[i] == RowOf(entities[i])
  {
    seq(|entities|, i requires 0 <= i < |entities| reads entities => RowOf(entities[i]))
  }

  /** What resolving an extraction's entities hands on is fit to be stored. */
  lemma ResolvedRowsKeyed(cfg: Nodes.Settings, hash: ((string, string)) -> Id, batch: seq<Nodes.EntityNode>, entities: seq<Nodes.EntityNode>,
                          byIdx: seq<Nodes.EntityNode>)
    requires Fusion.Resolved(cfg, hash, batch, entities, byIdx)
    ensures KeyedRows(cfg.norm, hash, RowsOf(entities))
  {
  }

  // ---- what is merged but not stored ----

  lemma {:induction false} NothingNew(merged: seq<string>, values: seq<string>)
    requires forall v :: v in values ==> v == "" || v in merged
    ensures Profiles.AppendNew(merged, values) == merged
  {
    if values != [] {
      NothingNew(merged, values[..|values| - 1]);
    }
  }

  lemma {:induction false} AppendNewSplits(merged: seq<string>, left: seq<string>, right: seq<string>)
    ensures Profiles.AppendNew(merged, left + right) == Profiles.AppendNew(Profiles.AppendNew(merged, left), right)
  {
    if right == [] {
      assert left + right == left;
    } else {
      AppendNewSplits(merged, left, right[..|right| - 1]);
      assert (left + right)[..|left + right| - 1] == left + right[..|right| - 1];
    }
  }

  ghost predicate NothingToAdd(stored: seq<string>, incoming: seq<string>) {
    Distinct(stored) && "" !in stored && forall f :: f in incoming && f != "" ==> f in stored
  }

  lemma JoinAddsNothingIff(stored: seq<string>, incoming: seq<string>)
    ensures stored == Profiles.MergeUniqueStrings(stored, incoming) <==> NothingToAdd(stored, incoming)
  {
    Profiles.MergeUniqueShape(stored, incoming);
    if NothingToAdd(stored, incoming) {
      Profiles.AppendNewKeeps(stored);
      AppendNewSplits([], stored, incoming);
      NothingNew(stored, incoming);
    }
  }

  /** Core facts and traits are joined in memory, but the write keeps the stored lists: the joined lists
      are what the store holds afterwards exactly when the stored ones were clean and nothing in the
      joined ones was new. */
  lemma JoinedFactsStoredIff(now: Time, stored: Entity, facts: seq<string>, traits: seq<string>, row: EntityRow)
    requires row.coreFacts == Profiles.MergeUniqueStrings(stored.coreFacts, facts)
    requires row.traits == Profiles.MergeUniqueStrings(stored.traits, traits)
    ensures PutEntity(now, Some(stored), row).coreFacts == row.coreFacts <==> NothingToAdd(stored.coreFacts, facts)
    ensures PutEntity(now, Some(stored), row).traits == row.traits <==> NothingToAdd(stored.traits, traits)
  {
    JoinAddsNothingIff(stored.coreFacts, facts);
    JoinAddsNothingIff(stored.traits, traits);
  }

  /** A fact and a trait that are new are lost. */
  lemma NewFactIsLost(now: Time, stored: Entity, row: EntityRow)
    requires stored.coreFacts == [] && row.coreFacts == Profiles.MergeUniqueStrings(stored.coreFacts, ["plays chess"])
    requires stored.traits == [] && row.traits == Profiles.MergeUniqueStrings(stored.traits, ["patient"])
    ensures row.coreFacts == ["plays chess"] && PutEntity(now, Some(stored), row).coreFacts == []
    ensures row.traits == ["patient"] && PutEntity(now, Some(stored), row).traits == []
  {
    assert [] + ["plays chess"] == ["plays chess"] && [] + ["patient"] == ["patient"];
    assert ["plays chess"][..0] == [] && ["patient"][..0] == [];
  }
}
