// Extracting memories one after the other: stored entities are read back, extracted ones are resolved
// against them, and the graph is written. Whatever the model answers, the store keeps one node per
// name and type.

module MemoryExtraction {
  import opened Options
  import opened MemoryValues
  import opened Upserts
  import opened Vectors
  import opened GraphRows
  import opened GraphWrite
  import opened GraphRepository
  import opened GraphExtractor
  import opened EntityStore
  import opened EntityProfiles
  import opened EntityDeduplicator
  import opened GraphFusion
  import opened RedirectChains

  datatype ExtractedEntity = ExtractedEntity(
    entityIdx: int, name: string, kind: string, description: string, importance: real, confidence: real)

  /** What the model extracts from statements. */
  datatype Extracted = Extracted(entities: seq<ExtractedEntity>, triplets: seq<Triplet>)

  /** `hash` makes an entity id from a lower-case name and a type, `kindOf` maps a type into the
      vocabulary. */
  datatype Setup = Setup(
    tx: Texts, cfg: EntityDeduplicator.Settings, userId: string, lower: string -> string, kindOf: string -> string,
    hash: ((string, string)) -> Id, embedText: (string, string, string) -> Vector, deduplicate: bool)

  /** Ids do not collide, and normalising a stripped name is lower-casing it. */
  ghost predicate Sound(su: Setup) {
    Injective(su.hash) && forall n :: su.cfg.norm(su.tx.strip(n)) == su.lower(su.tx.strip(n))
  }

  // ---- reading stored entities ----

  function OrReal(value: Option<real>, default: real): real {
    if value.Some? && value.value != 0.0 then value.value else default
  }

  function OrInt(value: Option<int>, default: int): int {
    if value.Some? && value.value != 0 then value.value else default
  }

  /** The data of a stored entity as it is read: missing and zero values become defaults. */
  function LoadedProfile(e: Entity): Profile {
    Profile(e.description, e.embedding, OrReal(e.importance, 0.5), OrReal(e.confidence, 0.8), OrInt(e.mentionCount, 1), e.accessCount,
            e.lastAccessAt, if e.memoryLayer != "" then e.memoryLayer else "short_term", e.coreFacts, e.traits)
  }

  ghost predicate LoadedFrom(x: EntityNode, entities: map<Id, Entity>)
    reads x
  {
    x.id in entities && x.name == entities[x.id].name && x.kind == entities[x.id].kind && x.View() == LoadedProfile(entities[x.id])
  }

  /** No two listed objects share an id, and no type lists an object twice. */
  ghost predicate EachOnce(stored: map<string, seq<EntityNode>>, all: seq<EntityNode>)
    reads all
  {
    && (forall i, j :: 0 <= i < j < |all| ==> all[i].id != all[j].id)
    && (forall kind :: kind in stored ==> Distinct(stored[kind]))
  }

  /** The objects are those of the given stored entities, listed by their types. */
  ghost predicate Listed(entities: map<Id, Entity>, ids: set<Id>, stored: map<string, seq<EntityNode>>, all: seq<EntityNode>)
    reads all
  {
    && (forall x :: x in all ==> x.id in ids && LoadedFrom(x, entities))
    && (forall kind, x :: kind in stored && x in stored[kind] ==> x in all && x.kind == kind)
    && (forall id :: id in ids ==> id in entities && exists x :: x in all && x in StoredOf(stored, entities[id].kind) && x.id == id)
  }

  lemma LoadedKind(x: EntityNode, entities: map<Id, Entity>)
    requires LoadedFrom(x, entities)
    ensures x.id in entities && x.kind == entities[x.id].kind
  {
    hide LoadedProfile;
  }

  lemma OnceMore(stored: map<string, seq<EntityNode>>, all: seq<EntityNode>, x: EntityNode)
    requires EachOnce(stored, all) && forall y :: y in all ==> y.id != x.id
    requires forall kind, y :: kind in stored && y in stored[kind] ==> y in all
    ensures EachOnce(stored[x.kind := StoredOf(stored, x.kind) + [x]], all + [x])
  {
    assert x !in all;
  }

  lemma ListOneMore(entities: map<Id, Entity>, ids: set<Id>, stored: map<string, seq<EntityNode>>, all: seq<EntityNode>, x: EntityNode)
    requires Listed(entities, ids, stored, all) && EachOnce(stored, all)
    requires x.id !in ids && LoadedFrom(x, entities)
    ensures Listed(entities, ids + {x.id}, stored[x.kind := StoredOf(stored, x.kind) + [x]], all + [x])
    ensures EachOnce(stored[x.kind := StoredOf(stored, x.kind) + [x]], all + [x])
  {
    LoadedKind(x, entities);
    OnceMore(stored, all, x);
    hide LoadedFrom, EachOnce;
    var more, every := stored[x.kind := StoredOf(stored, x.kind) + [x]], all + [x];
    forall id | id in ids + {x.id}
      ensures id in entities && exists y :: y in every && y in StoredOf(more, entities[id].kind) && y.id == id
    {
      if id == x.id {
        assert x in StoredOf(more, x.kind);
      } else {
        var y :| y in all && y in StoredOf(stored, entities[id].kind) && y.id == id;
        assert y in every && y in StoredOf(more, entities[id].kind);
      }
    }
  }

  lemma NothingListed(entities: map<Id, Entity>, stored: map<string, seq<EntityNode>>, all: seq<EntityNode>)
    requires stored == map[] && all == []
    ensures Listed(entities, {}, stored, all) && EachOnce(stored, all)
  {
  }

  lemma NewIsLoaded(x: EntityNode, entities: map<Id, Entity>)
    requires x.id in entities && x.name == entities[x.id].name && x.kind == entities[x.id].kind && x.View() == LoadedProfile(entities[x.id])
    ensures LoadedFrom(x, entities)
  {
  }

  /** Lists the stored entities by type, each once, as fresh objects. */
  method ListEntities(entities: map<Id, Entity>) returns (stored: map<string, seq<EntityNode>>, all: seq<EntityNode>)
    ensures forall x :: x in all ==> fresh(x)
    ensures Listed(entities, entities.Keys, stored, all) && EachOnce(stored, all)
  {
    hide *;
    stored, all := map[], [];
    var pending := entities.Keys;
    NothingListed(entities, stored, all);
    assert entities.Keys - pending == {};
    while pending != {}
      invariant pending <= entities.Keys
      invariant forall i :: 0 <= i < |all| ==> fresh(all[i])
      invariant Listed(entities, entities.Keys - pending, stored, all) && EachOnce(stored, all)
      decreases |pending|
    {
      var id :| id in pending;
      var e := entities[id];
      var x := new EntityNode(id, e.name, e.kind, LoadedProfile(e));
      NewIsLoaded(x, entities);
      ListOneMore(entities, entities.Keys - pending, stored, all, x);
      stored, all := stored[e.kind := StoredOf(stored, e.kind) + [x]], all + [x];
      assert entities.Keys - (pending - {id}) == entities.Keys - pending + {id};
      pending := pending - {id};
    }
    assert entities.Keys - pending == entities.Keys;
  }

  lemma LoadedAreKeyed(su: Setup, entities: map<Id, Entity>, stored: map<string, seq<EntityNode>>, all: seq<EntityNode>)
    requires KeyedStore(su.cfg.norm, su.hash, entities)
    requires Listed(entities, entities.Keys, stored, all)
    ensures forall kind, x :: kind in stored && x in stored[kind] ==> x in all
    ensures KeyedNow(su.cfg, su.hash, all)
  {
  }

  /** An entity read from the store was mentioned at least once: a missing or zero count becomes 1. */
  lemma CountsReadPositive(entities: map<Id, Entity>, stored: map<string, seq<EntityNode>>, all: seq<EntityNode>)
    requires NoNegativeCounts(entities)
    requires Listed(entities, entities.Keys, stored, all)
    ensures forall x :: x in all ==> x.mentionCount >= 1
  {
    forall x | x in all
      ensures x.mentionCount >= 1
    {
      assert x.mentionCount == x.View().mentionCount;
    }
  }

  // ---- new entities ----

  /** Sets the value under an index: in place if it is there, at the end otherwise. */
  method Assign<T(==)>(order: seq<int>, values: seq<T>, idx: int, value: T) returns (order': seq<int>, values': seq<T>)
    requires |order| == |values| && Distinct(order)
    ensures |order'| == |values'| && Distinct(order')
    ensures forall j :: j in order' <==> j in order || j == idx
    ensures forall i :: 0 <= i < |order'| ==>
              if order'[i] == idx then values'[i] == value else i < |order| && order'[i] == order[i] && values'[i] == values[i]
  {
    for i := 0 to |order|
      invariant forall j :: 0 <= j < i ==> order[j] != idx
    {
      if order[i] == idx {
        return order, values[i := value];
      }
    }
    order', values' := order + [idx], values + [value];
  }

  function ExtractedKey(su: Setup, x: ExtractedEntity): (string, string) {
    (su.lower(su.tx.strip(x.name)), su.kindOf(x.kind))
  }

  /** The id made from the name and the type of an extracted entity. */
  function ExtractedId(su: Setup, x: ExtractedEntity): Id {
    su.hash(ExtractedKey(su, x))
  }

  /** `e` is the entity `x` as it was extracted. */
  ghost predicate MadeFrom(su: Setup, x: ExtractedEntity, e: EntityNode)
    reads e
  {
    && e.id == ExtractedId(su, x) && e.name == su.tx.strip(x.name) && e.kind == su.kindOf(x.kind)
    && e.View() == Profile(su.tx.strip(x.description), [], x.importance, x.confidence, 1, 0, None, "short_term", [], [])
  }

  /** Some entity was extracted like this. */
  ghost predicate AsExtracted(su: Setup, e: EntityNode)
    reads e
  {
    exists x :: MadeFrom(su, x, e)
  }

  lemma MadeAsExtracted(su: Setup, x: ExtractedEntity, e: EntityNode)
    requires MadeFrom(su, x, e)
    ensures AsExtracted(su, e)
  {
    hide ExtractedId;
  }

  method NewEntity(su: Setup, x: ExtractedEntity) returns (e: EntityNode)
    ensures fresh(e) && MadeFrom(su, x, e) && AsExtracted(su, e)
  {
    e := new EntityNode(ExtractedId(su, x), su.tx.strip(x.name), su.kindOf(x.kind),
                        Profile(su.tx.strip(x.description), [], x.importance, x.confidence, 1, 0, None, "short_term", [], []));
    MadeAsExtracted(su, x, e);
  }

  predicate Named(su: Setup, x: ExtractedEntity) {
    su.tx.strip(x.name) != ""
  }

  /** The last extracted entity with this index that has a name. */
  function LastNamed(su: Setup, extracted: seq<ExtractedEntity>, idx: int): Option<ExtractedEntity> {
    if extracted == [] then None
    else
      var last := extracted[|extracted| - 1];
      if last.entityIdx == idx && Named(su, last) then Some(last) else LastNamed(su, extracted[..|extracted| - 1], idx)
  }

  /** The first extracted entity with this name and type. */
  function FirstOfKey(su: Setup, extracted: seq<ExtractedEntity>, key: (string, string)): Option<ExtractedEntity> {
    if extracted == [] then None
    else
      var last, before := extracted[|extracted| - 1], FirstOfKey(su, extracted[..|extracted| - 1], key);
      if before.None? && Named(su, last) && ExtractedKey(su, last) == key then Some(last) else before
  }

  lemma OneMoreExtracted(su: Setup, extracted: seq<ExtractedEntity>, x: ExtractedEntity)
    ensures forall idx :: LastNamed(su, extracted + [x], idx)
                       == if x.entityIdx == idx && Named(su, x) then Some(x) else LastNamed(su, extracted, idx)
    ensures forall key :: FirstOfKey(su, extracted + [x], key)
                       == if FirstOfKey(su, extracted, key).None? && Named(su, x) && ExtractedKey(su, x) == key then Some(x)
                          else FirstOfKey(su, extracted, key)
  {
    assert (extracted + [x])[..|extracted|] == extracted;
  }

  /** An index is listed exactly if an entity with a name was extracted for it. */
  ghost predicate Indexed(su: Setup, extracted: seq<ExtractedEntity>, order: seq<int>) {
    Distinct(order) && forall idx :: idx in order <==> LastNamed(su, extracted, idx).Some?
  }

  lemma {:induction false} LastNamedExtracted(su: Setup, extracted: seq<ExtractedEntity>, idx: int)
    ensures LastNamed(su, extracted, idx).Some? <==> exists x :: x in extracted && x.entityIdx == idx && Named(su, x)
    ensures LastNamed(su, extracted, idx).Some? ==>
              var x := LastNamed(su, extracted, idx).value; x in extracted && x.entityIdx == idx && Named(su, x)
  {
    if extracted != [] {
      var n := |extracted| - 1;
      LastNamedExtracted(su, extracted[..n], idx);
      assert extracted == extracted[..n] + [extracted[n]];
    }
  }

  /** For each listed index the object of the last entity that was extracted for it. */
  ghost predicate RawOf(su: Setup, extracted: seq<ExtractedEntity>, order: seq<int>, batch: seq<EntityNode>)
    reads batch
  {
    && |order| == |batch| && Indexed(su, extracted, order)
    && forall i :: 0 <= i < |order| ==>
         var last := LastNamed(su, extracted, order[i]);
         last.Some? && MadeFrom(su, last.value, batch[i])
  }

  method BuildOne(su: Setup, ghost done: seq<ExtractedEntity>, x: ExtractedEntity, order: seq<int>, batch: seq<EntityNode>)
    returns (order': seq<int>, batch': seq<EntityNode>)
    requires Distinct(batch) && RawOf(su, done, order, batch)
    ensures Distinct(batch') && RawOf(su, done + [x], order', batch')
    ensures forall i :: 0 <= i < |batch'| ==> (i < |batch| && batch'[i] == batch[i]) || fresh(batch'[i])
  {
    OneMoreExtracted(su, done, x);
    hide LastNamed, FirstOfKey, MadeFrom;
    if !Named(su, x) {
      return order, batch;
    }
    var e := NewEntity(su, x);
    order', batch' := Assign(order, batch, x.entityIdx, e);
  }

  /** One object for each extracted index; of several with one index, the last. */
  method BuildRaw(su: Setup, extracted: seq<ExtractedEntity>) returns (order: seq<int>, batch: seq<EntityNode>)
    ensures Distinct(batch) && RawOf(su, extracted, order, batch)
    ensures forall i :: 0 <= i < |batch| ==> fresh(batch[i])
  {
    order, batch := [], [];
    for n := 0 to |extracted|
      invariant Distinct(batch) && RawOf(su, extracted[..n], order, batch)
      invariant forall i :: 0 <= i < |batch| ==> fresh(batch[i])
    {
      assert extracted[..n + 1] == extracted[..n] + [extracted[n]];
      hide *;
      order, batch := BuildOne(su, extracted[..n], extracted[n], order, batch);
    }
    assert extracted[..|extracted|] == extracted;
  }

  /** Objects of the types and ids of the last extracted entities, each mentioned once. */
  ghost predicate OnceEach(su: Setup, extracted: seq<ExtractedEntity>, order: seq<int>, batch: seq<EntityNode>)
    reads batch
  {
    && |order| == |batch| && Indexed(su, extracted, order)
    && forall i :: 0 <= i < |order| ==>
         var last := LastNamed(su, extracted, order[i]);
         last.Some? && batch[i].kind == su.kindOf(last.value.kind) && batch[i].id == ExtractedId(su, last.value) && batch[i].mentionCount == 1
  }

  lemma RawAreKeyed(su: Setup, extracted: seq<ExtractedEntity>, order: seq<int>, batch: seq<EntityNode>)
    requires Sound(su) && RawOf(su, extracted, order, batch)
    ensures KeyedNow(su.cfg, su.hash, batch) && OnceEach(su, extracted, order, batch)
  {
    hide LastNamed;
    forall e | e in batch
      ensures e.id == su.hash(Key(su.cfg, e))
    {
      var i :| 0 <= i < |batch| && batch[i] == e;
    }
    forall i | 0 <= i < |batch|
      ensures batch[i].mentionCount == 1
    {
      assert batch[i].View().mentionCount == 1;
    }
  }

  ghost predicate LastWithId(batch: seq<EntityNode>, i: nat)
    requires i < |batch|
    reads batch
  {
    forall j :: i < j < |batch| ==> batch[j].id != batch[i].id
  }

  /** Embeds one object for each id, the last that has it, unless it has an embedding. */
  method EmbedEntities(su: Setup, batch: seq<EntityNode>)
    requires Distinct(batch)
    modifies batch
    ensures forall e :: e in batch ==> e.id == old(e.id) && e.name == old(e.name)
    ensures forall cfg, hash :: old(KeyedNow(cfg, hash, batch)) ==> KeyedNow(cfg, hash, batch)
    ensures forall extracted, order :: old(OnceEach(su, extracted, order, batch)) ==> OnceEach(su, extracted, order, batch)
    ensures forall i :: 0 <= i < |batch| ==>
              batch[i].View() == if old(batch[i].embedding == [] && LastWithId(batch, i))
                                 then old(batch[i].View()).(embedding := su.embedText(batch[i].name, batch[i].kind, batch[i].description))
                                 else old(batch[i].View())
  {
    for i := 0 to |batch|
      invariant forall e :: e in batch ==>
                  e.id == old(e.id) && e.name == old(e.name) && e.description == old(e.description) && e.mentionCount == old(e.mentionCount)
      invariant forall j :: 0 <= j < |batch| ==>
                  batch[j].View() == if j < i && old(batch[j].embedding == [] && LastWithId(batch, j))
                                     then old(batch[j].View()).(embedding := su.embedText(batch[j].name, batch[j].kind, batch[j].description))
                                     else old(batch[j].View())
    {
      var isLast := true;
      for j := i + 1 to |batch|
        invariant isLast <==> forall m :: i < m < j ==> batch[m].id != batch[i].id
      {
        isLast := isLast && batch[j].id != batch[i].id;
      }
      if isLast && batch[i].embedding == [] {
        batch[i].embedding := su.embedText(batch[i].name, batch[i].kind, batch[i].description);
      }
    }
  }

  /** For each listed index the object of the first entity with the name and type of the last entity
      that was extracted for it. */
  ghost predicate SharedOf(su: Setup, extracted: seq<ExtractedEntity>, order: seq<int>, byIdx: seq<EntityNode>)
    reads byIdx
  {
    && |order| == |byIdx| && Indexed(su, extracted, order)
    && forall i :: 0 <= i < |order| ==>
         var last := LastNamed(su, extracted, order[i]);
         last.Some? && var first := FirstOfKey(su, extracted, ExtractedKey(su, last.value));
         first.Some? && ExtractedKey(su, first.value) == ExtractedKey(su, last.value) && MadeFrom(su, first.value, byIdx[i])
  }

  /** The object of every name and type. */
  ghost predicate SharedByKey(su: Setup, extracted: seq<ExtractedEntity>, byKey: map<(string, string), EntityNode>)
    reads byKey.Values
  {
    forall key :: (key in byKey <==> FirstOfKey(su, extracted, key).Some?)
               && (key in byKey ==> ExtractedKey(su, FirstOfKey(su, extracted, key).value) == key && MadeFrom(su, FirstOfKey(su, extracted, key).value, byKey[key]))
  }

  lemma ShareOneMore(su: Setup, done: seq<ExtractedEntity>, x: ExtractedEntity, byKey: map<(string, string), EntityNode>, e: EntityNode)
    requires SharedByKey(su, done, byKey) && Named(su, x) && ExtractedKey(su, x) !in byKey && MadeFrom(su, x, e)
    ensures SharedByKey(su, done + [x], byKey[ExtractedKey(su, x) := e])
  {
    OneMoreExtracted(su, done, x);
    hide LastNamed, FirstOfKey, MadeFrom;
  }

  lemma ShareNoMore(su: Setup, done: seq<ExtractedEntity>, x: ExtractedEntity, byKey: map<(string, string), EntityNode>)
    requires SharedByKey(su, done, byKey) && (Named(su, x) ==> ExtractedKey(su, x) in byKey)
    ensures SharedByKey(su, done + [x], byKey)
  {
    OneMoreExtracted(su, done, x);
    hide LastNamed, FirstOfKey, MadeFrom;
  }

  lemma SharedNext(su: Setup, done: seq<ExtractedEntity>, x: ExtractedEntity, order: seq<int>, byIdx: seq<EntityNode>,
                   order': seq<int>, byIdx': seq<EntityNode>, byKey: map<(string, string), EntityNode>)
    requires SharedOf(su, done, order, byIdx) && SharedByKey(su, done + [x], byKey)
    requires |order'| == |byIdx'| && Distinct(order')
    requires forall j :: j in order' <==> j in order || (Named(su, x) && j == x.entityIdx)
    requires forall i :: 0 <= i < |order'| ==>
               if Named(su, x) && order'[i] == x.entityIdx then ExtractedKey(su, x) in byKey && byIdx'[i] == byKey[ExtractedKey(su, x)]
               else i < |order| && order'[i] == order[i] && byIdx'[i] == byIdx[i]
    ensures SharedOf(su, done + [x], order', byIdx')
  {
    OneMoreExtracted(su, done, x);
    hide LastNamed, FirstOfKey, MadeFrom, ExtractedKey;
  }

  /** The loop over what is extracted: distinct objects, by key and by index. */
  ghost predicate Sharing(su: Setup, done: seq<ExtractedEntity>, order: seq<int>, byIdx: seq<EntityNode>, entities: seq<EntityNode>,
                          byKey: map<(string, string), EntityNode>)
    reads entities
  {
    && Distinct(entities) && (forall i :: 0 <= i < |byIdx| ==> byIdx[i] in entities)
    && (forall key :: key in byKey ==> byKey[key] in entities)
    && SharedOf(su, done, order, byIdx) && SharedByKey(su, done, byKey)
    && forall e :: e in entities ==> AsExtracted(su, e)
  }

  /** The object of a name and type, made if it is missing. */
  method ObjectOf(su: Setup, ghost done: seq<ExtractedEntity>, x: ExtractedEntity, ghost order: seq<int>, ghost byIdx: seq<EntityNode>,
                  entities: seq<EntityNode>, byKey: map<(string, string), EntityNode>)
    returns (entities': seq<EntityNode>, byKey': map<(string, string), EntityNode>)
    requires Sharing(su, done, order, byIdx, entities, byKey) && Named(su, x)
    ensures Distinct(entities') && entities <= entities'
    ensures forall i :: |entities| <= i < |entities'| ==> fresh(entities'[i])
    ensures forall key :: key in byKey' ==> byKey'[key] in entities'
    ensures ExtractedKey(su, x) in byKey' && SharedByKey(su, done + [x], byKey')
    ensures forall e :: e in entities' ==> AsExtracted(su, e)
  {
    hide SharedOf, SharedByKey, MadeFrom, AsExtracted, ExtractedKey;
    var key := ExtractedKey(su, x);
    entities', byKey' := entities, byKey;
    if key in byKey {
      ShareNoMore(su, done, x, byKey);
    } else {
      var e := NewEntity(su, x);
      ShareOneMore(su, done, x, byKey, e);
      entities', byKey' := entities + [e], byKey[key := e];
    }
  }

  lemma SharingParts(su: Setup, done: seq<ExtractedEntity>, order: seq<int>, byIdx: seq<EntityNode>, entities: seq<EntityNode>,
                     byKey: map<(string, string), EntityNode>)
    requires Sharing(su, done, order, byIdx, entities, byKey)
    ensures Distinct(entities) && |order| == |byIdx| && Distinct(order)
    ensures forall i :: 0 <= i < |byIdx| ==> byIdx[i] in entities
    ensures forall key :: key in byKey ==> byKey[key] in entities
    ensures SharedOf(su, done, order, byIdx) && SharedByKey(su, done, byKey)
    ensures forall e :: e in entities ==> AsExtracted(su, e)
  {
    hide MadeFrom, AsExtracted, SharedByKey, Distinct;
  }

  lemma IsSharing(su: Setup, done: seq<ExtractedEntity>, order: seq<int>, byIdx: seq<EntityNode>, entities: seq<EntityNode>,
                  byKey: map<(string, string), EntityNode>)
    requires Distinct(entities) && SharedOf(su, done, order, byIdx) && SharedByKey(su, done, byKey)
    requires forall i :: 0 <= i < |byIdx| ==> byIdx[i] in entities
    requires forall key :: key in byKey ==> byKey[key] in entities
    requires forall e :: e in entities ==> AsExtracted(su, e)
    ensures Sharing(su, done, order, byIdx, entities, byKey)
  {
    hide AsExtracted, SharedByKey, SharedOf, Distinct;
  }

  /** Files one extracted entity under its index. */
  method ShareOne(su: Setup, ghost done: seq<ExtractedEntity>, x: ExtractedEntity, order: seq<int>, byIdx: seq<EntityNode>,
                  entities: seq<EntityNode>, byKey: map<(string, string), EntityNode>)
    returns (order': seq<int>, byIdx': seq<EntityNode>, entities': seq<EntityNode>, byKey': map<(string, string), EntityNode>)
    requires Sharing(su, done, order, byIdx, entities, byKey)
    ensures Sharing(su, done + [x], order', byIdx', entities', byKey')
    ensures entities <= entities' && forall i :: |entities| <= i < |entities'| ==> fresh(entities'[i])
  {
    SharingParts(su, done, order, byIdx, entities, byKey);
    hide *;
    order', byIdx', entities', byKey' := order, byIdx, entities, byKey;
    if Named(su, x) {
      entities', byKey' := ObjectOf(su, done, x, order, byIdx, entities, byKey);
      order', byIdx' := Assign(order, byIdx, x.entityIdx, byKey'[ExtractedKey(su, x)]);
    } else {
      ShareNoMore(su, done, x, byKey);
    }
    SharedNext(su, done, x, order, byIdx, order', byIdx', byKey');
    forall i | 0 <= i < |byIdx'|
      ensures byIdx'[i] in entities'
    {
      assert entities' == entities + entities'[|entities|..];
    }
    IsSharing(su, done + [x], order', byIdx', entities', byKey');
  }

  /** One object for each name and type, the first that has them, shared by all its indices. */
  method BuildShared(su: Setup, extracted: seq<ExtractedEntity>) returns (order: seq<int>, byIdx: seq<EntityNode>, entities: seq<EntityNode>)
    ensures Distinct(entities) && SharedOf(su, extracted, order, byIdx)
    ensures forall i :: 0 <= i < |entities| ==> fresh(entities[i])
    ensures forall b :: b in byIdx ==> b in entities
    ensures forall e :: e in entities ==> AsExtracted(su, e)
  {
    order, byIdx, entities := [], [], [];
    var byKey: map<(string, string), EntityNode> := map[];
    for n := 0 to |extracted|
      invariant Sharing(su, extracted[..n], order, byIdx, entities, byKey)
      invariant forall i :: 0 <= i < |entities| ==> fresh(entities[i])
    {
      hide *;
      assert extracted[..n + 1] == extracted[..n] + [extracted[n]];
      order, byIdx, entities, byKey := ShareOne(su, extracted[..n], extracted[n], order, byIdx, entities, byKey);
    }
    assert extracted[..|extracted|] == extracted;
  }

  lemma SharedAreKeyed(su: Setup, entities: seq<EntityNode>)
    requires Sound(su) && forall e :: e in entities ==> AsExtracted(su, e)
    ensures KeyedNow(su.cfg, su.hash, entities)
  {
  }

  // ---- resolving ----

  /** The row has the type of the extracted entity and, if nothing is asked, its id. */
  ghost predicate Stands(su: Setup, x: ExtractedEntity, row: EntityRow) {
    row.kind == su.kindOf(x.kind) && (!su.deduplicate ==> row.id == ExtractedId(su, x))
  }

  /** A row for exactly the indices that were extracted with a name, standing for the last entity of
      its index, with an id made from its name and type. */
  ghost predicate ResolvedRows(su: Setup, extracted: seq<ExtractedEntity>, order: seq<int>, rows: seq<EntityRow>) {
    && |order| == |rows| && Indexed(su, extracted, order)
    && (forall i :: 0 <= i < |order| ==> LastNamed(su, extracted, order[i]).Some? && Stands(su, LastNamed(su, extracted, order[i]).value, rows[i]))
    && KeyedRows(su.cfg.norm, su.hash, rows)
  }

  /** The types, and the ids if nothing is asked, are those of the extracted entities. */
  ghost predicate StandingFor(su: Setup, extracted: seq<ExtractedEntity>, order: seq<int>, byIdx: seq<EntityNode>)
    reads byIdx
  {
    && |order| == |byIdx| && Indexed(su, extracted, order)
    && forall i :: 0 <= i < |order| ==>
         var last := LastNamed(su, extracted, order[i]);
         last.Some? && byIdx[i].kind == su.kindOf(last.value.kind) && (!su.deduplicate ==> byIdx[i].id == ExtractedId(su, last.value))
  }

  lemma RowsOfKeyed(su: Setup, extracted: seq<ExtractedEntity>, order: seq<int>, byIdx: seq<EntityNode>)
    requires StandingFor(su, extracted, order, byIdx)
    requires KeyedNow(su.cfg, su.hash, byIdx)
    ensures ResolvedRows(su, extracted, order, RowsOf(byIdx))
  {
    hide LastNamed;
    forall i | 0 <= i < |byIdx|
      ensures RowsOf(byIdx)[i].id == su.hash((su.cfg.norm(RowsOf(byIdx)[i].name), RowsOf(byIdx)[i].kind))
    {
      assert byIdx[i] in byIdx;
    }
  }

  lemma ResolvedFrom(su: Setup, extracted: seq<ExtractedEntity>, order: seq<int>, batch: seq<EntityNode>, entities: seq<EntityNode>, byIdx: seq<EntityNode>)
    requires su.deduplicate && |order| == |batch| && Indexed(su, extracted, order)
    requires forall i :: 0 <= i < |order| ==>
               var last := LastNamed(su, extracted, order[i]); last.Some? && batch[i].kind == su.kindOf(last.value.kind)
    requires Resolved(su.cfg, su.hash, batch, entities, byIdx)
    ensures StandingFor(su, extracted, order, byIdx) && KeyedNow(su.cfg, su.hash, byIdx)
  {
    hide LastNamed;
  }

  lemma IdsDoNotCollide(su: Setup)
    requires Sound(su)
    ensures Injective(su.hash)
  {
  }

  /** How often an entity was mentioned, as it is read: a missing or zero count is read as 1. */
  ghost function ReadCount(entities: map<Id, Entity>, id: Id): int {
    if id !in entities then 0
    else if entities[id].mentionCount in {None, Some(0)} then 1
    else entities[id].mentionCount.value
  }

  ghost function RowIds(rows: seq<EntityRow>): (ids: seq<Id>)
    ensures |ids| == |rows| && forall i :: 0 <= i < |rows| ==> ids[i] == rows[i].id
  {
    seq(|rows|, i requires 0 <= i < |rows| => rows[i].id)
  }

  /** The row counts `own` mentions on top of what is stored under its id. */
  ghost predicate Raised(entities: map<Id, Entity>, row: EntityRow, own: int) {
    row.mentionCount == own + ReadCount(entities, row.id)
  }

  /** Indices whose rows share an id were one entity before the stored ones were looked at. */
  ghost predicate NoRowsMeet(group: seq<EntityNode>, rows: seq<EntityRow>) {
    |group| == |rows| && forall i, j :: 0 <= i < |rows| && 0 <= j < |rows| && rows[i].id == rows[j].id ==> group[i] == group[j]
  }

  /** With a deduplicator, where no rows meet, each row counts the indices with its id on top of what is
      stored; without one, it counts one mention on top of it. */
  ghost predicate RowsRise(su: Setup, entities: map<Id, Entity>, group: seq<EntityNode>, rows: seq<EntityRow>) {
    if su.deduplicate
    then NoRowsMeet(group, rows) ==> forall i :: 0 <= i < |rows| ==> Raised(entities, rows[i], multiset(RowIds(rows))[rows[i].id])
    else forall i :: 0 <= i < |rows| ==> Raised(entities, rows[i], 1)
  }

  /** Every row has the id made from the name and type of the last entity extracted for its index. */
  ghost predicate OwnIds(su: Setup, extracted: seq<ExtractedEntity>, order: seq<int>, rows: seq<EntityRow>) {
    |order| == |rows|
    && forall i :: 0 <= i < |order| ==>
         var last := LastNamed(su, extracted, order[i]); last.Some? && rows[i].id == ExtractedId(su, last.value)
  }

  /** Recorded ids and counts are those of the stored entities. */
  ghost predicate ReadAs(entities: map<Id, Entity>, all: seq<EntityNode>, ids: map<EntityNode, Id>, counts: map<EntityNode, int>) {
    && (forall x :: x in all ==> x in ids && x in counts && ids[x] in entities && counts[x] == ReadCount(entities, ids[x]))
    && (forall id :: id in entities ==> exists x :: x in all && x in ids && ids[x] == id)
  }

  lemma SameObject(all: seq<EntityNode>, x: EntityNode, y: EntityNode)
    requires forall i, j :: 0 <= i < j < |all| ==> all[i].id != all[j].id
    requires x in all && y in all && x.id == y.id
    ensures x == y
  {
    var i :| 0 <= i < |all| && all[i] == x;
    var j :| 0 <= j < |all| && all[j] == y;
    assert !(i < j) && !(j < i);
  }

  lemma CountIsRead(entities: map<Id, Entity>, x: EntityNode)
    requires LoadedFrom(x, entities)
    ensures x.mentionCount == ReadCount(entities, x.id)
  {
    assert x.mentionCount == x.View().mentionCount;
  }

  lemma LoadedAreRead(entities: map<Id, Entity>, stored: map<string, seq<EntityNode>>, all: seq<EntityNode>,
                      ids: map<EntityNode, Id>, counts: map<EntityNode, int>)
    requires Listed(entities, entities.Keys, stored, all)
    requires forall x :: x in all ==> x in ids && x in counts && ids[x] == x.id && counts[x] == x.mentionCount
    ensures ReadAs(entities, all, ids, counts)
  {
    hide StoredOf, LoadedFrom;
    forall x | x in all
      ensures ids[x] in entities && counts[x] == ReadCount(entities, ids[x])
    {
      CountIsRead(entities, x);
    }
  }

  lemma ListedAreOnce(entities: map<Id, Entity>, stored: map<string, seq<EntityNode>>, all: seq<EntityNode>)
    requires Listed(entities, entities.Keys, stored, all) && EachOnce(stored, all)
    ensures ListedOnce(stored, all)
  {
    hide LoadedProfile;
    forall x | x in all
      ensures x in StoredOf(stored, x.kind)
    {
      var y :| y in all && y in StoredOf(stored, entities[x.id].kind) && y.id == x.id;
      SameObject(all, x, y);
    }
    forall x, y | x in all && y in all && x.id == y.id
      ensures x == y
    {
      SameObject(all, x, y);
    }
  }

  lemma ListedAreRead(entities: map<Id, Entity>, stored: map<string, seq<EntityNode>>, all: seq<EntityNode>)
    returns (ids: map<EntityNode, Id>, counts: map<EntityNode, int>)
    requires Listed(entities, entities.Keys, stored, all) && EachOnce(stored, all)
    ensures forall x :: x in all ==> x in ids && x in counts && ids[x] == x.id && counts[x] == x.mentionCount
    ensures ReadAs(entities, all, ids, counts) && ListedOnce(stored, all)
  {
    hide Listed, EachOnce, ReadAs, ListedOnce;
    ids, counts := map x | x in all :: x.id, map x | x in all :: x.mentionCount;
    LoadedAreRead(entities, stored, all, ids, counts);
    ListedAreOnce(entities, stored, all);
  }

  /** An entity that counts on top of the live stored one counts on top of what is stored. */
  lemma OnTopIsRaised(entities: map<Id, Entity>, all: seq<EntityNode>, ids: map<EntityNode, Id>, counts: map<EntityNode, int>, e: EntityNode, own: int)
    requires ReadAs(entities, all, ids, counts) && forall x :: x in all ==> x in ids && x in counts && x.id == ids[x] && x.mentionCount == counts[x]
    requires OnTop(all, e, own)
    ensures Raised(entities, RowOf(e), own)
  {
    if e.id in entities {
      var x :| x in all && x in ids && ids[x] == e.id;
      assert x.id == e.id;
    }
  }

  lemma {:induction false} SameCounts<T, U>(a: seq<T>, b: seq<U>, x: T, y: U)
    requires |a| == |b| && forall i :: 0 <= i < |a| ==> (a[i] == x <==> b[i] == y)
    ensures multiset(a)[x] == multiset(b)[y]
  {
    if a != [] {
      SameCounts(a[..|a| - 1], b[..|b| - 1], x, y);
      assert a == a[..|a| - 1] + [a[|a| - 1]] && b == b[..|b| - 1] + [b[|b| - 1]];
    }
  }

  lemma GroupsRise(su: Setup, entities: map<Id, Entity>, all: seq<EntityNode>, ids: map<EntityNode, Id>, counts: map<EntityNode, int>,
                   group: seq<EntityNode>, byIdx: seq<EntityNode>)
    requires su.deduplicate
    requires ReadAs(entities, all, ids, counts) && forall x :: x in all ==> x in ids && x in counts && x.id == ids[x] && x.mentionCount == counts[x]
    requires |group| == |byIdx| && forall i :: 0 <= i < |group| ==> byIdx[i].id == group[i].id
    requires NobodyMeets(group) ==> byIdx == group && forall e :: e in group ==> OnTop(all, e, multiset(group)[e])
    ensures RowsRise(su, entities, group, RowsOf(byIdx))
    ensures NobodyMeets(group) ==> NoRowsMeet(group, RowsOf(byIdx))
  {
    hide OnTop, Raised;
    var rows := RowsOf(byIdx);
    if NobodyMeets(group) {
      forall i, j | 0 <= i < |rows| && 0 <= j < |rows| && rows[i].id == rows[j].id
        ensures group[i] == group[j]
      {
        assert group[i] in group && group[j] in group;
      }
    }
    if NoRowsMeet(group, rows) {
      forall e, f | e in group && f in group && e != f
        ensures e.id != f.id
      {
        var i :| 0 <= i < |group| && group[i] == e;
        var j :| 0 <= j < |group| && group[j] == f;
        assert rows[i].id == e.id && rows[j].id == f.id;
      }
      assert NobodyMeets(group);
      forall i | 0 <= i < |rows|
        ensures Raised(entities, rows[i], multiset(RowIds(rows))[rows[i].id])
      {
        assert group[i] in group;
        OnTopIsRaised(entities, all, ids, counts, group[i], multiset(group)[group[i]]);
        SameCounts(RowIds(rows), group, rows[i].id, group[i]);
      }
    }
  }

  lemma OnceOf(su: Setup, extracted: seq<ExtractedEntity>, order: seq<int>, batch: seq<EntityNode>)
    requires OnceEach(su, extracted, order, batch)
    ensures |order| == |batch| && Indexed(su, extracted, order) && SeenOnce(batch)
    ensures forall i :: 0 <= i < |order| ==>
              var last := LastNamed(su, extracted, order[i]);
              last.Some? && batch[i].kind == su.kindOf(last.value.kind) && batch[i].id == ExtractedId(su, last.value)
  {
    hide LastNamed;
  }

  lemma OwnIdsOf(su: Setup, extracted: seq<ExtractedEntity>, order: seq<int>, own: seq<Id>, byIdx: seq<EntityNode>)
    requires |order| == |own| == |byIdx| && forall i :: 0 <= i < |byIdx| ==> byIdx[i].id == own[i]
    requires forall i :: 0 <= i < |order| ==>
               var last := LastNamed(su, extracted, order[i]); last.Some? && own[i] == ExtractedId(su, last.value)
    ensures OwnIds(su, extracted, order, RowsOf(byIdx))
  {
    hide LastNamed;
  }

  /** The entities of an extraction as new objects, embedded where they need to be. */
  method RawBatch(su: Setup, extracted: seq<ExtractedEntity>) returns (order: seq<int>, batch: seq<EntityNode>)
    requires Sound(su)
    ensures Distinct(batch) && KeyedNow(su.cfg, su.hash, batch) && OnceEach(su, extracted, order, batch)
    ensures forall i :: 0 <= i < |batch| ==> fresh(batch[i])
  {
    hide *;
    order, batch := BuildRaw(su, extracted);
    RawAreKeyed(su, extracted, order, batch);
    EmbedEntities(su, batch);
  }

  /** Resolves extracted entities with a deduplicator. */
  method ResolveByAnswers(su: Setup, entities: map<Id, Entity>, extracted: seq<ExtractedEntity>, batchAnswers: nat -> Decision, graphAnswers: nat -> Decision)
    returns (order: seq<int>, rows: seq<EntityRow>, ghost group: seq<EntityNode>)
    requires Sound(su) && KeyedStore(su.cfg.norm, su.hash, entities) && su.deduplicate
    ensures ResolvedRows(su, extracted, order, rows)
    ensures RowsRise(su, entities, group, rows)
    ensures NeverAgrees(su.cfg, graphAnswers) ==> NoRowsMeet(group, rows)
    ensures NeverAgrees(su.cfg, batchAnswers) && NeverAgrees(su.cfg, graphAnswers) ==> OwnIds(su, extracted, order, rows)
  {
    hide *;
    var batch;
    order, batch := RawBatch(su, extracted);
    var stored, all := ListEntities(entities);
    LoadedAreKeyed(su, entities, stored, all);
    IdsDoNotCollide(su);
    ghost var ids, counts := ListedAreRead(entities, stored, all);
    OnceOf(su, extracted, order, batch);
    ghost var own := IdList(batch);
    var resolved, byIdx;
    resolved, byIdx, group := BuildEntities(su.cfg, su.hash, order, batch, stored, batchAnswers, graphAnswers, all);
    ResolvedFrom(su, extracted, order, batch, resolved, byIdx);
    RowsOfKeyed(su, extracted, order, byIdx);
    GroupsRise(su, entities, all, ids, counts, group, byIdx);
    rows := RowsOf(byIdx);
    if NeverAgrees(su.cfg, batchAnswers) && NeverAgrees(su.cfg, graphAnswers) {
      OwnIdsOf(su, extracted, order, own, byIdx);
    }
  }

  /** The recorded ids and the types are those of the last extracted entities. */
  ghost predicate IdsRecorded(su: Setup, extracted: seq<ExtractedEntity>, order: seq<int>, byIdx: seq<EntityNode>, records: Records) {
    && |order| == |byIdx| && Indexed(su, extracted, order)
    && forall i :: 0 <= i < |order| ==>
         var last := LastNamed(su, extracted, order[i]);
         last.Some? && byIdx[i] in records && byIdx[i].kind == su.kindOf(last.value.kind) && records[byIdx[i]].id == ExtractedId(su, last.value)
  }

  lemma SharedIds(su: Setup, extracted: seq<ExtractedEntity>, order: seq<int>, byIdx: seq<EntityNode>, shared: seq<EntityNode>, before: Records)
    requires SharedOf(su, extracted, order, byIdx)
    requires Live(shared, before) && forall b :: b in byIdx ==> b in shared
    ensures IdsRecorded(su, extracted, order, byIdx, before)
  {
    hide LastNamed, FirstOfKey;
  }

  lemma StillKeyed(su: Setup, extracted: seq<ExtractedEntity>, order: seq<int>, shared: seq<EntityNode>, byIdx: seq<EntityNode>,
                   before: Records, after: Records)
    requires Keyed(su.cfg, su.hash, shared, before) && Live(shared, after)
    requires forall e :: e in shared ==> e in before && e in after && after[e].id == before[e].id && after[e].name == before[e].name
    requires forall b :: b in byIdx ==> b in shared
    requires IdsRecorded(su, extracted, order, byIdx, before)
    ensures KeyedNow(su.cfg, su.hash, byIdx) && StandingFor(su, extracted, order, byIdx)
  {
    hide LastNamed;
  }

  /** Resolves extracted entities by name and type alone. */
  lemma KnownAreRead(all: seq<EntityNode>, known: Records, ids: map<EntityNode, Id>, counts: map<EntityNode, int>)
    requires Live(all, known)
    requires forall x :: x in all ==> x in ids && x in counts && ids[x] == x.id && counts[x] == x.mentionCount
    ensures forall x :: x in all ==> x in known && known[x].id == ids[x] && known[x].view.mentionCount == counts[x]
  {
  }

  lemma SharedCounts(su: Setup, shared: seq<EntityNode>, before: Records)
    requires Live(shared, before) && forall e :: e in shared ==> AsExtracted(su, e)
    ensures forall e :: e in shared ==> e in before && before[e].view.mentionCount == 1
  {
  }

  lemma NotRead(entities: map<Id, Entity>, id: Id)
    requires id !in entities
    ensures ReadCount(entities, id) == 0
  {
  }

  /** An entity that continues the stored one with its key counts one mention more, and one that
      continues none was never stored. */
  lemma ContinuedOnce(su: Setup, entities: map<Id, Entity>, shared: seq<EntityNode>, before: Records, after: Records,
                      stored: map<string, seq<EntityNode>>, known: Records, all: seq<EntityNode>, ids: map<EntityNode, Id>,
                      counts: map<EntityNode, int>, e: EntityNode)
    requires Injective(su.hash) && AllListed(stored, all, known) && ReadAs(entities, all, ids, counts)
    requires forall x :: x in all ==> x in known && known[x].id == ids[x] && known[x].view.mentionCount == counts[x]
    requires Keyed(su.cfg, su.hash, shared, before) && Keyed(su.cfg, su.hash, all, known)
    requires AllContinued(su.cfg, shared, before, after, stored, known) && e in shared && before[e].view.mentionCount == 1
    ensures e in after && after[e].view.mentionCount == 1 + ReadCount(entities, after[e].id)
  {
    var listed := StoredOf(stored, e.kind);
    hide ReadCount, Injective;
    if i :| 0 <= i < |listed| && ContinuedAt(su.cfg, e.kind, before[e], after[e], listed, known, i) {
      assert listed[i] in all;
    } else {
      assert after[e] == before[e];
      forall x | x in all
        ensures ids[x] != before[e].id
      {
        IdsAreKeys(su.cfg, su.hash, before[e], e.kind, known[x], x.kind);
      }
      NotRead(entities, before[e].id);
    }
  }

  lemma ContinuedRise(su: Setup, entities: map<Id, Entity>, shared: seq<EntityNode>, before: Records, after: Records,
                      stored: map<string, seq<EntityNode>>, known: Records, all: seq<EntityNode>, ids: map<EntityNode, Id>,
                      counts: map<EntityNode, int>, byIdx: seq<EntityNode>)
    requires !su.deduplicate && Injective(su.hash) && AllListed(stored, all, known) && ReadAs(entities, all, ids, counts)
    requires forall x :: x in all ==> x in known && known[x].id == ids[x] && known[x].view.mentionCount == counts[x]
    requires Keyed(su.cfg, su.hash, shared, before) && Keyed(su.cfg, su.hash, all, known)
    requires AllContinued(su.cfg, shared, before, after, stored, known) && Live(shared, after)
    requires (forall e :: e in shared ==> e in before && before[e].view.mentionCount == 1) && forall b :: b in byIdx ==> b in shared
    ensures RowsRise(su, entities, byIdx, RowsOf(byIdx))
  {
    hide AllContinued, Keyed, ReadCount, AllListed, ReadAs;
    var rows := RowsOf(byIdx);
    forall i | 0 <= i < |rows|
      ensures Raised(entities, rows[i], 1)
    {
      var e := byIdx[i];
      assert e in byIdx;
      ContinuedOnce(su, entities, shared, before, after, stored, known, all, ids, counts, e);
      assert after[e] == RecordOf(e);
    }
  }

  lemma OwnIdsKept(su: Setup, extracted: seq<ExtractedEntity>, order: seq<int>, byIdx: seq<EntityNode>)
    requires StandingFor(su, extracted, order, byIdx) && !su.deduplicate
    ensures OwnIds(su, extracted, order, RowsOf(byIdx))
  {
    hide LastNamed;
  }

  method ResolveByName(su: Setup, entities: map<Id, Entity>, extracted: seq<ExtractedEntity>)
    returns (order: seq<int>, rows: seq<EntityRow>, ghost group: seq<EntityNode>)
    requires Sound(su) && KeyedStore(su.cfg.norm, su.hash, entities) && !su.deduplicate
    ensures ResolvedRows(su, extracted, order, rows)
    ensures RowsRise(su, entities, group, rows) && OwnIds(su, extracted, order, rows)
  {
    hide *;
    var byIdx, shared;
    order, byIdx, shared := BuildShared(su, extracted);
    SharedAreKeyed(su, shared);
    var stored, all := ListEntities(entities);
    LoadedAreKeyed(su, entities, stored, all);
    IdsDoNotCollide(su);
    ghost var before, known := Snapshot(shared), Snapshot(all);
    KeyedSnapshot(su.cfg, su.hash, shared, before);
    KeyedSnapshot(su.cfg, su.hash, all, known);
    SharedIds(su, extracted, order, byIdx, shared, before);
    ghost var ids, counts := ListedAreRead(entities, stored, all);
    KnownAreRead(all, known, ids, counts);
    StoredAreKnown(stored, all, known);
    SharedCounts(su, shared, before);
    ghost var after := MergeEntitiesWithGraph(su.cfg, shared, stored, before, all, known);
    ContinuingKeepsIds(su.cfg, su.hash, shared, before, after, stored, known, all);
    StillKeyed(su, extracted, order, shared, byIdx, before, after);
    RowsOfKeyed(su, extracted, order, byIdx);
    OwnIdsKept(su, extracted, order, byIdx);
    ContinuedRise(su, entities, shared, before, after, stored, known, all, ids, counts, byIdx);
    group, rows := byIdx, RowsOf(byIdx);
  }

  /** How resolving counts mentions and keeps ids. */
  ghost predicate Tallied(su: Setup, entities: map<Id, Entity>, extracted: seq<ExtractedEntity>, batchAnswers: nat -> Decision,
                          graphAnswers: nat -> Decision, order: seq<int>, rows: seq<EntityRow>, group: seq<EntityNode>)
  {
    && RowsRise(su, entities, group, rows)
    && (su.deduplicate && NeverAgrees(su.cfg, graphAnswers) ==> NoRowsMeet(group, rows))
    && ((su.deduplicate ==> NeverAgrees(su.cfg, batchAnswers) && NeverAgrees(su.cfg, graphAnswers)) ==> OwnIds(su, extracted, order, rows))
  }

  method ResolveEntities(su: Setup, entities: map<Id, Entity>, extracted: seq<ExtractedEntity>, batchAnswers: nat -> Decision, graphAnswers: nat -> Decision)
    returns (order: seq<int>, rows: seq<EntityRow>, ghost group: seq<EntityNode>)
    requires Sound(su) && KeyedStore(su.cfg.norm, su.hash, entities)
    ensures ResolvedRows(su, extracted, order, rows)
    ensures Tallied(su, entities, extracted, batchAnswers, graphAnswers, order, rows, group)
  {
    hide RowsRise, NoRowsMeet, OwnIds, NeverAgrees, ResolvedRows, KeyedStore, Sound;
    if su.deduplicate {
      order, rows, group := ResolveByAnswers(su, entities, extracted, batchAnswers, graphAnswers);
    } else {
      order, rows, group := ResolveByName(su, entities, extracted);
    }
  }

  // ---- one extraction ----

  lemma OrdersSnoc(order: seq<int>, byIdx: map<int, EntityRow>, i: int, row: EntityRow)
    requires Orders(order, byIdx)
    ensures Orders(order + [i], byIdx[i := row])
  {
  }

  /** Rows by their indices. */
  function ByIndex(order: seq<int>, rows: seq<EntityRow>): (byIdx: map<int, EntityRow>)
    requires |order| == |rows| && Distinct(order)
    ensures Orders(order, byIdx)
    ensures forall i :: i in byIdx ==> byIdx[i] in rows
    ensures forall k :: 0 <= k < |order| ==> byIdx[order[k]] == rows[k]
  {
    if order == [] then map[]
    else
      var last := |order| - 1;
      var before := ByIndex(order[..last], rows[..last]);
      OrdersSnoc(order[..last], before, order[last], rows[last]);
      assert order == order[..last] + [order[last]];
      assert rows == rows[..last] + [rows[last]];
      before[order[last] := rows[last]]
  }

  /** One memory and everything the model answers while it is extracted. */
  datatype Input = Input(
    memoryId: string, content: string, now: Time, dialogAt: Time, chunkAnswers: nat -> seq<ExtractedStatement>,
    extraction: seq<StatementRow> -> Extracted, batchAnswers: nat -> Decision, graphAnswers: nat -> Decision)

  lemma MadeAreKeyed(su: Setup, embed: EntityRow -> seq<real>, order: seq<int>, rows: seq<EntityRow>, byIdx: map<int, EntityRow>, g: MemoryGraph)
    requires Orders(order, byIdx) && forall i :: i in byIdx ==> byIdx[i] in rows
    requires KeyedRows(su.cfg.norm, su.hash, rows)
    requires MadeOf(embed, RowsIn(order, byIdx), g.entities)
    ensures KeyedRows(su.cfg.norm, su.hash, g.entities)
  {
    hide Embedded;
    forall e | e in g.entities
      ensures e.id == su.hash((su.cfg.norm(e.name), e.kind))
    {
      var r :| r in RowsIn(order, byIdx) && e == Embedded(embed, r);
      var k :| 0 <= k < |order| && RowsIn(order, byIdx)[k] == r;
      var idx := order[k];
      assert idx in byIdx && r == byIdx[idx] && r in rows;
    }
  }

  /** The model is asked for entities only where there are statements. */
  function ExtractedFrom(input: Input, statements: seq<StatementRow>): Extracted {
    if statements == [] then Extracted([], []) else input.extraction(statements)
  }

  lemma NothingFromNothing(su: Setup, input: Input, statements: seq<StatementRow>, order: seq<int>, rows: seq<EntityRow>)
    requires ResolvedRows(su, ExtractedFrom(input, statements).entities, order, rows)
    ensures |order| == |rows| && Distinct(order) && KeyedRows(su.cfg.norm, su.hash, rows)
    ensures statements == [] ==> order == []
  {
    assert order != [] ==> order[0] in order;
  }

  /** Every extracted entity that is the last of its index with a name stands in the graph, and the
      graph has no other entities. */
  ghost predicate Covers(su: Setup, extracted: seq<ExtractedEntity>, entities: seq<EntityRow>) {
    && (forall idx :: LastNamed(su, extracted, idx).Some? ==> exists e :: e in entities && Stands(su, LastNamed(su, extracted, idx).value, e))
    && (forall e :: e in entities ==> exists idx :: LastNamed(su, extracted, idx).Some? && Stands(su, LastNamed(su, extracted, idx).value, e))
  }

  lemma StandsToo(su: Setup, x: ExtractedEntity, rows: seq<EntityRow>, entities: seq<EntityRow>, r: EntityRow, e: EntityRow)
    requires Sound(su) && KeyedRows(su.cfg.norm, su.hash, rows) && KeyedRows(su.cfg.norm, su.hash, entities)
    requires r in rows && e in entities && e.id == r.id && Stands(su, x, r)
    ensures Stands(su, x, e)
  {
    assert (su.cfg.norm(e.name), e.kind) == (su.cfg.norm(r.name), r.kind);
  }

  lemma RowStands(su: Setup, extracted: seq<ExtractedEntity>, order: seq<int>, rows: seq<EntityRow>, k: nat)
    requires ResolvedRows(su, extracted, order, rows) && k < |rows|
    ensures k < |order| && KeyedRows(su.cfg.norm, su.hash, rows)
    ensures var last := LastNamed(su, extracted, order[k]); last.Some? && Stands(su, last.value, rows[k])
  {
    hide LastNamed, KeyedRows, Stands;
  }

  lemma IndexIsListed(su: Setup, extracted: seq<ExtractedEntity>, order: seq<int>, rows: seq<EntityRow>, idx: int) returns (k: nat)
    requires ResolvedRows(su, extracted, order, rows) && LastNamed(su, extracted, idx).Some?
    ensures k < |rows| == |order| && order[k] == idx
  {
    hide LastNamed, KeyedRows, Stands;
    k :| 0 <= k < |order| && order[k] == idx;
  }

  lemma RowsInAre(order: seq<int>, rows: seq<EntityRow>, byIdx: map<int, EntityRow>)
    requires Orders(order, byIdx) && |order| == |rows| && forall k :: 0 <= k < |order| ==> byIdx[order[k]] == rows[k]
    ensures RowsIn(order, byIdx) == rows
  {
  }

  lemma EntityForRow(rows: seq<EntityRow>, entities: seq<EntityRow>, k: nat) returns (e: EntityRow)
    requires EachIdKept(rows, entities) && k < |rows|
    ensures e in entities && rows[k] in rows && e.id == rows[k].id
  {
    assert rows[k] in rows;
    e :| e in entities && e.id == rows[k].id;
  }

  lemma RowForEntity(embed: EntityRow -> seq<real>, rows: seq<EntityRow>, entities: seq<EntityRow>, e: EntityRow) returns (k: nat)
    requires MadeOf(embed, rows, entities) && e in entities
    ensures k < |rows| && e.id == rows[k].id
  {
    var r :| r in rows && e == Embedded(embed, r);
    k :| 0 <= k < |rows| && rows[k] == r;
  }

  lemma ResolvedAreCovered(su: Setup, embed: EntityRow -> seq<real>, extracted: seq<ExtractedEntity>, order: seq<int>, rows: seq<EntityRow>,
                           entities: seq<EntityRow>)
    requires Sound(su) && ResolvedRows(su, extracted, order, rows) && KeyedRows(su.cfg.norm, su.hash, entities)
    requires MadeOf(embed, rows, entities) && EachIdKept(rows, entities)
    ensures Covers(su, extracted, entities)
  {
    hide Embedded, LastNamed, ResolvedRows, KeyedRows, Stands, Sound, MadeOf, EachIdKept;
    forall idx | LastNamed(su, extracted, idx).Some?
      ensures exists e :: e in entities && Stands(su, LastNamed(su, extracted, idx).value, e)
    {
      var k := IndexIsListed(su, extracted, order, rows, idx);
      RowStands(su, extracted, order, rows, k);
      var e := EntityForRow(rows, entities, k);
      StandsToo(su, LastNamed(su, extracted, idx).value, rows, entities, rows[k], e);
    }
    forall e | e in entities
      ensures exists idx :: LastNamed(su, extracted, idx).Some? && Stands(su, LastNamed(su, extracted, idx).value, e)
    {
      var k := RowForEntity(embed, rows, entities, e);
      RowStands(su, extracted, order, rows, k);
      StandsToo(su, LastNamed(su, extracted, order[k]).value, rows, entities, rows[k], e);
    }
  }

  /** How an extraction changes the mentions that are stored. With a deduplicator, where no rows meet, the
      count of an entity rises by exactly the number of indices that were resolved to it; without one it
      rises by one. A missing or zero count is taken as 1 before. All other entities stay as they are. */
  ghost predicate MentionsRise(su: Setup, before: map<Id, Entity>, after: map<Id, Entity>, group: seq<EntityNode>, rows: seq<EntityRow>) {
    && (forall id :: id !in RowIds(rows) ==> Lookup(after, id) == Lookup(before, id))
    && (forall i :: 0 <= i < |rows| ==> rows[i].id in after)
    && if su.deduplicate
       then NoRowsMeet(group, rows) ==>
              forall i :: 0 <= i < |rows| ==>
                after[rows[i].id].mentionCount == Some(multiset(RowIds(rows))[rows[i].id] + ReadCount(before, rows[i].id))
       else forall i :: 0 <= i < |rows| ==> after[rows[i].id].mentionCount == Some(1 + ReadCount(before, rows[i].id))
  }

  /** A row that raises a count is stored with its count. */
  lemma RaisedIsStored(before: map<Id, Entity>, after: map<Id, Entity>, entities: seq<EntityRow>, e: EntityRow, own: int)
    requires e in entities && DistinctEntityIds(entities) && WrittenAt(before, after, entities, e.id)
    requires Raised(before, e, own) && own >= 1
    ensures e.id in after && after[e.id].mentionCount == Some(e.mentionCount)
  {
    assert HasRow(entities, e.id);
    forall r | r in entities && r.id == e.id
      ensures r == e
    {
      var i :| 0 <= i < |entities| && entities[i] == r;
      var j :| 0 <= j < |entities| && entities[j] == e;
      assert !(i < j) && !(j < i);
    }
    hide GreatestReal;
  }

  /** Rows with one id raise the count by the same number. */
  ghost predicate RaisedBy(before: map<Id, Entity>, rows: seq<EntityRow>, own: Id -> int) {
    forall i :: 0 <= i < |rows| ==> own(rows[i].id) >= 1 && Raised(before, rows[i], own(rows[i].id))
  }

  lemma RowOfEntity(embed: EntityRow -> seq<real>, rows: seq<EntityRow>, entities: seq<EntityRow>, e: EntityRow) returns (k: nat)
    requires MadeOf(embed, rows, entities) && e in entities
    ensures k < |rows| && e.id == rows[k].id && e.mentionCount == rows[k].mentionCount
  {
    var r :| r in rows && e == Embedded(embed, r);
    k :| 0 <= k < |rows| && rows[k] == r;
  }

  lemma RowStored(before: map<Id, Entity>, after: map<Id, Entity>, embed: EntityRow -> seq<real>, rows: seq<EntityRow>, entities: seq<EntityRow>,
                  own: Id -> int, i: nat)
    requires MadeOf(embed, rows, entities) && EachIdKept(rows, entities) && DistinctEntityIds(entities)
    requires forall id :: WrittenAt(before, after, entities, id)
    requires RaisedBy(before, rows, own) && i < |rows|
    ensures rows[i].id in after && after[rows[i].id].mentionCount == Some(own(rows[i].id) + ReadCount(before, rows[i].id))
  {
    hide WrittenAt, DistinctEntityIds, MadeOf, EachIdKept, ReadCount;
    var e := EntityForRow(rows, entities, i);
    var k := RowOfEntity(embed, rows, entities, e);
    assert Raised(before, e, own(e.id));
    RaisedIsStored(before, after, entities, e, own(e.id));
  }

  lemma OthersUnwritten(before: map<Id, Entity>, after: map<Id, Entity>, embed: EntityRow -> seq<real>, rows: seq<EntityRow>, entities: seq<EntityRow>)
    requires MadeOf(embed, rows, entities) && EachIdKept(rows, entities)
    requires forall id :: WrittenAt(before, after, entities, id)
    ensures forall id :: id !in RowIds(rows) ==> Lookup(after, id) == Lookup(before, id)
    ensures forall i :: 0 <= i < |rows| ==> rows[i].id in after
  {
    hide GradesGreatest, EachIdKept, MadeOf;
    forall id | HasRow(entities, id)
      ensures id in RowIds(rows)
    {
      var e :| e in entities && e.id == id;
      var k := RowForEntity(embed, rows, entities, e);
      assert RowIds(rows)[k] == id;
    }
    forall id | id !in RowIds(rows)
      ensures Lookup(after, id) == Lookup(before, id)
    {
      assert WrittenAt(before, after, entities, id);
    }
    forall i | 0 <= i < |rows|
      ensures rows[i].id in after
    {
      var e := EntityForRow(rows, entities, i);
      assert WrittenAt(before, after, entities, e.id) && HasRow(entities, e.id);
    }
  }

  lemma AtLeastOnce(rows: seq<EntityRow>, i: nat)
    requires i < |rows|
    ensures multiset(RowIds(rows))[rows[i].id] >= 1
  {
    assert RowIds(rows)[i] in RowIds(rows);
  }

  lemma RowsStored(before: map<Id, Entity>, after: map<Id, Entity>, embed: EntityRow -> seq<real>, rows: seq<EntityRow>, entities: seq<EntityRow>,
                   own: Id -> int)
    requires MadeOf(embed, rows, entities) && EachIdKept(rows, entities) && DistinctEntityIds(entities)
    requires forall id :: WrittenAt(before, after, entities, id)
    requires RaisedBy(before, rows, own)
    ensures forall i :: 0 <= i < |rows| ==>
              rows[i].id in after && after[rows[i].id].mentionCount == Some(own(rows[i].id) + ReadCount(before, rows[i].id))
  {
    forall i | 0 <= i < |rows|
      ensures rows[i].id in after && after[rows[i].id].mentionCount == Some(own(rows[i].id) + ReadCount(before, rows[i].id))
    {
      RowStored(before, after, embed, rows, entities, own, i);
    }
  }

  lemma RaisedByIndices(before: map<Id, Entity>, rows: seq<EntityRow>, own: Id -> int)
    requires forall id :: own(id) == multiset(RowIds(rows))[id]
    requires forall i :: 0 <= i < |rows| ==> Raised(before, rows[i], multiset(RowIds(rows))[rows[i].id])
    ensures RaisedBy(before, rows, own)
  {
    hide Raised, RowIds;
    forall i | 0 <= i < |rows|
      ensures own(rows[i].id) >= 1
    {
      AtLeastOnce(rows, i);
    }
  }

  lemma RisesAreStored(su: Setup, before: map<Id, Entity>, after: map<Id, Entity>, embed: EntityRow -> seq<real>, group: seq<EntityNode>,
                       rows: seq<EntityRow>, entities: seq<EntityRow>)
    requires MadeOf(embed, rows, entities) && EachIdKept(rows, entities) && DistinctEntityIds(entities)
    requires forall id :: WrittenAt(before, after, entities, id)
    requires RowsRise(su, before, group, rows)
    ensures MentionsRise(su, before, after, group, rows)
  {
    hide MadeOf, EachIdKept, DistinctEntityIds, WrittenAt, ReadCount, Raised, NoRowsMeet, RowIds;
    OthersUnwritten(before, after, embed, rows, entities);
    if !su.deduplicate {
      assert RaisedBy(before, rows, (id: Id) => 1);
      hide RaisedBy;
      RowsStored(before, after, embed, rows, entities, (id: Id) => 1);
    } else if NoRowsMeet(group, rows) {
      var ids := multiset(RowIds(rows));
      var own := (id: Id) => ids[id];
      RaisedByIndices(before, rows, own);
      hide RaisedBy;
      RowsStored(before, after, embed, rows, entities, own);
    }
  }

  lemma PlainEntitiesWritten(s: Store, now: Time, g: MemoryGraph)
    ensures forall id :: WrittenAt(s.entities, PlainWrite(s, now, g).entities, g.entities, id)
  {
    forall id
      ensures WrittenAt(s.entities, PlainWrite(s, now, g).entities, g.entities, id)
    {
      StoredAreGreatest(now, s.entities, g.entities, id);
      hide WrittenAt, Fold;
    }
  }

  lemma TalliedRise(su: Setup, entities: map<Id, Entity>, extracted: seq<ExtractedEntity>, input: Input, order: seq<int>,
                    rows: seq<EntityRow>, group: seq<EntityNode>)
    requires Tallied(su, entities, extracted, input.batchAnswers, input.graphAnswers, order, rows, group)
    ensures RowsRise(su, entities, group, rows)
  {
  }

  /** Extracts one memory and stores it, whatever the model answers: the store changes exactly as by
      five plain loops over the graph, everything in the graph is stored, its entities are those that
      were extracted, and their ids are made from their names and types. Stored mentions rise by what was
      resolved to an entity. */
  method ExtractMemory(su: Setup, chunkSize: nat, input: Input, repository: Repository)
    returns (g: MemoryGraph, ghost order: seq<int>, ghost rows: seq<EntityRow>, ghost group: seq<EntityNode>)
    requires chunkSize > 0 && Sound(su)
    requires KeyedStore(su.cfg.norm, su.hash, repository.store.entities)
    modifies repository
    ensures repository.store == ChainedWrite(old(repository.store), input.now, g) == PlainWrite(old(repository.store), input.now, g)
    ensures Stored(g, repository.store)
    ensures KeyedRows(su.cfg.norm, su.hash, g.entities) && DistinctEntityIds(g.entities)
    ensures Covers(su, ExtractedFrom(input, g.statements).entities, g.entities)
    ensures ResolvedRows(su, ExtractedFrom(input, g.statements).entities, order, rows)
    ensures Tallied(su, old(repository.store.entities), ExtractedFrom(input, g.statements).entities, input.batchAnswers, input.graphAnswers,
                    order, rows, group)
    ensures MentionsRise(su, old(repository.store.entities), repository.store.entities, group, rows)
    ensures Joined(ChunkTexts(g.chunks)) == su.tx.strip(input.content)
    ensures StatementTexts(g.statements) == AllTexts(su.tx, input.chunkAnswers, |g.chunks|)
  {
    hide *;
    var tx := su.tx;
    var dialogue := Dialogue(tx.stableId([su.userId, input.memoryId, "dialogue"]), input.memoryId, Some(tx.strip(input.content)), input.dialogAt);
    var chunks := ChunkText(tx, su.userId, dialogue.id, input.content, chunkSize);
    var statements := ExtractStatements(tx, su.userId, chunks, input.chunkAnswers, Some(tx.isoFormat(input.dialogAt)));
    var extracted := ExtractedFrom(input, statements);
    var indices, resolved;
    indices, resolved, group := ResolveEntities(su, repository.store.entities, extracted.entities, input.batchAnswers, input.graphAnswers);
    order, rows := indices, resolved;
    NothingFromNothing(su, input, statements, order, rows);
    var byIdx := ByIndex(indices, resolved);
    var embed := (r: EntityRow) => su.embedText(r.name, r.kind, r.description);
    g := BuildGraph(tx, su.userId, dialogue, chunks, statements, indices, byIdx, extracted.triplets, embed);
    MadeAreKeyed(su, embed, order, rows, byIdx, g);
    RowsInAre(order, rows, byIdx);
    ResolvedAreCovered(su, embed, extracted.entities, order, rows, g.entities);
    ChainedIsPlain(repository.store, input.now, g);
    EverythingIsStored(repository.store, input.now, g);
    PlainEntitiesWritten(repository.store, input.now, g);
    TalliedRise(su, repository.store.entities, extracted.entities, input, order, rows, group);
    RisesAreStored(su, repository.store.entities, PlainWrite(repository.store, input.now, g).entities, embed, group, rows, g.entities);
    repository.MergeGraph(input.now, g);
  }

  // ---- any sequence of extractions ----

  /** No two nodes share a name and type, and every id is made from them. */
  ghost predicate OneNodeEach(su: Setup, entities: map<Id, Entity>) {
    && KeyedStore(su.cfg.norm, su.hash, entities)
    && forall a, b :: a in entities && b in entities && a != b ==>
         (su.cfg.norm(entities[a].name), entities[a].kind) != (su.cfg.norm(entities[b].name), entities[b].kind)
  }

  lemma KeyedHasOneEach(su: Setup, entities: map<Id, Entity>)
    requires KeyedStore(su.cfg.norm, su.hash, entities)
    ensures OneNodeEach(su, entities)
  {
  }

  lemma OneWriteMore(su: Setup, s: Store, writes: seq<Write>, w: Write)
    requires KeyedStore(su.cfg.norm, su.hash, WriteAll(s, writes).entities) && KeyedRows(su.cfg.norm, su.hash, w.graph.entities)
    ensures WriteAll(s, writes + [w]) == ChainedWrite(WriteAll(s, writes), w.now, w.graph)
    ensures KeyedStore(su.cfg.norm, su.hash, WriteAll(s, writes + [w]).entities)
  {
    assert (writes + [w])[..|writes|] == writes;
    var t := WriteAll(s, writes);
    ChainedEntities(t, w.now, w.graph);
    UpsertsKeepKeys(su.cfg.norm, su.hash, w.now, t.entities, w.graph.entities);
    hide ChainedWrite;
  }

  lemma NoWrites(s: Store)
    ensures WriteAll(s, []) == s
  {
  }

  /** Extracts memories one after the other. From any store that has one node per name and type, with
      its id made from them, every sequence of extractions leads to such a store, whatever the model
      answers, and no stored entity disappears or fades. */
  method ExtractAll(su: Setup, chunkSize: nat, inputs: seq<Input>, repository: Repository) returns (ghost writes: seq<Write>)
    requires chunkSize > 0 && Sound(su)
    requires KeyedStore(su.cfg.norm, su.hash, repository.store.entities)
    modifies repository
    ensures |writes| == |inputs| && repository.store == WriteAll(old(repository.store), writes)
    ensures OneNodeEach(su, repository.store.entities)
    ensures AllGrown(old(repository.store.entities), repository.store.entities)
  {
    hide *;
    ghost var s := repository.store;
    writes := [];
    NoWrites(s);
    for n := 0 to |inputs|
      invariant |writes| == n && repository.store == WriteAll(s, writes)
      invariant KeyedStore(su.cfg.norm, su.hash, repository.store.entities)
    {
      var g;
      ghost var order, rows, group;
      g, order, rows, group := ExtractMemory(su, chunkSize, inputs[n], repository);
      OneWriteMore(su, s, writes, Write(inputs[n].now, g));
      writes := writes + [Write(inputs[n].now, g)];
    }
    KeyedHasOneEach(su, repository.store.entities);
    EntitiesNeverFade(s, writes);
  }
}
