// The rows of a memory graph, the nodes and edges they are stored as, and how one row changes one node.

module GraphRows {
  import opened Options
  import opened MemoryValues
  import opened Upserts

  // ---- rows and stored nodes ----

  datatype Dialogue = Dialogue(id: Id, memoryId: Id, summary: Option<string>, createdAt: Time)

  datatype ChunkRow = ChunkRow(id: Id, index: int, text: string)

  datatype StatementRow = StatementRow(
    id: Id, chunkId: Id, index: int, text: string, statementType: string, temporalType: string, importance: real,
    confidence: real, validAt: Option<Time>, invalidAt: Option<Time>, accessCount: int, lastAccessAt: Option<Time>, memoryLayer: string)

  datatype EntityRow = EntityRow(
    id: Id, name: string, kind: string, description: string, embedding: seq<real>, importance: real, confidence: real,
    mentionCount: int, accessCount: int, lastAccessAt: Option<Time>, memoryLayer: string, coreFacts: seq<string>, traits: seq<string>)

  datatype MentionRow = MentionRow(id: Id, statementId: Id, entityId: Id)

  datatype RelationRow = RelationRow(
    id: Id, sourceId: Id, targetId: Id, statementId: Id, name: string, evidence: string, importance: real, confidence: real,
    validAt: Option<Time>, invalidAt: Option<Time>, accessCount: int, lastAccessAt: Option<Time>, memoryLayer: string)

  datatype Chunk = Chunk(index: int, text: string)

  datatype Statement = Statement(
    index: int, text: string, statementType: string, temporalType: string, importance: real, confidence: real,
    validAt: Option<Time>, invalidAt: Option<Time>, accessCount: int, lastAccessAt: Option<Time>, memoryLayer: string)

  datatype Entity = Entity(
    name: string, kind: string, description: string, embedding: seq<real>, importance: Option<real>, confidence: Option<real>,
    mentionCount: Option<int>, accessCount: int, lastAccessAt: Option<Time>, memoryLayer: string, coreFacts: seq<string>,
    traits: seq<string>, createdAt: Time)

  datatype Relation = Relation(
    name: string, evidence: string, statementId: Id, importance: real, confidence: real,
    validAt: Option<Time>, invalidAt: Option<Time>, accessCount: int, lastAccessAt: Option<Time>, memoryLayer: string)

  datatype Store = Store(
    dialogues: map<Id, Dialogue>,
    chunks: map<Id, Chunk>,
    statements: map<Id, Statement>,
    entities: map<Id, Entity>,
    relations: map<RelationKey, Relation>,
    hasChunk: set<(Id, Id)>,
    hasStatement: set<(Id, Id)>,
    mentions: set<MentionRow>)

  datatype MemoryGraph = MemoryGraph(
    dialogue: Dialogue, chunks: seq<ChunkRow>, statements: seq<StatementRow>, entities: seq<EntityRow>,
    mentions: seq<MentionRow>, relations: seq<RelationRow>)

  // ---- how one row changes one node ----

  function Coalesce<T>(stored: Option<T>, row: Option<T>): Option<T> {
    if stored.Some? then stored else row
  }

  /** A stored long-term layer stays; otherwise the row decides. */
  function Layer(stored: Option<string>, row: string): string {
    if stored == Some(LONG_TERM) then LONG_TERM else row
  }

  /** A stored value above the row's stays; a missing one counts as 0. */
  function RaisedReal(stored: Option<real>, row: real): Option<real> {
    if (if stored.Some? then stored.value else 0.0) > row then stored else Some(row)
  }

  function RaisedInt(stored: Option<int>, row: int): Option<int> {
    if (if stored.Some? then stored.value else 0) > row then stored else Some(row)
  }

  function PutChunk(o: Option<Chunk>, r: ChunkRow): Chunk {
    Chunk(r.index, r.text)
  }

  function PutStatement(o: Option<Statement>, r: StatementRow): Statement {
    Statement(r.index, r.text, r.statementType, r.temporalType, r.importance, r.confidence, r.validAt, r.invalidAt,
              if o.Some? then o.value.accessCount else r.accessCount,
              if o.Some? then Coalesce(o.value.lastAccessAt, r.lastAccessAt) else r.lastAccessAt,
              Layer(if o.Some? then Some(o.value.memoryLayer) else None, r.memoryLayer))
  }

  function PutEntity(now: Time, o: Option<Entity>, r: EntityRow): Entity {
    match o
    case None =>
      Entity(r.name, r.kind, r.description, r.embedding, RaisedReal(None, r.importance), RaisedReal(None, r.confidence),
             RaisedInt(None, r.mentionCount), r.accessCount, r.lastAccessAt, r.memoryLayer, r.coreFacts, r.traits, now)
    case Some(e) =>
      Entity(r.name, r.kind, r.description, r.embedding, RaisedReal(e.importance, r.importance), RaisedReal(e.confidence, r.confidence),
             RaisedInt(e.mentionCount, r.mentionCount), e.accessCount, Coalesce(e.lastAccessAt, r.lastAccessAt),
             Layer(Some(e.memoryLayer), r.memoryLayer), e.coreFacts, e.traits, e.createdAt)
  }

  function PutRelation(o: Option<Relation>, r: RelationRow): Relation {
    Relation(r.name, r.evidence, r.statementId, r.importance, r.confidence, r.validAt, r.invalidAt,
             if o.Some? then o.value.accessCount else r.accessCount,
             if o.Some? then Coalesce(o.value.lastAccessAt, r.lastAccessAt) else r.lastAccessAt,
             Layer(if o.Some? then Some(o.value.memoryLayer) else None, r.memoryLayer))
  }

  // ---- each kind of upsert is regular ----

  ghost predicate SettledAccess(stored: Option<Time>, row: Option<Time>) {
    row.Some? ==> stored.Some?
  }

  ghost predicate SettledLayer(stored: string, row: string) {
    row == LONG_TERM ==> stored == LONG_TERM
  }

  lemma ChunkRegular()
    ensures Regular(PutChunk, (n: Chunk, r: ChunkRow) => true, (n: Chunk, r: ChunkRow) => Chunk(r.index, r.text))
  {
  }

  ghost function StatementSettled(): (Statement, StatementRow) -> bool {
    (n: Statement, r: StatementRow) => SettledAccess(n.lastAccessAt, r.lastAccessAt) && SettledLayer(n.memoryLayer, r.memoryLayer)
  }

  ghost function StatementStamp(): (Statement, StatementRow) -> Statement {
    (n: Statement, r: StatementRow) =>
      Statement(r.index, r.text, r.statementType, r.temporalType, r.importance, r.confidence, r.validAt, r.invalidAt,
                n.accessCount, n.lastAccessAt, Layer(Some(n.memoryLayer), r.memoryLayer))
  }

  lemma StatementRegular()
    ensures Regular(PutStatement, StatementSettled(), StatementStamp())
  {
  }

  /** The row cannot raise the stored value. */
  ghost predicate SettledReal(stored: Option<real>, row: real) {
    if stored.Some? then row <= stored.value else row < 0.0
  }

  ghost predicate SettledInt(stored: Option<int>, row: int) {
    if stored.Some? then row <= stored.value else row < 0
  }

  ghost predicate SettlesEntity(n: Entity, r: EntityRow) {
    && SettledReal(n.importance, r.importance) && SettledReal(n.confidence, r.confidence) && SettledInt(n.mentionCount, r.mentionCount)
    && SettledAccess(n.lastAccessAt, r.lastAccessAt) && SettledLayer(n.memoryLayer, r.memoryLayer)
  }

  function StampEntity(n: Entity, r: EntityRow): Entity {
    n.(name := r.name, kind := r.kind, description := r.description, embedding := r.embedding,
       memoryLayer := Layer(Some(n.memoryLayer), r.memoryLayer))
  }

  ghost function EntitySettled(): (Entity, EntityRow) -> bool {
    (n: Entity, r: EntityRow) => SettlesEntity(n, r)
  }

  ghost function EntityStamp(): (Entity, EntityRow) -> Entity {
    (n: Entity, r: EntityRow) => StampEntity(n, r)
  }

  function EntityPut(now: Time): (Option<Entity>, EntityRow) -> Entity {
    (o: Option<Entity>, r: EntityRow) => PutEntity(now, o, r)
  }

  lemma PutSettlesEntity(now: Time, o: Option<Entity>, r: EntityRow, other: EntityRow)
    ensures SettlesEntity(PutEntity(now, o, r), r)
    ensures o.Some? && SettlesEntity(o.value, other) ==> SettlesEntity(PutEntity(now, o, r), other)
    ensures o.Some? && SettlesEntity(o.value, r) ==> PutEntity(now, o, r) == StampEntity(o.value, r)
    ensures StampEntity(PutEntity(now, o, r), r) == PutEntity(now, o, r)
  {
  }

  lemma StampsOverwrite(n: Entity, a: EntityRow, b: EntityRow)
    requires SettlesEntity(n, a) && SettlesEntity(n, b)
    ensures StampEntity(StampEntity(n, a), b) == StampEntity(n, b)
  {
  }

  lemma EntityRegular(now: Time)
    ensures Regular(EntityPut(now), EntitySettled(), EntityStamp())
  {
    forall o, r, other
      ensures SettlesEntity(PutEntity(now, o, r), r)
      ensures o.Some? && SettlesEntity(o.value, other) ==> SettlesEntity(PutEntity(now, o, r), other)
      ensures o.Some? && SettlesEntity(o.value, r) ==> PutEntity(now, o, r) == StampEntity(o.value, r)
      ensures StampEntity(PutEntity(now, o, r), r) == PutEntity(now, o, r)
    {
      PutSettlesEntity(now, o, r, other);
    }
    forall n, a, b | SettlesEntity(n, a) && SettlesEntity(n, b)
      ensures StampEntity(StampEntity(n, a), b) == StampEntity(n, b)
    {
      StampsOverwrite(n, a, b);
    }
    hide PutEntity, SettlesEntity, StampEntity;
  }

  ghost function RelationSettled(): (Relation, RelationRow) -> bool {
    (n: Relation, r: RelationRow) => SettledAccess(n.lastAccessAt, r.lastAccessAt) && SettledLayer(n.memoryLayer, r.memoryLayer)
  }

  ghost function RelationStamp(): (Relation, RelationRow) -> Relation {
    (n: Relation, r: RelationRow) =>
      Relation(r.name, r.evidence, r.statementId, r.importance, r.confidence, r.validAt, r.invalidAt,
               n.accessCount, n.lastAccessAt, Layer(Some(n.memoryLayer), r.memoryLayer))
  }

  lemma RelationRegular()
    ensures Regular(PutRelation, RelationSettled(), RelationStamp())
  {
  }
}
