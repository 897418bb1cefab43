// Writing one memory graph in a single chained query, where each list is unwound once for every
// row that the list before it produced.

module GraphWrite {
  import opened Options
  import opened Upserts
  import opened MemoryValues
  import opened GraphRows

  // ---- writing one list ----

  function Filter<T>(keep: T -> bool, rows: seq<T>): seq<T> {
    if rows == [] then []
    else Filter(keep, rows[..|rows| - 1]) + if keep(rows[|rows| - 1]) then [rows[|rows| - 1]] else []
  }

  function WriteDialogue(s: Store, d: Dialogue): Store {
    s.(dialogues := s.dialogues[d.id := d])
  }

  function WriteChunks(s: Store, d: Id, rows: seq<ChunkRow>): Store {
    s.(chunks := Fold((r: ChunkRow) => r.id, PutChunk, s.chunks, rows),
       hasChunk := s.hasChunk + set r | r in rows :: (d, r.id))
  }

  /** Rows without their chunk produce nothing. */
  function MatchedStatements(s: Store, rows: seq<StatementRow>): seq<StatementRow> {
    Filter((r: StatementRow) => r.chunkId in s.chunks, rows)
  }

  function StatementEdges(rows: seq<StatementRow>): set<(Id, Id)> {
    set r | r in rows :: (r.chunkId, r.id)
  }

  function WriteStatements(s: Store, rows: seq<StatementRow>): Store {
    var matched := MatchedStatements(s, rows);
    s.(statements := Fold((r: StatementRow) => r.id, PutStatement, s.statements, matched),
       hasStatement := s.hasStatement + StatementEdges(matched))
  }

  function WriteEntities(s: Store, now: Time, rows: seq<EntityRow>): Store {
    s.(entities := Fold((r: EntityRow) => r.id, EntityPut(now), s.entities, rows))
  }

  function MatchedMentions(s: Store, rows: seq<MentionRow>): seq<MentionRow> {
    Filter((r: MentionRow) => r.statementId in s.statements && r.entityId in s.entities, rows)
  }

  function WriteMentions(s: Store, rows: seq<MentionRow>): Store {
    s.(mentions := s.mentions + set r | r in MatchedMentions(s, rows))
  }

  function MatchedRelations(s: Store, rows: seq<RelationRow>): seq<RelationRow> {
    Filter((r: RelationRow) => r.sourceId in s.entities && r.targetId in s.entities && r.statementId in s.statements, rows)
  }

  function KeyOf(r: RelationRow): RelationKey {
    RelationKey(r.sourceId, r.id, r.targetId)
  }

  function WriteRelations(s: Store, rows: seq<RelationRow>): Store {
    s.(relations := Fold(KeyOf, PutRelation, s.relations, MatchedRelations(s, rows)))
  }

  /** Five independent loops. */
  function PlainWrite(s: Store, now: Time, g: MemoryGraph): Store {
    var s1 := WriteChunks(WriteDialogue(s, g.dialogue), g.dialogue.id, g.chunks);
    var s2 := WriteStatements(s1, g.statements);
    var s3 := WriteEntities(s2, now, g.entities);
    var s4 := WriteMentions(s3, g.mentions);
    WriteRelations(s4, g.relations)
  }

  // ---- the chained query ----

  /** A list unwound once per incoming row. */
  function Repeat(write: Store -> Store, times: nat, s: Store): Store {
    if times == 0 then s else write(Repeat(write, times - 1, s))
  }

  /** Each incoming row goes on once for every list row that matched. */
  function RowsAfter(incoming: nat, matched: nat): (rows: nat)
    ensures rows == 0 <==> incoming == 0 || matched == 0
  {
    if incoming == 0 then 0 else matched + RowsAfter(incoming - 1, matched)
  }

  function ChainedWrite(s: Store, now: Time, g: MemoryGraph): Store {
    var s0 := WriteDialogue(s, g.dialogue);
    var s1 := Repeat((x: Store) => WriteChunks(x, g.dialogue.id, g.chunks), 1, s0);
    var rows1 := RowsAfter(1, |g.chunks|);
    var s2 := Repeat((x: Store) => WriteStatements(x, g.statements), rows1, s1);
    var rows2 := RowsAfter(rows1, |MatchedStatements(s1, g.statements)|);
    var s3 := Repeat((x: Store) => WriteEntities(x, now, g.entities), rows2, s2);
    var rows3 := RowsAfter(rows2, |g.entities|);
    var s4 := Repeat((x: Store) => WriteMentions(x, g.mentions), rows3, s3);
    var rows4 := RowsAfter(rows3, |MatchedMentions(s3, g.mentions)|);
    Repeat((x: Store) => WriteRelations(x, g.relations), rows4, s4)
  }

  // ---- repeating a list ----

  lemma {:induction false} RepeatIdempotent(write: Store -> Store, times: nat, s: Store)
    requires write(write(s)) == write(s)
    ensures Repeat(write, times, s) == if times == 0 then s else write(s)
  {
    if times > 0 {
      RepeatIdempotent(write, times - 1, s);
    }
  }

  lemma ChunksTwice(s: Store, d: Id, rows: seq<ChunkRow>)
    ensures WriteChunks(WriteChunks(s, d, rows), d, rows) == WriteChunks(s, d, rows)
  {
    ChunkRegular();
    FoldTwice((r: ChunkRow) => r.id, PutChunk, (n: Chunk, r: ChunkRow) => true, (n: Chunk, r: ChunkRow) => Chunk(r.index, r.text), s.chunks, rows);
  }

  lemma StatementsTwice(s: Store, rows: seq<StatementRow>)
    ensures WriteStatements(WriteStatements(s, rows), rows) == WriteStatements(s, rows)
  {
    StatementRegular();
    FoldTwice((r: StatementRow) => r.id, PutStatement, StatementSettled(), StatementStamp(), s.statements, MatchedStatements(s, rows));
  }

  lemma EntitiesTwice(s: Store, now: Time, rows: seq<EntityRow>)
    ensures WriteEntities(WriteEntities(s, now, rows), now, rows) == WriteEntities(s, now, rows)
  {
    EntityRegular(now);
    FoldTwice((r: EntityRow) => r.id, EntityPut(now), EntitySettled(), EntityStamp(), s.entities, rows);
  }

  lemma MentionsTwice(s: Store, rows: seq<MentionRow>)
    ensures WriteMentions(WriteMentions(s, rows), rows) == WriteMentions(s, rows)
  {
  }

  lemma RelationsTwice(s: Store, rows: seq<RelationRow>)
    ensures WriteRelations(WriteRelations(s, rows), rows) == WriteRelations(s, rows)
  {
    RelationRegular();
    FoldTwice(KeyOf, PutRelation, RelationSettled(), RelationStamp(), s.relations, MatchedRelations(s, rows));
  }

  // ---- the chained query against the plain loops ----

  /** The graph without the lists that no row reaches: those behind a list that produced none. */
  function Reached(s: Store, now: Time, g: MemoryGraph): MemoryGraph {
    var s1 := WriteChunks(WriteDialogue(s, g.dialogue), g.dialogue.id, g.chunks);
    if g.chunks == [] then g.(statements := [], entities := [], mentions := [], relations := [])
    else if MatchedStatements(s1, g.statements) == [] then g.(entities := [], mentions := [], relations := [])
    else if g.entities == [] then g.(mentions := [], relations := [])
    else
      var s3 := WriteEntities(WriteStatements(s1, g.statements), now, g.entities);
      if MatchedMentions(s3, g.mentions) == [] then g.(relations := []) else g
  }

  lemma EmptyListsWriteNothing(s: Store, now: Time)
    ensures WriteStatements(s, []) == s && WriteEntities(s, now, []) == s
    ensures WriteMentions(s, []) == s && WriteRelations(s, []) == s
  {
  }

  lemma StageOnce(times: nat, s: Store, d: Id, now: Time, g: MemoryGraph)
    ensures Repeat((x: Store) => WriteChunks(x, d, g.chunks), times, s) == if times == 0 then s else WriteChunks(s, d, g.chunks)
    ensures Repeat((x: Store) => WriteStatements(x, g.statements), times, s) == if times == 0 then s else WriteStatements(s, g.statements)
    ensures Repeat((x: Store) => WriteEntities(x, now, g.entities), times, s) == if times == 0 then s else WriteEntities(s, now, g.entities)
    ensures Repeat((x: Store) => WriteMentions(x, g.mentions), times, s) == if times == 0 then s else WriteMentions(s, g.mentions)
    ensures Repeat((x: Store) => WriteRelations(x, g.relations), times, s) == if times == 0 then s else WriteRelations(s, g.relations)
  {
    ChunksTwice(s, d, g.chunks);
    StatementsTwice(s, g.statements);
    EntitiesTwice(s, now, g.entities);
    MentionsTwice(s, g.mentions);
    RelationsTwice(s, g.relations);
    hide WriteChunks, WriteStatements, WriteEntities, WriteMentions, WriteRelations;
    RepeatIdempotent((x: Store) => WriteChunks(x, d, g.chunks), times, s);
    RepeatIdempotent((x: Store) => WriteStatements(x, g.statements), times, s);
    RepeatIdempotent((x: Store) => WriteEntities(x, now, g.entities), times, s);
    RepeatIdempotent((x: Store) => WriteMentions(x, g.mentions), times, s);
    RepeatIdempotent((x: Store) => WriteRelations(x, g.relations), times, s);
  }

  /** The chained query with every list written once if any row reaches it. */
  function GatedWrite(s1: Store, now: Time, g: MemoryGraph): Store {
    var rows1 := RowsAfter(1, |g.chunks|);
    var s2 := if rows1 == 0 then s1 else WriteStatements(s1, g.statements);
    var rows2 := RowsAfter(rows1, |MatchedStatements(s1, g.statements)|);
    var s3 := if rows2 == 0 then s2 else WriteEntities(s2, now, g.entities);
    var rows3 := RowsAfter(rows2, |g.entities|);
    var s4 := if rows3 == 0 then s3 else WriteMentions(s3, g.mentions);
    var rows4 := RowsAfter(rows3, |MatchedMentions(s3, g.mentions)|);
    if rows4 == 0 then s4 else WriteRelations(s4, g.relations)
  }

  lemma ChainedIsGated(s: Store, now: Time, g: MemoryGraph)
    ensures ChainedWrite(s, now, g) ==
            GatedWrite(WriteChunks(WriteDialogue(s, g.dialogue), g.dialogue.id, g.chunks), now, g)
  {
    hide WriteChunks, WriteStatements, WriteEntities, WriteMentions, WriteRelations, WriteDialogue, MatchedStatements, MatchedMentions, Repeat, RowsAfter;
    var d := g.dialogue.id;
    var s0 := WriteDialogue(s, g.dialogue);
    var s1 := WriteChunks(s0, d, g.chunks);
    StageOnce(1, s0, d, now, g);
    var rows1 := RowsAfter(1, |g.chunks|);
    StageOnce(rows1, s1, d, now, g);
    var s2 := if rows1 == 0 then s1 else WriteStatements(s1, g.statements);
    var rows2 := RowsAfter(rows1, |MatchedStatements(s1, g.statements)|);
    StageOnce(rows2, s2, d, now, g);
    var s3 := if rows2 == 0 then s2 else WriteEntities(s2, now, g.entities);
    var rows3 := RowsAfter(rows2, |g.entities|);
    StageOnce(rows3, s3, d, now, g);
    var s4 := if rows3 == 0 then s3 else WriteMentions(s3, g.mentions);
    var rows4 := RowsAfter(rows3, |MatchedMentions(s3, g.mentions)|);
    StageOnce(rows4, s4, d, now, g);
  }

  lemma PlainFrom(s: Store, now: Time, g: MemoryGraph, s1: Store, s2: Store, s3: Store, s4: Store)
    requires s1 == WriteChunks(WriteDialogue(s, g.dialogue), g.dialogue.id, g.chunks)
    requires s2 == WriteStatements(s1, g.statements)
    requires s3 == WriteEntities(s2, now, g.entities)
    requires s4 == WriteMentions(s3, g.mentions)
    ensures PlainWrite(s, now, g) == WriteRelations(s4, g.relations)
    ensures PlainWrite(s, now, g.(relations := [])) == s4
    ensures PlainWrite(s, now, g.(mentions := [], relations := [])) == s3
    ensures PlainWrite(s, now, g.(entities := [], mentions := [], relations := [])) == s2
    ensures PlainWrite(s, now, g.(statements := [], entities := [], mentions := [], relations := [])) == s1
  {
    EmptyListsWriteNothing(s1, now);
    EmptyListsWriteNothing(s2, now);
    EmptyListsWriteNothing(s3, now);
    EmptyListsWriteNothing(s4, now);
    hide WriteChunks, WriteStatements, WriteEntities, WriteMentions, WriteRelations, WriteDialogue;
  }

  lemma NoMatchesWriteNothing(s: Store, now: Time, statements: seq<StatementRow>, mentions: seq<MentionRow>)
    ensures MatchedStatements(s, statements) == [] ==> WriteStatements(s, statements) == s
    ensures MatchedMentions(s, mentions) == [] ==> WriteMentions(s, mentions) == s
    ensures WriteEntities(s, now, []) == s
  {
  }

  /** For every store and every graph, the chained query writes exactly what plain loops write of
      the lists it reaches: repetition adds nothing, and only unreached lists are dropped. */
  lemma ChainedWritesWhatItReaches(s: Store, now: Time, g: MemoryGraph)
    ensures ChainedWrite(s, now, g) == PlainWrite(s, now, Reached(s, now, g))
  {
    var s1 := WriteChunks(WriteDialogue(s, g.dialogue), g.dialogue.id, g.chunks);
    var s2 := WriteStatements(s1, g.statements);
    var s3 := WriteEntities(s2, now, g.entities);
    var s4 := WriteMentions(s3, g.mentions);
    hide WriteChunks, WriteStatements, WriteEntities, WriteMentions, WriteRelations, WriteDialogue, MatchedStatements, MatchedMentions, Repeat, ChainedWrite, PlainWrite;
    ChainedIsGated(s, now, g);
    PlainFrom(s, now, g, s1, s2, s3, s4);
    NoMatchesWriteNothing(s1, now, g.statements, g.mentions);
    NoMatchesWriteNothing(s2, now, g.statements, g.mentions);
    NoMatchesWriteNothing(s3, now, g.statements, g.mentions);
  }

  // ---- graphs that lose nothing ----

  /** Every row names things that the same graph brings along, and no list is empty while a later
      one is not. */
  ghost predicate SelfContained(g: MemoryGraph) {
    && (forall r :: r in g.statements ==> exists c :: c in g.chunks && c.id == r.chunkId)
    && (forall r :: r in g.mentions ==>
          (exists t :: t in g.statements && t.id == r.statementId) && (exists e :: e in g.entities && e.id == r.entityId))
    && (g.relations != [] ==> g.mentions != [])
    && (g.mentions != [] ==> g.entities != [])
    && (g.entities != [] ==> g.statements != [])
    && (g.statements != [] ==> g.chunks != [])
  }

  lemma {:induction false} FilterAll<T>(keep: T -> bool, rows: seq<T>)
    requires forall i :: 0 <= i < |rows| ==> keep(rows[i])
    ensures Filter(keep, rows) == rows
  {
    if rows != [] {
      FilterAll(keep, rows[..|rows| - 1]);
      assert rows == rows[..|rows| - 1] + [rows[|rows| - 1]];
    }
  }

  lemma {:induction false} FoldKeys<K, R, N>(key: R -> K, upd: (Option<N>, R) -> N, m: map<K, N>, rows: seq<R>)
    ensures forall k :: k in m ==> k in Fold(key, upd, m, rows)
    ensures forall r :: r in rows ==> key(r) in Fold(key, upd, m, rows)
  {
    if rows != [] {
      FoldKeys(key, upd, m, rows[..|rows| - 1]);
      assert rows == rows[..|rows| - 1] + [rows[|rows| - 1]];
    }
  }

  lemma SelfContainedMatches(s: Store, now: Time, g: MemoryGraph)
    requires SelfContained(g)
    ensures var s1 := WriteChunks(WriteDialogue(s, g.dialogue), g.dialogue.id, g.chunks);
            var s3 := WriteEntities(WriteStatements(s1, g.statements), now, g.entities);
            MatchedStatements(s1, g.statements) == g.statements && MatchedMentions(s3, g.mentions) == g.mentions
  {
    var s1 := WriteChunks(WriteDialogue(s, g.dialogue), g.dialogue.id, g.chunks);
    FoldKeys((r: ChunkRow) => r.id, PutChunk, s.chunks, g.chunks);
    FilterAll((r: StatementRow) => r.chunkId in s1.chunks, g.statements);
    var s2 := WriteStatements(s1, g.statements);
    FoldKeys((r: StatementRow) => r.id, PutStatement, s1.statements, g.statements);
    var s3 := WriteEntities(s2, now, g.entities);
    FoldKeys((r: EntityRow) => r.id, EntityPut(now), s2.entities, g.entities);
    FilterAll((r: MentionRow) => r.statementId in s3.statements && r.entityId in s3.entities, g.mentions);
  }

  /** For self-contained graphs the chained query is the five plain loops. */
  lemma ChainedIsPlain(s: Store, now: Time, g: MemoryGraph)
    requires SelfContained(g)
    ensures ChainedWrite(s, now, g) == PlainWrite(s, now, g)
  {
    ChainedWritesWhatItReaches(s, now, g);
    SelfContainedMatches(s, now, g);
    hide ChainedWrite, PlainWrite;
    if g.chunks == [] {
      assert g == g.(statements := [], entities := [], mentions := [], relations := []);
    } else if g.statements == [] {
      assert g == g.(entities := [], mentions := [], relations := []);
    } else if g.entities == [] {
      assert g == g.(mentions := [], relations := []);
    } else if g.mentions == [] {
      assert g == g.(relations := []);
    }
  }

  /** A graph with entities but no chunk: the chained query drops them all. */
  lemma EntitiesWithoutChunksDropped(s: Store, now: Time, g: MemoryGraph)
    requires g.chunks == []
    ensures ChainedWrite(s, now, g).entities == s.entities
  {
    ChainedWritesWhatItReaches(s, now, g);
  }
}
