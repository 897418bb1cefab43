// From a memory text to the graph that is stored: chunks, statements, and what the model extracts
// from them. The graphs built here are the ones that the chained write stores without loss.

module GraphExtractor {
  import opened Options
  import opened MemoryValues
  import opened GraphRows
  import opened GraphWrite

  /** Text handling and id making, as any functions. */
  datatype Texts = Texts(
    strip: string -> string, upper: string -> string, parseTime: Option<string> -> Option<Time>, isoFormat: Time -> string,
    decimal: nat -> string, stableId: seq<string> -> Id, predicateName: string -> string)

  datatype ExtractedStatement = ExtractedStatement(
    statement: string, statementType: string, temporalType: string, hasUnsolvedReference: bool, importance: real, confidence: real,
    validAt: Option<string>, invalidAt: Option<string>)

  datatype Triplet = Triplet(
    subjectId: int, relation: string, objectId: int, evidence: string, importance: real, confidence: real,
    validAt: Option<string>, invalidAt: Option<string>)

  // ---- chunks ----

  function Joined(texts: seq<string>): string {
    if texts == [] then "" else Joined(texts[..|texts| - 1]) + texts[|texts| - 1]
  }

  function ChunkTexts(chunks: seq<ChunkRow>): (texts: seq<string>)
    ensures |texts| == |chunks| && forall i :: 0 <= i < |chunks| ==> texts[i] == chunks[i].text
  {
    seq(|chunks|, i requires 0 <= i < |chunks| => chunks[i].text)
  }

  function Least(a: nat, b: nat): (m: nat)
    ensures m <= a && m <= b && (m == a || m == b)
  {
    if a <= b then a else b
  }

  /** Cuts a memory into consecutive chunks: together they are the stripped text, none is empty or
      too long, and each has its own index and id. */
  method ChunkText(tx: Texts, userId: string, dialogueId: Id, content: string, size: nat) returns (chunks: seq<ChunkRow>)
    requires size > 0
    ensures Joined(ChunkTexts(chunks)) == tx.strip(content)
    ensures forall i :: 0 <= i < |chunks| ==>
                          && 0 < |chunks[i].text| <= size && chunks[i].index == i
                          && chunks[i].id == tx.stableId([userId, dialogueId, "chunk", tx.decimal(i)])
                          && (i + 1 < |chunks| ==> |chunks[i].text| == size)
  {
    var normalized := tx.strip(content);
    var texts: seq<string> := [];
    var cursor := 0;
    while cursor < |normalized|
      invariant Joined(texts) == normalized[..Least(cursor, |normalized|)]
      invariant cursor < |normalized| ==> forall i :: 0 <= i < |texts| ==> |texts[i]| == size
      invariant forall i :: 0 <= i < |texts| ==> 0 < |texts[i]| <= size && (i + 1 < |texts| ==> |texts[i]| == size)
      decreases |normalized| - cursor
    {
      var text := normalized[cursor..Least(cursor + size, |normalized|)];
      assert (texts + [text])[..|texts|] == texts;
      assert normalized[..cursor] + text == normalized[..Least(cursor + size, |normalized|)];
      texts := texts + [text];
      cursor := cursor + size;
    }
    chunks := seq(|texts|, i requires 0 <= i < |texts| =>
      ChunkRow(tx.stableId([userId, dialogueId, "chunk", tx.decimal(i)]), i, texts[i]));
    assert ChunkTexts(chunks) == texts;
    assert normalized[..|normalized|] == normalized;
  }

  // ---- statements ----

  predicate Usable(tx: Texts, s: ExtractedStatement) {
    !s.hasUnsolvedReference && tx.strip(s.statement) != ""
  }

  function UsableTexts(tx: Texts, answer: seq<ExtractedStatement>): seq<string> {
    if answer == [] then []
    else
      var last := answer[|answer| - 1];
      UsableTexts(tx, answer[..|answer| - 1]) + if Usable(tx, last) then [tx.strip(last.statement)] else []
  }

  /** The usable texts of the first `n` answers. */
  function AllTexts(tx: Texts, answers: nat -> seq<ExtractedStatement>, n: nat): seq<string> {
    if n == 0 then [] else AllTexts(tx, answers, n - 1) + UsableTexts(tx, answers(n - 1))
  }

  function StatementTexts(statements: seq<StatementRow>): (texts: seq<string>)
    ensures |texts| == |statements| && forall i :: 0 <= i < |statements| ==> texts[i] == statements[i].text
  {
    seq(|statements|, i requires 0 <= i < |statements| => statements[i].text)
  }

  /** Statements are numbered over all chunks, and each belongs to one of them. */
  ghost predicate Numbered(tx: Texts, userId: string, chunks: seq<ChunkRow>, statements: seq<StatementRow>) {
    forall i :: 0 <= i < |statements| ==>
                  && statements[i].index == i && statements[i].text != ""
                  && (exists c :: c in chunks && c.id == statements[i].chunkId)
                  && statements[i].id == tx.stableId([userId, statements[i].chunkId, "statement", tx.decimal(i), statements[i].text])
  }

  /** The time from which a dynamic statement without its own time holds is that of the dialogue. */
  function ValidFrom(tx: Texts, s: ExtractedStatement, dialogAt: Option<string>): Option<Time> {
    if tx.parseTime(s.validAt).None? && tx.upper(s.temporalType) == "DYNAMIC" then tx.parseTime(dialogAt) else tx.parseTime(s.validAt)
  }

  /** Asks the model about each chunk and keeps the usable statements, in order. */
  method ExtractStatements(tx: Texts, userId: string, chunks: seq<ChunkRow>, answers: nat -> seq<ExtractedStatement>, dialogAt: Option<string>)
    returns (statements: seq<StatementRow>)
    ensures Numbered(tx, userId, chunks, statements)
    ensures StatementTexts(statements) == AllTexts(tx, answers, |chunks|)
  {
    statements := [];
    for n := 0 to |chunks|
      invariant Numbered(tx, userId, chunks, statements)
      invariant StatementTexts(statements) == AllTexts(tx, answers, n)
    {
      var chunk, answer := chunks[n], answers(n);
      for k := 0 to |answer|
        invariant Numbered(tx, userId, chunks, statements)
        invariant StatementTexts(statements) == AllTexts(tx, answers, n) + UsableTexts(tx, answer[..k])
      {
        assert answer[..k + 1][..k] == answer[..k];
        assert chunk in chunks;
        var s := answer[k];
        var text := tx.strip(s.statement);
        if !s.hasUnsolvedReference && text != "" {
          var index := |statements|;
          var row := StatementRow(tx.stableId([userId, chunk.id, "statement", tx.decimal(index), text]), chunk.id, index, text,
                                  s.statementType, s.temporalType, s.importance, s.confidence, ValidFrom(tx, s, dialogAt),
                                  tx.parseTime(s.invalidAt), 0, None, "short_term");
          assert StatementTexts(statements + [row]) == StatementTexts(statements) + [text];
          statements := statements + [row];
        }
      }
      assert answer[..|answer|] == answer;
    }
  }

  /** With injective ids no two statements share one. */
  lemma StatementIdsDistinct(tx: Texts, userId: string, chunks: seq<ChunkRow>, statements: seq<StatementRow>, i: nat, j: nat)
    requires Numbered(tx, userId, chunks, statements) && i < j < |statements|
    requires forall a, b :: tx.stableId(a) == tx.stableId(b) ==> a == b
    requires forall m, n :: tx.decimal(m) == tx.decimal(n) ==> m == n
    ensures statements[i].id != statements[j].id
  {
  }

  // ---- the graph ----

  /** The last statement with a text. */
  function LastWithText(statements: seq<StatementRow>, text: string): Option<StatementRow> {
    if statements == [] then None
    else if statements[|statements| - 1].text == text then Some(statements[|statements| - 1])
    else LastWithText(statements[..|statements| - 1], text)
  }

  /** The statement that a triplet quotes, or else the first one. */
  function StatementFor(statements: seq<StatementRow>, evidence: string): Option<StatementRow> {
    var quoted := LastWithText(statements, evidence);
    if quoted.Some? then quoted else if statements == [] then None else Some(statements[0])
  }

  lemma {:induction false} QuotedIsListed(statements: seq<StatementRow>, text: string)
    ensures LastWithText(statements, text).Some? ==> LastWithText(statements, text).value in statements
  {
    if statements != [] {
      QuotedIsListed(statements[..|statements| - 1], text);
    }
  }

  predicate Linkable(statements: seq<StatementRow>, byIdx: map<int, EntityRow>, t: Triplet) {
    t.subjectId in byIdx && t.objectId in byIdx && StatementFor(statements, t.evidence).Some?
  }

  function RelationOf(tx: Texts, userId: string, statements: seq<StatementRow>, byIdx: map<int, EntityRow>, t: Triplet): RelationRow
    requires Linkable(statements, byIdx, t)
  {
    var s, head, tail := StatementFor(statements, t.evidence).value, byIdx[t.subjectId], byIdx[t.objectId];
    var from, until := tx.parseTime(t.validAt), tx.parseTime(t.invalidAt);
    RelationRow(tx.stableId([userId, head.id, t.relation, tail.id, s.id]), head.id, tail.id, s.id, tx.predicateName(t.relation),
                if t.evidence != "" then t.evidence else s.text, t.importance, t.confidence,
                if from.Some? then from else s.validAt, if until.Some? then until else s.invalidAt, 0, None, "short_term")
  }

  /** The relations of the triplets that can be linked, in order. */
  function RelationsOf(tx: Texts, userId: string, statements: seq<StatementRow>, byIdx: map<int, EntityRow>, triplets: seq<Triplet>): seq<RelationRow> {
    if triplets == [] then []
    else
      var last := triplets[|triplets| - 1];
      RelationsOf(tx, userId, statements, byIdx, triplets[..|triplets| - 1])
      + if Linkable(statements, byIdx, last) then [RelationOf(tx, userId, statements, byIdx, last)] else []
  }

  /** Which statement mentions which entity. */
  function MentionPairs(statements: seq<StatementRow>, byIdx: map<int, EntityRow>, triplets: seq<Triplet>): set<(Id, Id)> {
    if triplets == [] then {}
    else
      var last := triplets[|triplets| - 1];
      MentionPairs(statements, byIdx, triplets[..|triplets| - 1])
      + if Linkable(statements, byIdx, last)
        then var s := StatementFor(statements, last.evidence).value.id; {(s, byIdx[last.subjectId].id), (s, byIdx[last.objectId].id)}
        else {}
  }

  /** One mention per pair. */
  ghost predicate OneMentionPerPair(mentions: seq<MentionRow>, pairs: set<(Id, Id)>) {
    && (forall m :: m in mentions ==> (m.statementId, m.entityId) in pairs)
    && (forall p :: p in pairs ==> exists m :: m in mentions && (m.statementId, m.entityId) == p)
    && (forall i, j :: 0 <= i < j < |mentions| ==>
                         (mentions[i].statementId, mentions[i].entityId) != (mentions[j].statementId, mentions[j].entityId))
  }

  /** Adds a mention unless its pair has one already. */
  method AddMention(tx: Texts, userId: string, statementId: Id, entityId: Id, mentions: seq<MentionRow>, byKey: set<(Id, Id)>)
    returns (mentions': seq<MentionRow>, byKey': set<(Id, Id)>)
    requires OneMentionPerPair(mentions, byKey)
    ensures byKey' == byKey + {(statementId, entityId)}
    ensures OneMentionPerPair(mentions', byKey')
  {
    mentions', byKey' := mentions, byKey;
    if (statementId, entityId) !in byKey {
      var m := MentionRow(tx.stableId([userId, statementId, entityId, "mentions"]), statementId, entityId);
      mentions', byKey' := mentions + [m], byKey + {(statementId, entityId)};
      forall p | p in byKey'
        ensures exists n :: n in mentions' && (n.statementId, n.entityId) == p
      {
        if p in byKey {
          var n :| n in mentions && (n.statementId, n.entityId) == p;
          assert n in mentions';
        } else {
          assert m in mentions';
        }
      }
    } else {
      assert byKey + {(statementId, entityId)} == byKey;
    }
  }

  ghost predicate DistinctEntityIds(entities: seq<EntityRow>) {
    forall i, j :: 0 <= i < j < |entities| ==> entities[i].id != entities[j].id
  }

  /** `order` lists the indices that have an entity. */
  ghost predicate Orders(order: seq<int>, byIdx: map<int, EntityRow>) {
    && (forall k :: 0 <= k < |order| ==> order[k] in byIdx)
    && (forall i :: i in byIdx ==> i in order)
  }

  function RowsIn(order: seq<int>, byIdx: map<int, EntityRow>): (rows: seq<EntityRow>)
    requires Orders(order, byIdx)
    ensures |rows| == |order| && forall k :: 0 <= k < |order| ==> rows[k] == byIdx[order[k]]
    ensures forall i :: i in byIdx ==> byIdx[i] in rows
  {
    var rows := seq(|order|, k requires 0 <= k < |order| => assert order[k] in byIdx; byIdx[order[k]]);
    assert forall i :: i in byIdx ==> byIdx[i] in rows by {
      forall i | i in byIdx
        ensures byIdx[i] in rows
      {
        assert i in order;
        var k :| 0 <= k < |order| && order[k] == i;
        assert rows[k] == byIdx[i];
      }
    }
    rows
  }

  /** One row per id; of several, the last. */
  method UniqueById(rows: seq<EntityRow>) returns (entities: seq<EntityRow>)
    ensures DistinctEntityIds(entities)
    ensures forall e :: e in entities ==> e in rows
    ensures forall r :: r in rows ==> exists e :: e in entities && e.id == r.id
  {
    entities := [];
    var position: map<Id, nat> := map[];
    for n := 0 to |rows|
      invariant forall id :: id in position ==> position[id] < |entities| && entities[position[id]].id == id
      invariant forall k :: 0 <= k < |entities| ==> entities[k].id in position && position[entities[k].id] == k
      invariant forall k :: 0 <= k < |entities| ==> entities[k] in rows
      invariant forall m :: 0 <= m < n ==> rows[m].id in position
    {
      var row := rows[n];
      if row.id in position {
        entities := entities[position[row.id] := row];
      } else {
        position, entities := position[row.id := |entities|], entities + [row];
      }
    }
    forall r | r in rows
      ensures exists e :: e in entities && e.id == r.id
    {
      assert entities[position[r.id]] in entities;
    }
  }

  /** A row with its embedding, which is made where it is missing. */
  function Embedded(embed: EntityRow -> seq<real>, row: EntityRow): (r: EntityRow)
    ensures r.id == row.id && r.name == row.name && r.kind == row.kind
  {
    if row.embedding == [] then row.(embedding := embed(row)) else row
  }

  method EmbedMissing(embed: EntityRow -> seq<real>, rows: seq<EntityRow>) returns (entities: seq<EntityRow>)
    ensures |entities| == |rows| && forall i :: 0 <= i < |rows| ==> entities[i] == Embedded(embed, rows[i])
  {
    entities := rows;
    for i := 0 to |rows|
      invariant |entities| == |rows|
      invariant forall j :: 0 <= j < |rows| ==> entities[j] == if j < i then Embedded(embed, rows[j]) else rows[j]
    {
      if rows[i].embedding == [] {
        entities := entities[i := rows[i].(embedding := embed(rows[i]))];
      }
    }
  }

  /** Everything an edge names is part of the graph. */
  ghost predicate Grounded(g: MemoryGraph) {
    forall r :: r in g.relations ==>
                  && (exists e :: e in g.entities && e.id == r.sourceId)
                  && (exists e :: e in g.entities && e.id == r.targetId)
                  && (exists t :: t in g.statements && t.id == r.statementId)
  }

  lemma {:induction false} PairsAreListed(statements: seq<StatementRow>, byIdx: map<int, EntityRow>, triplets: seq<Triplet>)
    ensures forall p :: p in MentionPairs(statements, byIdx, triplets) ==>
                          (exists t :: t in statements && t.id == p.0) && exists i :: i in byIdx && byIdx[i].id == p.1
  {
    if triplets != [] {
      PairsAreListed(statements, byIdx, triplets[..|triplets| - 1]);
      QuotedIsListed(statements, triplets[|triplets| - 1].evidence);
    }
  }

  lemma {:induction false} RelationsFollowMentions(tx: Texts, userId: string, statements: seq<StatementRow>, byIdx: map<int, EntityRow>,
                                                   triplets: seq<Triplet>)
    ensures forall r :: r in RelationsOf(tx, userId, statements, byIdx, triplets) ==>
                          && (r.statementId, r.sourceId) in MentionPairs(statements, byIdx, triplets)
                          && (r.statementId, r.targetId) in MentionPairs(statements, byIdx, triplets)
  {
    if triplets != [] {
      RelationsFollowMentions(tx, userId, statements, byIdx, triplets[..|triplets| - 1]);
    }
  }

  lemma PairsGround(g: MemoryGraph, pairs: set<(Id, Id)>)
    requires forall t :: t in g.statements ==> exists c :: c in g.chunks && c.id == t.chunkId
    requires OneMentionPerPair(g.mentions, pairs)
    requires forall p :: p in pairs ==> (exists t :: t in g.statements && t.id == p.0) && exists e :: e in g.entities && e.id == p.1
    requires forall r :: r in g.relations ==> (r.statementId, r.sourceId) in pairs && (r.statementId, r.targetId) in pairs
    requires (g.entities != [] ==> g.statements != []) && (g.statements != [] ==> g.chunks != [])
    ensures SelfContained(g) && Grounded(g)
  {
    if g.relations != [] {
      assert g.relations[0] in g.relations;
    }
    if g.mentions != [] {
      assert g.mentions[0] in g.mentions;
    }
    forall r | r in g.relations
      ensures (exists e :: e in g.entities && e.id == r.sourceId) && (exists e :: e in g.entities && e.id == r.targetId)
      ensures exists t :: t in g.statements && t.id == r.statementId
    {
      assert (r.statementId, r.sourceId) in pairs && (r.statementId, r.targetId) in pairs;
    }
  }

  /** Why no list of a built graph is lost: relations force mentions, mentions force entities,
      entities force statements, and statements force chunks. */
  lemma BuiltIsSelfContained(tx: Texts, userId: string, g: MemoryGraph, order: seq<int>, byIdx: map<int, EntityRow>, triplets: seq<Triplet>)
    requires Orders(order, byIdx)
    requires g.statements == [] ==> order == []
    requires Numbered(tx, userId, g.chunks, g.statements)
    requires g.entities != [] ==> order != []
    requires forall r :: r in RowsIn(order, byIdx) ==> exists e :: e in g.entities && e.id == r.id
    requires g.relations == RelationsOf(tx, userId, g.statements, byIdx, triplets)
    requires OneMentionPerPair(g.mentions, MentionPairs(g.statements, byIdx, triplets))
    ensures SelfContained(g) && Grounded(g)
  {
    var pairs := MentionPairs(g.statements, byIdx, triplets);
    PairsAreListed(g.statements, byIdx, triplets);
    RelationsFollowMentions(tx, userId, g.statements, byIdx, triplets);
    if g.statements != [] {
      var c :| c in g.chunks && c.id == g.statements[0].chunkId;
    }
    forall p | p in pairs
      ensures exists e :: e in g.entities && e.id == p.1
    {
      var i :| i in byIdx && byIdx[i].id == p.1;
      assert byIdx[i] in RowsIn(order, byIdx);
    }
    hide MentionPairs, RelationsOf, RowsIn;
    PairsGround(g, pairs);
  }

  /** Makes the mentions and relations of the triplets that can be linked. */
  method LinkTriplets(tx: Texts, userId: string, statements: seq<StatementRow>, byIdx: map<int, EntityRow>, triplets: seq<Triplet>)
    returns (relations: seq<RelationRow>, mentions: seq<MentionRow>)
    ensures relations == RelationsOf(tx, userId, statements, byIdx, triplets)
    ensures OneMentionPerPair(mentions, MentionPairs(statements, byIdx, triplets))
  {
    relations, mentions := [], [];
    var byKey: set<(Id, Id)> := {};
    for k := 0 to |triplets|
      invariant relations == RelationsOf(tx, userId, statements, byIdx, triplets[..k])
      invariant byKey == MentionPairs(statements, byIdx, triplets[..k])
      invariant OneMentionPerPair(mentions, byKey)
    {
      hide OneMentionPerPair, RelationOf, StatementFor;
      assert triplets[..k + 1][..k] == triplets[..k];
      var t := triplets[k];
      if t.subjectId in byIdx && t.objectId in byIdx {
        var statement := StatementFor(statements, t.evidence);
        if statement.Some? {
          mentions, byKey := AddMention(tx, userId, statement.value.id, byIdx[t.subjectId].id, mentions, byKey);
          mentions, byKey := AddMention(tx, userId, statement.value.id, byIdx[t.objectId].id, mentions, byKey);
          relations := relations + [RelationOf(tx, userId, statements, byIdx, t)];
        }
      }
    }
    assert triplets[..|triplets|] == triplets;
  }

  /** Every entity is one of the rows with its embedding. */
  ghost predicate MadeOf(embed: EntityRow -> seq<real>, rows: seq<EntityRow>, entities: seq<EntityRow>) {
    forall e :: e in entities ==> exists r :: r in rows && e == Embedded(embed, r)
  }

  ghost predicate EachIdKept(rows: seq<EntityRow>, entities: seq<EntityRow>) {
    forall r :: r in rows ==> exists e :: e in entities && e.id == r.id
  }

  /** One row per id, each with its embedding. */
  method MakeEntities(rows: seq<EntityRow>, embed: EntityRow -> seq<real>) returns (entities: seq<EntityRow>)
    ensures DistinctEntityIds(entities)
    ensures MadeOf(embed, rows, entities) && EachIdKept(rows, entities)
    ensures rows == [] ==> entities == []
  {
    var unique := UniqueById(rows);
    entities := EmbedMissing(embed, unique);
    hide Embedded;
    assert unique != [] ==> unique[0] in rows;
    forall r | r in rows
      ensures exists e :: e in entities && e.id == r.id
    {
      var e :| e in unique && e.id == r.id;
      var i :| 0 <= i < |unique| && unique[i] == e;
      assert entities[i] in entities;
    }
  }

  /** Assembles the graph from the statements, the resolved entities and the triplets. Nothing was
      extracted where there are no statements. */
  method BuildGraph(tx: Texts, userId: string, dialogue: Dialogue, chunks: seq<ChunkRow>, statements: seq<StatementRow>,
                    order: seq<int>, byIdx: map<int, EntityRow>, triplets: seq<Triplet>, embed: EntityRow -> seq<real>)
    returns (g: MemoryGraph)
    requires Orders(order, byIdx)
    requires statements == [] ==> order == []
    requires Numbered(tx, userId, chunks, statements)
    ensures g.dialogue == dialogue && g.chunks == chunks && g.statements == statements
    ensures DistinctEntityIds(g.entities)
    ensures MadeOf(embed, RowsIn(order, byIdx), g.entities) && EachIdKept(RowsIn(order, byIdx), g.entities)
    ensures g.relations == RelationsOf(tx, userId, statements, byIdx, triplets)
    ensures OneMentionPerPair(g.mentions, MentionPairs(statements, byIdx, triplets))
    ensures SelfContained(g) && Grounded(g)
  {
    var relations, mentions := LinkTriplets(tx, userId, statements, byIdx, triplets);
    hide MentionPairs, RelationsOf, OneMentionPerPair, Numbered, SelfContained, Grounded;
    var entities := MakeEntities(RowsIn(order, byIdx), embed);
    g := MemoryGraph(dialogue, chunks, statements, entities, mentions, relations);
    BuiltIsSelfContained(tx, userId, g, order, byIdx, triplets);
  }

  /** Every node and edge of the graph is in the store. */
  ghost predicate Stored(g: MemoryGraph, s: Store) {
    && g.dialogue.id in s.dialogues
    && (forall c :: c in g.chunks ==> c.id in s.chunks && (g.dialogue.id, c.id) in s.hasChunk)
    && (forall t :: t in g.statements ==> t.id in s.statements && (t.chunkId, t.id) in s.hasStatement)
    && (forall e :: e in g.entities ==> e.id in s.entities)
    && (forall m :: m in g.mentions ==> m in s.mentions)
    && (forall r :: r in g.relations ==> KeyOf(r) in s.relations)
  }

  lemma EverythingIsStored(s: Store, now: Time, g: MemoryGraph)
    requires SelfContained(g) && Grounded(g)
    ensures Stored(g, PlainWrite(s, now, g))
  {
    SelfContainedMatches(s, now, g);
    var s1 := WriteChunks(WriteDialogue(s, g.dialogue), g.dialogue.id, g.chunks);
    var s2 := WriteStatements(s1, g.statements);
    var s3 := WriteEntities(s2, now, g.entities);
    var s4 := WriteMentions(s3, g.mentions);
    FoldKeys((r: ChunkRow) => r.id, PutChunk, s.chunks, g.chunks);
    FoldKeys((r: StatementRow) => r.id, PutStatement, s1.statements, g.statements);
    FoldKeys((r: EntityRow) => r.id, EntityPut(now), s2.entities, g.entities);
    assert MatchedStatements(s1, g.statements) == g.statements && MatchedMentions(s3, g.mentions) == g.mentions;
    assert MatchedRelations(s4, g.relations) == g.relations by {
      FilterAll((r: RelationRow) => r.sourceId in s4.entities && r.targetId in s4.entities && r.statementId in s4.statements, g.relations);
    }
    FoldKeys(KeyOf, PutRelation, s4.relations, g.relations);
  }
}
