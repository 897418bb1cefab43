// The chained query as nested loops over rows.

module GraphRepository {
  import opened Options
  import opened Upserts
  import opened MemoryValues
  import opened GraphRows
  import opened GraphWrite

  lemma FilterStep<T>(keep: T -> bool, rows: seq<T>, k: nat)
    requires k < |rows|
    ensures Filter(keep, rows[..k + 1]) == Filter(keep, rows[..k]) + if keep(rows[k]) then [rows[k]] else []
  {
    assert rows[..k + 1][..k] == rows[..k];
  }

  lemma FoldSnoc<K, R, N>(key: R -> K, upd: (Option<N>, R) -> N, m: map<K, N>, rows: seq<R>, row: R)
    ensures Fold(key, upd, m, rows + [row]) ==
            Fold(key, upd, m, rows)[key(row) := upd(Lookup(Fold(key, upd, m, rows), key(row)), row)]
  {
    assert (rows + [row])[..|rows|] == rows;
  }

  lemma MatchedStatementsStep(base: Store, rows: seq<StatementRow>, k: nat)
    requires k < |rows|
    ensures MatchedStatements(base, rows[..k + 1]) ==
            MatchedStatements(base, rows[..k]) + if rows[k].chunkId in base.chunks then [rows[k]] else []
  {
    FilterStep((r: StatementRow) => r.chunkId in base.chunks, rows, k);
  }

  lemma EdgesSnoc(rows: seq<StatementRow>, r: StatementRow)
    ensures StatementEdges(rows + [r]) == StatementEdges(rows) + {(r.chunkId, r.id)}
  {
  }

  lemma StatementStep(base: Store, rows: seq<StatementRow>, k: nat)
    requires k < |rows|
    ensures var r, before := rows[k], WriteStatements(base, rows[..k]);
            && before.chunks == base.chunks
            && WriteStatements(base, rows[..k + 1]) ==
               (if r.chunkId in base.chunks
                then before.(statements := before.statements[r.id := PutStatement(Lookup(before.statements, r.id), r)],
                             hasStatement := before.hasStatement + {(r.chunkId, r.id)})
                else before)
            && |MatchedStatements(base, rows[..k + 1])| ==
               |MatchedStatements(base, rows[..k])| + if r.chunkId in base.chunks then 1 else 0
  {
    var matched, r := MatchedStatements(base, rows[..k]), rows[k];
    MatchedStatementsStep(base, rows, k);
    FoldSnoc((r: StatementRow) => r.id, PutStatement, base.statements, matched, r);
    hide MatchedStatements, Fold, PutStatement;
    EdgesSnoc(matched, r);
    hide StatementEdges;
    assert matched + [] == matched;
  }

  lemma MentionStep(base: Store, rows: seq<MentionRow>, k: nat)
    requires k < |rows|
    ensures var r, before := rows[k], WriteMentions(base, rows[..k]);
            && WriteMentions(base, rows[..k + 1]) ==
               (if r.statementId in base.statements && r.entityId in base.entities
                then before.(mentions := before.mentions + {r}) else before)
            && |MatchedMentions(base, rows[..k + 1])| ==
               |MatchedMentions(base, rows[..k])| + if r.statementId in base.statements && r.entityId in base.entities then 1 else 0
  {
    FilterStep((r: MentionRow) => r.statementId in base.statements && r.entityId in base.entities, rows, k);
  }

  lemma RelationStep(base: Store, rows: seq<RelationRow>, k: nat)
    requires k < |rows|
    ensures var r, before := rows[k], WriteRelations(base, rows[..k]);
            WriteRelations(base, rows[..k + 1]) ==
            if r.sourceId in base.entities && r.targetId in base.entities && r.statementId in base.statements
            then before.(relations := before.relations[KeyOf(r) := PutRelation(Lookup(before.relations, KeyOf(r)), r)])
            else before
  {
    FilterStep((r: RelationRow) => r.sourceId in base.entities && r.targetId in base.entities && r.statementId in base.statements, rows, k);
    if rows[k].sourceId in base.entities && rows[k].targetId in base.entities && rows[k].statementId in base.statements {
      FoldSnoc(KeyOf, PutRelation, base.relations, MatchedRelations(base, rows[..k]), rows[k]);
      assert MatchedRelations(base, rows[..k + 1]) == MatchedRelations(base, rows[..k]) + [rows[k]];
    } else {
      assert MatchedRelations(base, rows[..k + 1]) == MatchedRelations(base, rows[..k]);
    }
  }

  lemma {:induction false} SameChunksMatch(s: Store, t: Store, rows: seq<StatementRow>)
    requires s.chunks.Keys == t.chunks.Keys
    ensures MatchedStatements(s, rows) == MatchedStatements(t, rows)
  {
    if rows != [] {
      SameChunksMatch(s, t, rows[..|rows| - 1]);
    }
  }

  lemma {:induction false} SameNodesMatch(s: Store, t: Store, rows: seq<MentionRow>)
    requires s.statements.Keys == t.statements.Keys && s.entities.Keys == t.entities.Keys
    ensures MatchedMentions(s, rows) == MatchedMentions(t, rows)
  {
    if rows != [] {
      SameNodesMatch(s, t, rows[..|rows| - 1]);
    }
  }

  class Repository {
    var store: Store

    constructor (store: Store)
      ensures this.store == store
    {
      this.store := store;
    }

    method UnwindChunks(incoming: nat, d: Id, rows: seq<ChunkRow>) returns (outgoing: nat)
      modifies this
      ensures store == Repeat((x: Store) => WriteChunks(x, d, rows), incoming, old(store))
      ensures outgoing == RowsAfter(incoming, |rows|)
    {
      outgoing := 0;
      for n := 0 to incoming
        invariant store == Repeat((x: Store) => WriteChunks(x, d, rows), n, old(store))
        invariant outgoing == RowsAfter(n, |rows|)
      {
        ghost var base := store;
        for k := 0 to |rows|
          invariant store == WriteChunks(base, d, rows[..k])
        {
          var r := rows[k];
          assert rows[..k + 1][..k] == rows[..k] && rows[..k + 1] == rows[..k] + [r];
          store := store.(chunks := store.chunks[r.id := PutChunk(Lookup(store.chunks, r.id), r)], hasChunk := store.hasChunk + {(d, r.id)});
        }
        assert rows[..|rows|] == rows;
        outgoing := outgoing + |rows|;
      }
    }

    /** One pass over the statements. */
    method PassStatements(rows: seq<StatementRow>) returns (matched: nat)
      modifies this
      ensures store == WriteStatements(old(store), rows) && matched == |MatchedStatements(old(store), rows)|
    {
      ghost var base := store;
      matched := 0;
      for k := 0 to |rows|
        invariant store == WriteStatements(base, rows[..k])
        invariant matched == |MatchedStatements(base, rows[..k])|
      {
        var r := rows[k];
        StatementStep(base, rows, k);
        hide WriteStatements, MatchedStatements, PutStatement;
        if r.chunkId in store.chunks {
          store := store.(statements := store.statements[r.id := PutStatement(Lookup(store.statements, r.id), r)],
                          hasStatement := store.hasStatement + {(r.chunkId, r.id)});
          matched := matched + 1;
        }
      }
      assert rows[..|rows|] == rows;
    }

    method UnwindStatements(incoming: nat, rows: seq<StatementRow>) returns (outgoing: nat)
      modifies this
      ensures store == Repeat((x: Store) => WriteStatements(x, rows), incoming, old(store))
      ensures outgoing == RowsAfter(incoming, |MatchedStatements(old(store), rows)|)
    {
      outgoing := 0;
      for n := 0 to incoming
        invariant store == Repeat((x: Store) => WriteStatements(x, rows), n, old(store))
        invariant store.chunks == old(store).chunks
        invariant outgoing == RowsAfter(n, |MatchedStatements(old(store), rows)|)
      {
        SameChunksMatch(store, old(store), rows);
        hide MatchedStatements, StatementEdges, Fold;
        var matched := PassStatements(rows);
        outgoing := outgoing + matched;
      }
    }

    method UnwindEntities(incoming: nat, now: Time, rows: seq<EntityRow>) returns (outgoing: nat)
      modifies this
      ensures store == Repeat((x: Store) => WriteEntities(x, now, rows), incoming, old(store))
      ensures outgoing == RowsAfter(incoming, |rows|)
    {
      outgoing := 0;
      for n := 0 to incoming
        invariant store == Repeat((x: Store) => WriteEntities(x, now, rows), n, old(store))
        invariant outgoing == RowsAfter(n, |rows|)
      {
        ghost var base := store;
        for k := 0 to |rows|
          invariant store == WriteEntities(base, now, rows[..k])
        {
          var r := rows[k];
          assert rows[..k + 1][..k] == rows[..k];
          store := store.(entities := store.entities[r.id := PutEntity(now, Lookup(store.entities, r.id), r)]);
        }
        assert rows[..|rows|] == rows;
        outgoing := outgoing + |rows|;
      }
    }

    method UnwindMentions(incoming: nat, rows: seq<MentionRow>) returns (outgoing: nat)
      modifies this
      ensures store == Repeat((x: Store) => WriteMentions(x, rows), incoming, old(store))
      ensures outgoing == RowsAfter(incoming, |MatchedMentions(old(store), rows)|)
    {
      outgoing := 0;
      for n := 0 to incoming
        invariant store == Repeat((x: Store) => WriteMentions(x, rows), n, old(store))
        invariant store.statements == old(store).statements && store.entities == old(store).entities
        invariant outgoing == RowsAfter(n, |MatchedMentions(old(store), rows)|)
      {
        ghost var base := store;
        var matched := 0;
        for k := 0 to |rows|
          invariant store == WriteMentions(base, rows[..k])
          invariant matched == |MatchedMentions(base, rows[..k])|
        {
          var r := rows[k];
          MentionStep(base, rows, k);
          hide WriteMentions, MatchedMentions, RowsAfter, Repeat;
          if r.statementId in store.statements && r.entityId in store.entities {
            store := store.(mentions := store.mentions + {r});
            matched := matched + 1;
          }
        }
        assert rows[..|rows|] == rows;
        SameNodesMatch(base, old(store), rows);
        outgoing := outgoing + matched;
      }
    }

    method UnwindRelations(incoming: nat, rows: seq<RelationRow>)
      modifies this
      ensures store == Repeat((x: Store) => WriteRelations(x, rows), incoming, old(store))
    {
      for n := 0 to incoming
        invariant store == Repeat((x: Store) => WriteRelations(x, rows), n, old(store))
      {
        ghost var base := store;
        for k := 0 to |rows|
          invariant store == WriteRelations(base, rows[..k])
        {
          var r := rows[k];
          RelationStep(base, rows, k);
          if r.sourceId in store.entities && r.targetId in store.entities && r.statementId in store.statements {
            store := store.(relations := store.relations[KeyOf(r) := PutRelation(Lookup(store.relations, KeyOf(r)), r)]);
          }
        }
        assert rows[..|rows|] == rows;
      }
    }

    /** The whole query. */
    method MergeGraph(now: Time, g: MemoryGraph)
      modifies this
      ensures store == ChainedWrite(old(store), now, g)
    {
      hide Repeat, WriteChunks, WriteStatements, WriteEntities, WriteMentions, WriteRelations, MatchedStatements, MatchedMentions;
      store := WriteDialogue(store, g.dialogue);
      var rows := UnwindChunks(1, g.dialogue.id, g.chunks);
      rows := UnwindStatements(rows, g.statements);
      rows := UnwindEntities(rows, now, g.entities);
      rows := UnwindMentions(rows, g.mentions);
      UnwindRelations(rows, g.relations);
    }
  }
}
