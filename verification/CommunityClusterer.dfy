// The community part of the graph store, and the clusterer that writes to it.

module CommunityStore {
  import opened MemoryValues
  import opened Options
  import opened Vectors

  function MembersIn(communityOf: map<Id, Option<Id>>, c: Id): set<Id> {
    set e | e in communityOf && communityOf[e] == Some(c)
  }

  function Assigned(communityOf: map<Id, Option<Id>>, communities: set<Id>, e: Id, c: Id): map<Id, Option<Id>> {
    if e in communityOf && c in communities then communityOf[e := Some(c)] else communityOf
  }

  ghost predicate Lists(rows: seq<Id>, members: set<Id>) {
    && (forall e :: e in rows <==> e in members)
    && |rows| == |members|
  }

  /** Entities, communities and the edges between them, for one user. */
  class Store {
    /** Every entity, with its `community_id` property. */
    var communityOf: map<Id, Option<Id>>
    /** The IN_COMMUNITY edges. */
    var membership: set<(Id, Id)>
    /** Every community node, with its stored `member_count`. */
    var memberCount: map<Id, nat>
    const embeddings: map<Id, Vector>

    constructor (communityOf: map<Id, Option<Id>>, membership: set<(Id, Id)>, memberCount: map<Id, nat>, embeddings: map<Id, Vector>)
      ensures this.communityOf == communityOf && this.membership == membership
      ensures this.memberCount == memberCount && this.embeddings == embeddings
    {
      this.communityOf, this.membership, this.memberCount := communityOf, membership, memberCount;
      this.embeddings := embeddings;
    }

    function EmbeddingOf(e: Id): Vector {
      if e in embeddings then embeddings[e] else []
    }

    ghost function Members(c: Id): set<Id>
      reads this
    {
      MembersIn(communityOf, c)
    }

    /** The stored member count of `c` is the true one. */
    ghost predicate CountTrue(c: Id)
      reads this
    {
      c in memberCount && memberCount[c] == |Members(c)|
    }

    /** The edges say the same as the `community_id` properties. */
    ghost predicate Mirrored()
      reads this
    {
      forall e, c :: (e, c) in membership <==> e in communityOf && communityOf[e] == Some(c)
    }

    method UpsertCommunity(c: Id)
      modifies this
      ensures memberCount == if c in old(memberCount) then old(memberCount) else old(memberCount)[c := 0]
      ensures communityOf == old(communityOf) && membership == old(membership)
    {
      if c !in memberCount {
        memberCount := memberCount[c := 0];
      }
    }

    /** Nothing happens unless both nodes exist. */
    method AssignEntityCommunity(e: Id, c: Id)
      modifies this
      ensures memberCount == old(memberCount)
      ensures communityOf == Assigned(old(communityOf), old(memberCount).Keys, e, c)
      ensures old(Mirrored()) ==> Mirrored()
    {
      if e in communityOf && c in memberCount {
        membership := (set edge | edge in membership && edge.0 != e) + {(e, c)};
        communityOf := communityOf[e := Some(c)];
      }
    }

    method RefreshCommunityMemberCount(c: Id)
      modifies this
      ensures communityOf == old(communityOf) && membership == old(membership)
      ensures memberCount == if c in old(memberCount) then old(memberCount)[c := |Members(c)|] else old(memberCount)
    {
      if c in memberCount {
        memberCount := memberCount[c := |MembersIn(communityOf, c)|];
      }
    }

    /** The members of `c`, each once, in whatever order the store returns them. */
    method CommunityMembers(c: Id) returns (rows: seq<Id>)
      ensures Lists(rows, Members(c))
    {
      rows := [];
      var rest := MembersIn(communityOf, c);
      while rest != {}
        invariant rest <= Members(c)
        invariant Lists(rows, Members(c) - rest)
        decreases rest
      {
        var e :| e in rest;
        rest := rest - {e};
        assert |Members(c) - rest| == |(Members(c) - rest) - {e}| + 1;
        assert (Members(c) - rest) - {e} == Members(c) - (rest + {e});
        rows := rows + [e];
      }
    }

    /** Deletes community nodes whose stored count is 0, with their edges. */
    method PruneEmptyCommunities()
      modifies this
      ensures communityOf == old(communityOf)
      ensures memberCount == map c | c in old(memberCount) && old(memberCount)[c] != 0 :: old(memberCount)[c]
      ensures membership == set edge | edge in old(membership) && (edge.1 in old(memberCount) ==> old(memberCount)[edge.1] != 0)
    {
      membership := set edge | edge in membership && (edge.1 in memberCount ==> memberCount[edge.1] != 0);
      memberCount := map c | c in memberCount && memberCount[c] != 0 :: memberCount[c];
    }
  }
}

module CommunityClusterer {
  import opened MemoryValues
  import opened Options
  import opened Vectors
  import opened CommunityForest
  import opened OrderedMerging
  import LabelPropagation
  import CommunityStore

  type Store = CommunityStore.Store

  // ---- where entities end up ----

  /** The community of an entity after the recorded merges: its old one, moved at most one link. */
  function Moved(m: map<Id, Id>, community: Option<Id>): Option<Id> {
    if community.Some? then Some(Hop(m, community.value)) else None
  }

  function AllMoved(m: map<Id, Id>, before: map<Id, Option<Id>>): map<Id, Option<Id>> {
    map e | e in before :: Moved(m, before[e])
  }

  /** Moving the first `n` of the listed members of `from` to `to`. */
  ghost predicate PartlyMoved(before: map<Id, Option<Id>>, after: map<Id, Option<Id>>, rows: seq<Id>, n: nat, to: Id)
    requires n <= |rows|
  {
    && after.Keys == before.Keys
    && forall e :: e in before ==> after[e] == if e in rows[..n] then Some(to) else before[e]
  }

  /** Reassigns every listed entity to `keep`. */
  method MoveMembers(store: Store, rows: seq<Id>, keep: Id)
    requires keep in store.memberCount
    requires forall e :: e in rows ==> e in store.communityOf
    modifies store
    ensures store.memberCount == old(store.memberCount)
    ensures PartlyMoved(old(store.communityOf), store.communityOf, rows, |rows|, keep)
    ensures old(store.Mirrored()) ==> store.Mirrored()
  {
    for n := 0 to |rows|
      invariant store.memberCount == old(store.memberCount)
      invariant PartlyMoved(old(store.communityOf), store.communityOf, rows, n, keep)
      invariant old(store.Mirrored()) ==> store.Mirrored()
    {
      assert rows[..n + 1] == rows[..n] + [rows[n]];
      store.AssignEntityCommunity(rows[n], keep);
    }
  }

  /** Only the members that the dissolved community had at the start are moved. */
  lemma MovingOneCommunity(before: map<Id, Option<Id>>, m: map<Id, Id>, link: Link, rows: seq<Id>, after: map<Id, Option<Id>>)
    requires link.dissolved !in m
    requires forall e :: e in rows <==> e in before && before[e] == Some(link.dissolved)
    requires PartlyMoved(AllMoved(m, before), after, rows, |rows|, link.keep)
    ensures after == AllMoved(m[link.dissolved := link.keep], before)
  {
  }

  /** A merge changes the members of the two communities it joins and of no other. */
  lemma OthersKeepMembers(before: map<Id, Option<Id>>, m: map<Id, Id>, link: Link, c: Id)
    requires link.dissolved !in m
    requires c != link.dissolved && c != link.keep
    ensures CommunityStore.MembersIn(AllMoved(m[link.dissolved := link.keep], before), c)
         == CommunityStore.MembersIn(AllMoved(m, before), c)
  {
  }

  /** Every entity ends in the root of its community exactly when no community that took in
      entities was dissolved afterwards. */
  lemma EntitiesReachRootsIff(before: map<Id, Option<Id>>, h: History)
    requires WellFormed(h)
    ensures (forall e :: e in before && before[e].Some? ==>
               AllMoved(MergedInto(h), before)[e] == Some(Root(h, before[e].value)))
       <==> (forall e :: e in before && before[e].Some? && before[e].value in MergedInto(h) ==>
               MergedInto(h)[before[e].value] !in MergedInto(h))
  {
    var m := MergedInto(h);
    forall e | e in before && before[e].Some?
      ensures AllMoved(m, before)[e] == Some(Root(h, before[e].value))
              <==> (before[e].value in m ==> m[before[e].value] !in m)
    {
      var c := before[e].value;
      RootHasNoParent(h, c);
      if c in m {
        ParentIsCloser(h, c);
        RootHasNoParent(h, m[c]);
      }
    }
  }

  /** Some enumeration of a set, each element once. */
  ghost function KeyList(keys: set<Id>): (list: seq<Id>)
    ensures Distinct(list)
    ensures forall c :: c in list <==> c in keys
  {
    if keys == {} then []
    else
      var c :| c in keys;
      [c] + KeyList(keys - {c})
  }

  // ---- the merge loop ----

  /** What the merge reads once at its start: the members of each community, and their means. */
  ghost predicate Snapshot(store: Store, before: map<Id, Option<Id>>, ids: seq<Id>, members: map<Id, seq<Id>>) {
    && (forall c :: c in members <==> c in ids)
    && forall c :: c in members ==> CommunityStore.Lists(members[c], CommunityStore.MembersIn(before, c))
  }

  function EmbeddingsOf(store: Store, rows: seq<Id>): (vectors: seq<Vector>)
    ensures |vectors| == |rows|
    ensures forall i :: 0 <= i < |rows| ==> vectors[i] == if rows[i] in store.embeddings then store.embeddings[rows[i]] else []
  {
    seq(|rows|, i requires 0 <= i < |rows| => store.EmbeddingOf(rows[i]))
  }

  /** All non-empty embeddings in the store have one dimension. */
  ghost predicate OneDimension(store: Store, dims: nat) {
    forall e :: store.EmbeddingOf(e) == [] || |store.EmbeddingOf(e)| == dims
  }

  lemma RowsHaveOneDimension(store: Store, dims: nat, rows: seq<Id>)
    requires OneDimension(store, dims)
    ensures SameDimension(EmbeddingsOf(store, rows))
  {
    var vectors := EmbeddingsOf(store, rows);
    forall v | v in vectors
      ensures v == [] || |v| == dims
    {
      var i :| 0 <= i < |vectors| && vectors[i] == v;
      assert v == store.EmbeddingOf(rows[i]);
    }
    var valid := ValidVectors(vectors);
    assert valid != [] ==> valid[0] in vectors;
  }

  ghost predicate MeansOf(store: Store, members: map<Id, seq<Id>>, averages: map<Id, Vector>) {
    && averages.Keys == members.Keys
    && forall c :: c in members ==>
         && SameDimension(EmbeddingsOf(store, members[c]))
         && averages[c] == AverageVector(EmbeddingsOf(store, members[c]))
  }

  ghost function SizesOf(members: map<Id, seq<Id>>): map<Id, nat> {
    map c | c in members :: |members[c]|
  }

  lemma NothingRead(store: Store)
    ensures Snapshot(store, store.communityOf, [], map[]) && MeansOf(store, map[], map[])
  {
  }

  lemma OneMoreRead(store: Store, ids: seq<Id>, c: Id, rows: seq<Id>, members: map<Id, seq<Id>>, averages: map<Id, Vector>)
    requires Snapshot(store, store.communityOf, ids, members) && MeansOf(store, members, averages)
    requires CommunityStore.Lists(rows, CommunityStore.MembersIn(store.communityOf, c)) && SameDimension(EmbeddingsOf(store, rows))
    ensures Snapshot(store, store.communityOf, ids + [c], members[c := rows])
    ensures MeansOf(store, members[c := rows], averages[c := AverageVector(EmbeddingsOf(store, rows))])
  {
    hide CommunityStore.Lists, SameDimension, AverageVector, EmbeddingsOf;
  }

  method ReadMembers(store: Store, ids: seq<Id>, ghost dims: nat) returns (members: map<Id, seq<Id>>, averages: map<Id, Vector>)
    requires OneDimension(store, dims)
    ensures Snapshot(store, store.communityOf, ids, members)
    ensures MeansOf(store, members, averages)
  {
    NothingRead(store);
    hide Snapshot, MeansOf, OneDimension, SameDimension, AverageVector, EmbeddingsOf, CommunityStore.Lists;
    members, averages := map[], map[];
    for i := 0 to |ids|
      invariant Snapshot(store, store.communityOf, ids[..i], members)
      invariant MeansOf(store, members, averages)
    {
      var rows := store.CommunityMembers(ids[i]);
      RowsHaveOneDimension(store, dims, rows);
      OneMoreRead(store, ids[..i], ids[i], rows, members, averages);
      assert ids[..i + 1] == ids[..i] + [ids[i]];
      members := members[ids[i] := rows];
      averages := averages[ids[i] := AverageVector(EmbeddingsOf(store, rows))];
    }
    assert ids[..|ids|] == ids;
  }

  /** The parent map as the clusterer keeps it, and the search for a root. */
  method FindRoot(mergedInto: map<Id, Id>, c: Id, ghost h: History) returns (root: Id)
    requires WellFormed(h) && mergedInto == MergedInto(h)
    ensures root == Root(h, c)
  {
    root := c;
    while root in mergedInto
      invariant Root(h, root) == Root(h, c)
      decreases Links(h, root)
    {
      ParentIsCloser(h, root);
      root := mergedInto[root];
    }
    RootHasNoParent(h, root);
  }

  /** The live state of a merge agrees with the model of it. */
  ghost predicate InStep(store: Store, before: map<Id, Option<Id>>, ids: seq<Id>, st: MergeState, mergedInto: map<Id, Id>, sizes: map<Id, nat>)
    reads store
  {
    && mergedInto == MergedInto(st.history)
    && sizes == st.sizes
    && store.communityOf == AllMoved(mergedInto, before)
    && forall c :: c in ids ==> store.CountTrue(c)
  }

  /** Community nodes neither come nor go, and only those listed change their count. */
  ghost predicate CountsElsewhereKept(before: map<Id, nat>, after: map<Id, nat>, ids: seq<Id>) {
    && after.Keys == before.Keys
    && forall c :: c in before && c !in ids ==> after[c] == before[c]
  }

  lemma KeptSoFar(counts: map<Id, nat>, ids: seq<Id>)
    ensures CountsElsewhereKept(counts, counts, ids)
  {
  }

  lemma StillKept(before: map<Id, nat>, between: map<Id, nat>, after: map<Id, nat>, ids: seq<Id>)
    requires CountsElsewhereKept(before, between, ids) && CountsElsewhereKept(between, after, ids)
    ensures CountsElsewhereKept(before, after, ids)
  {
  }

  /** True counts stay true if those of the two communities with new members are refreshed. */
  lemma CountsRefreshed(was: map<Id, Option<Id>>, now: map<Id, Option<Id>>, counts: map<Id, nat>, counts': map<Id, nat>,
                        keep: Id, dissolve: Id, ids: seq<Id>)
    requires forall c :: c in ids ==> c in counts && counts[c] == |CommunityStore.MembersIn(was, c)|
    requires forall c :: c != keep && c != dissolve ==> CommunityStore.MembersIn(now, c) == CommunityStore.MembersIn(was, c)
    requires keep in ids && dissolve in ids
    requires counts' == counts[keep := |CommunityStore.MembersIn(now, keep)|][dissolve := |CommunityStore.MembersIn(now, dissolve)|]
    ensures forall c :: c in ids ==> c in counts' && counts'[c] == |CommunityStore.MembersIn(now, c)|
    ensures CountsElsewhereKept(counts, counts', ids)
  {
    hide CommunityStore.MembersIn;
  }

  /** Merges the community `dissolve` into `keep`, both of them roots. */
  method MergeRoots(store: Store, ghost before: map<Id, Option<Id>>, ghost ids: seq<Id>, rows: seq<Id>,
                    mergedInto: map<Id, Id>, sizes: map<Id, nat>, keep: Id, dissolve: Id, ghost st: MergeState)
    returns (mergedInto': map<Id, Id>, sizes': map<Id, nat>)
    requires InStep(store, before, ids, st, mergedInto, sizes)
    requires CommunityStore.Lists(rows, CommunityStore.MembersIn(before, dissolve))
    requires dissolve != keep && dissolve !in mergedInto && keep in ids && dissolve in ids
    modifies store
    ensures InStep(store, before, ids, JoinTrees(st, Link(dissolve, keep)), mergedInto', sizes')
    ensures CountsElsewhereKept(old(store.memberCount), store.memberCount, ids)
    ensures old(store.Mirrored()) ==> store.Mirrored()
  {
    ghost var link, was, counts := Link(dissolve, keep), store.communityOf, store.memberCount;
    MergedIntoSnoc(st.history, link);
    hide MergedInto;
    mergedInto' := mergedInto[dissolve := keep];
    MoveMembers(store, rows, keep);
    MovingOneCommunity(before, mergedInto, link, rows, store.communityOf);
    forall c | c != keep && c != dissolve
      ensures CommunityStore.MembersIn(store.communityOf, c) == CommunityStore.MembersIn(was, c)
    {
      OthersKeepMembers(before, mergedInto, link, c);
    }
    sizes' := sizes[keep := SizeOf(sizes, keep) + SizeOf(sizes, dissolve)];
    sizes' := sizes'[dissolve := 0];
    hide AllMoved, CommunityStore.Lists, CommunityStore.MembersIn, CountsElsewhereKept;
    store.RefreshCommunityMemberCount(keep);
    store.RefreshCommunityMemberCount(dissolve);
    CountsRefreshed(was, store.communityOf, counts, store.memberCount, keep, dissolve, ids);
  }

  lemma SnapshotLists(store: Store, before: map<Id, Option<Id>>, ids: seq<Id>, members: map<Id, seq<Id>>, c: Id)
    requires Snapshot(store, before, ids, members)
    ensures c in ids <==> c in members
    ensures c in members ==> CommunityStore.Lists(members[c], CommunityStore.MembersIn(before, c))
  {
  }

  /** Looks at one pair of communities and merges their roots if they are alike. */
  method MergeOnePair(store: Store, ghost before: map<Id, Option<Id>>, cr: Criteria, ghost keys: seq<Id>, ghost ids: seq<Id>,
                      members: map<Id, seq<Id>>, mergedInto: map<Id, Id>, sizes: map<Id, nat>,
                      left: Id, right: Id, ghost st: MergeState)
    returns (mergedInto': map<Id, Id>, sizes': map<Id, nat>)
    requires InStep(store, before, ids, st, mergedInto, sizes)
    requires Snapshot(store, before, ids, members)
    requires ForestInvariant(cr, keys, SizesOf(members), st)
    requires left in ids && right in ids
    modifies store
    ensures InStep(store, before, ids, MergePair(cr, st, left, right), mergedInto', sizes')
    ensures CountsElsewhereKept(old(store.memberCount), store.memberCount, ids)
    ensures old(store.Mirrored()) ==> store.Mirrored()
  {
    hide Snapshot, Similarity, CommunityStore.Store.Mirrored;
    mergedInto', sizes' := mergedInto, sizes;
    var leftRoot := FindRoot(mergedInto, left, st.history);
    var rightRoot := FindRoot(mergedInto, right, st.history);
    if leftRoot == rightRoot {
      return;
    }
    var similarity := Similarity(cr, leftRoot, rightRoot);
    if similarity <= cr.threshold {
      return;
    }
    SnapshotLists(store, before, ids, members, left);
    SnapshotLists(store, before, ids, members, right);
    SnapshotLists(store, before, ids, members, leftRoot);
    SnapshotLists(store, before, ids, members, rightRoot);
    OrientedRoots(cr, keys, SizesOf(members), st, left, right);
    var keep, dissolve := leftRoot, rightRoot;
    if SizeOf(sizes, leftRoot) < SizeOf(sizes, rightRoot) {
      keep, dissolve := rightRoot, leftRoot;
    }
    mergedInto', sizes' := MergeRoots(store, before, ids, members[dissolve], mergedInto, sizes, keep, dissolve, st);
  }

  lemma RowStep(cr: Criteria, st: MergeState, left: Id, ids: seq<Id>, j: nat)
    requires j < |ids|
    ensures MergeRow(cr, st, left, ids[j..]) == MergeRow(cr, MergePair(cr, st, left, ids[j]), left, ids[j + 1..])
  {
  }

  lemma RowEnds(cr: Criteria, st: MergeState, left: Id, ids: seq<Id>)
    ensures MergeRow(cr, st, left, ids[|ids|..]) == st
  {
  }

  /** Pairs one community with each later one. */
  method MergeOneRow(store: Store, ghost before: map<Id, Option<Id>>, cr: Criteria, ghost keys: seq<Id>, ids: seq<Id>,
                     members: map<Id, seq<Id>>, ghost initial: map<Id, nat>, mergedInto: map<Id, Id>, sizes: map<Id, nat>,
                     i: nat, ghost start: MergeState)
    returns (mergedInto': map<Id, Id>, sizes': map<Id, nat>)
    requires i < |ids|
    requires InStep(store, before, ids, start, mergedInto, sizes)
    requires Snapshot(store, before, ids, members)
    requires initial == SizesOf(members)
    requires ForestInvariant(cr, keys, initial, start)
    modifies store
    ensures InStep(store, before, ids, MergeRow(cr, start, ids[i], ids[i + 1..]), mergedInto', sizes')
    ensures CountsElsewhereKept(old(store.memberCount), store.memberCount, ids)
    ensures old(store.Mirrored()) ==> store.Mirrored()
  {
    assert forall c :: c in ids ==> c in initial;
    hide *;
    mergedInto', sizes' := mergedInto, sizes;
    ghost var st := start;
    KeptSoFar(store.memberCount, ids);
    for j := i + 1 to |ids|
      invariant InStep(store, before, ids, st, mergedInto', sizes')
      invariant ForestInvariant(cr, keys, initial, st)
      invariant MergeRow(cr, st, ids[i], ids[j..]) == MergeRow(cr, start, ids[i], ids[i + 1..])
      invariant CountsElsewhereKept(old(store.memberCount), store.memberCount, ids)
      invariant old(store.Mirrored()) ==> store.Mirrored()
    {
      ghost var counts := store.memberCount;
      RowStep(cr, st, ids[i], ids, j);
      PairKeepsInvariant(cr, keys, initial, st, ids[i], ids[j]);
      mergedInto', sizes' := MergeOnePair(store, before, cr, keys, ids, members, mergedInto', sizes', ids[i], ids[j], st);
      st := MergePair(cr, st, ids[i], ids[j]);
      StillKept(old(store.memberCount), counts, store.memberCount, ids);
    }
    RowEnds(cr, st, ids[i], ids);
  }

  /** The double loop over all pairs. */
  method MergeAllPairs(store: Store, ghost before: map<Id, Option<Id>>, cr: Criteria, ghost keys: seq<Id>, ids: seq<Id>,
                       members: map<Id, seq<Id>>, initial: map<Id, nat>)
    returns (mergedInto: map<Id, Id>, ghost h: History)
    requires store.communityOf == before
    requires forall c :: c in ids ==> store.CountTrue(c)
    requires Snapshot(store, before, ids, members)
    requires initial == SizesOf(members)
    requires ForestInvariant(cr, keys, initial, MergeState([], initial))
    modifies store
    ensures h == MergeAll(cr, MergeState([], initial), ids).history
    ensures WellFormed(h) && mergedInto == MergedInto(h)
    ensures forall d :: d in mergedInto ==> mergedInto[d] in ids
    ensures store.communityOf == AllMoved(mergedInto, before)
    ensures forall c :: c in ids ==> store.CountTrue(c)
    ensures CountsElsewhereKept(old(store.memberCount), store.memberCount, ids)
    ensures old(store.Mirrored()) ==> store.Mirrored()
  {
    mergedInto := map[];
    var sizes := initial;
    ghost var start := MergeState([], initial);
    ghost var st := start;
    for i := 0 to |ids|
      invariant InStep(store, before, ids, st, mergedInto, sizes)
      invariant ForestInvariant(cr, keys, initial, st)
      invariant MergeAll(cr, st, ids[i..]) == MergeAll(cr, start, ids)
      invariant CountsElsewhereKept(old(store.memberCount), store.memberCount, ids)
      invariant old(store.Mirrored()) ==> store.Mirrored()
    {
      assert ids[i..][0] == ids[i] && ids[i..][1..] == ids[i + 1..];
      RowKeepsInvariant(cr, keys, initial, st, ids[i], ids[i + 1..]);
      mergedInto, sizes := MergeOneRow(store, before, cr, keys, ids, members, initial, mergedInto, sizes, i, st);
      st := MergeRow(cr, st, ids[i], ids[i + 1..]);
    }
    h := st.history;
    forall d | d in mergedInto
      ensures mergedInto[d] in ids
    {
      KeeperIsListed(h, initial, d);
    }
  }

  /** Every entity in the root of its community. */
  ghost function AllAtRoots(h: History, before: map<Id, Option<Id>>): map<Id, Option<Id>> {
    map e | e in before :: if before[e].Some? then Some(Root(h, before[e].value)) else None
  }

  /** If the communities were listed by falling member counts, every entity ends in the root. */
  lemma SortedEndAtRoots(store: Store, before: map<Id, Option<Id>>, counts: map<Id, nat>, ids: seq<Id>, members: map<Id, seq<Id>>, cr: Criteria, h: History)
    requires Snapshot(store, before, ids, members)
    requires forall c :: c in ids ==> c in counts && counts[c] == |CommunityStore.MembersIn(before, c)|
    requires h == MergeAll(cr, MergeState([], SizesOf(members)), ids).history
    ensures LargestFirst(ids, counts) ==> AllMoved(MergedInto(h), before) == AllAtRoots(h, before)
  {
    hide CommunityStore.MembersIn, MergeAll;
    if LargestFirst(ids, counts) {
      forall i | 0 <= i < |ids|
        ensures SizeOf(SizesOf(members), ids[i]) == SizeOf(counts, ids[i])
      {
        assert ids[i] in ids;
      }
      LargestFirstReachesRoots(cr, SizesOf(members), ids);
    }
  }

  /** Merges communities whose mean vectors are alike. The forest, the sizes and the order of
      merges are those of the model; every entity moves at most one link; the stored count of
      every community that took part is true. */
  method MergeCommunities(store: Store, sqrt: real -> real, threshold: real, ids: seq<Id>, ghost dims: nat)
    returns (merged: nat, ghost h: History, ghost members: map<Id, seq<Id>>, ghost cr: Criteria)
    requires OneDimension(store, dims)
    requires forall c :: c in ids ==> store.CountTrue(c)
    modifies store
    ensures |ids| < 2 ==> h == []
    ensures |ids| >= 2 ==>
              && Snapshot(store, old(store.communityOf), ids, members)
              && cr.sqrt == sqrt && cr.threshold == threshold && MeansOf(store, members, cr.averages)
              && h == MergeAll(cr, MergeState([], SizesOf(members)), ids).history
    ensures WellFormed(h) && merged == |MergedInto(h)|
    ensures forall d :: d in MergedInto(h) ==> MergedInto(h)[d] in ids
    ensures store.communityOf == AllMoved(MergedInto(h), old(store.communityOf))
    ensures forall c :: c in ids ==> store.CountTrue(c)
    ensures LargestFirst(ids, old(store.memberCount)) ==> store.communityOf == AllAtRoots(h, old(store.communityOf))
    ensures CountsElsewhereKept(old(store.memberCount), store.memberCount, ids)
    ensures old(store.Mirrored()) ==> store.Mirrored()
  {
    ghost var before, counts := store.communityOf, store.memberCount;
    assert AllMoved(map[], before) == before && AllAtRoots([], before) == before;
    members, cr, h := map[], Criteria(sqrt, map[], threshold), [];
    if |ids| < 2 {
      return 0, h, members, cr;
    }
    var rows, averages := ReadMembers(store, ids, dims);
    var criteria := Criteria(sqrt, averages, threshold);
    members, cr := rows, criteria;
    var initial := map c | c in rows :: |rows[c]|;
    ghost var keys := KeyList(initial.Keys);
    InvariantInitially(criteria, keys, initial);
    var mergedInto;
    mergedInto, h := MergeAllPairs(store, before, criteria, keys, ids, rows, initial);
    merged := |mergedInto|;
    SortedEndAtRoots(store, before, counts, ids, rows, criteria, h);
  }

  // ---- writing labels, and a whole run ----

  /** The entity's community once its label is written. */
  function Labelled(labels: map<Id, Id>, communityId: Id -> Id, before: map<Id, Option<Id>>): map<Id, Option<Id>> {
    map e | e in before :: if e in labels then Some(communityId(labels[e])) else before[e]
  }

  ghost predicate AreCommunitiesOf(ids: seq<Id>, labels: map<Id, Id>, communityId: Id -> Id) {
    forall c :: c in ids <==> exists e :: e in labels && communityId(labels[e]) == c
  }

  /** The community of every label in use, in some order. */
  method CommunitiesOf(labels: map<Id, Id>, communityId: Id -> Id) returns (ids: seq<Id>)
    ensures AreCommunitiesOf(ids, labels, communityId)
  {
    ids := [];
    var tags := labels.Values;
    while tags != {}
      invariant tags <= labels.Values
      invariant forall c :: c in ids <==> exists tag :: tag in labels.Values && tag !in tags && communityId(tag) == c
      decreases tags
    {
      var tag :| tag in tags;
      ids := ids + [communityId(tag)];
      tags := tags - {tag};
    }
    forall c
      ensures c in ids <==> exists e :: e in labels && communityId(labels[e]) == c
    {
      if c in ids {
        var tag :| tag in labels.Values && communityId(tag) == c;
        var e :| e in labels && labels[e] == tag;
      }
      if e :| e in labels && communityId(labels[e]) == c {
        assert labels[e] in labels.Values;
      }
    }
  }

  method UpsertAll(store: Store, ids: seq<Id>)
    modifies store
    ensures store.communityOf == old(store.communityOf) && store.membership == old(store.membership)
    ensures forall c :: c in store.memberCount <==> c in old(store.memberCount) || c in ids
  {
    for i := 0 to |ids|
      invariant store.communityOf == old(store.communityOf) && store.membership == old(store.membership)
      invariant forall c :: c in store.memberCount <==> c in old(store.memberCount) || c in ids[..i]
    {
      assert ids[..i + 1] == ids[..i] + [ids[i]];
      store.UpsertCommunity(ids[i]);
    }
    assert ids[..|ids|] == ids;
  }

  method RefreshAll(store: Store, ids: seq<Id>)
    requires forall c :: c in ids ==> c in store.memberCount
    modifies store
    ensures store.communityOf == old(store.communityOf) && store.membership == old(store.membership)
    ensures store.memberCount.Keys == old(store.memberCount.Keys)
    ensures forall c :: c in ids ==> store.CountTrue(c)
  {
    for i := 0 to |ids|
      invariant store.communityOf == old(store.communityOf) && store.membership == old(store.membership)
      invariant store.memberCount.Keys == old(store.memberCount.Keys)
      invariant forall c :: c in ids[..i] ==> store.CountTrue(c)
    {
      assert ids[..i + 1] == ids[..i] + [ids[i]];
      store.RefreshCommunityMemberCount(ids[i]);
    }
    assert ids[..|ids|] == ids;
  }

  method AssignLabels(store: Store, labels: map<Id, Id>, communityId: Id -> Id)
    requires forall e :: e in labels ==> communityId(labels[e]) in store.memberCount
    modifies store
    ensures store.memberCount == old(store.memberCount)
    ensures store.communityOf == Labelled(labels, communityId, old(store.communityOf))
    ensures old(store.Mirrored()) ==> store.Mirrored()
  {
    ghost var before := store.communityOf;
    var rest := labels.Keys;
    while rest != {}
      invariant rest <= labels.Keys
      invariant store.memberCount == old(store.memberCount)
      invariant store.communityOf.Keys == before.Keys
      invariant forall e :: e in before ==>
                  store.communityOf[e] == if e in labels && e !in rest then Some(communityId(labels[e])) else before[e]
      invariant old(store.Mirrored()) ==> store.Mirrored()
      decreases rest
    {
      var e :| e in rest;
      store.AssignEntityCommunity(e, communityId(labels[e]));
      rest := rest - {e};
    }
  }

  /** Writes every label as a community: nodes first, then assignments, then member counts. */
  method FlushLabels(store: Store, labels: map<Id, Id>, communityId: Id -> Id) returns (ids: seq<Id>)
    modifies store
    ensures AreCommunitiesOf(ids, labels, communityId)
    ensures store.communityOf == Labelled(labels, communityId, old(store.communityOf))
    ensures forall c :: c in store.memberCount <==> c in old(store.memberCount) || c in ids
    ensures forall c :: c in ids ==> store.CountTrue(c)
    ensures old(store.Mirrored()) ==> store.Mirrored()
  {
    ids := CommunitiesOf(labels, communityId);
    UpsertAll(store, ids);
    AssignLabels(store, labels, communityId);
    RefreshAll(store, ids);
  }

  datatype Settings = Settings(weights: LabelPropagation.Weights, maxIterations: nat, mergeThreshold: real)

  /** `community_id or id`. */
  function InitialLabel(communityOf: map<Id, Option<Id>>, e: Id): Id
    requires e in communityOf
  {
    if communityOf[e].Some? && communityOf[e].value != "" then communityOf[e].value else e
  }

  /** The label an entity starts with: the community it is stored in, or else its own id. */
  ghost function FirstLabel(communityOf: map<Id, Option<Id>>, e: Id): Id
    requires e in communityOf
  {
    match communityOf[e]
    case None => e
    case Some(c) => if c == "" then e else c
  }

  /** After flushing and merging, one lookup in the parent map gives every entity's community. */
  lemma EntitiesMovedOnce(labels: map<Id, Id>, communityId: Id -> Id, before: map<Id, Option<Id>>, m: map<Id, Id>, e: Id)
    requires e in before && e in labels
    ensures e in AllMoved(m, Labelled(labels, communityId, before))
    ensures AllMoved(m, Labelled(labels, communityId, before))[e] == Some(Hop(m, communityId(labels[e])))
  {
  }

  ghost predicate EveryCommunityCounted(store: Store)
    reads store
  {
    forall e :: e in store.communityOf ==> store.communityOf[e].Some? && store.CountTrue(store.communityOf[e].value)
  }

  /** When the counts of all communities in use are true, pruning removes none of them. */
  method PruneUnused(store: Store)
    requires EveryCommunityCounted(store)
    modifies store
    ensures store.communityOf == old(store.communityOf)
    ensures EveryCommunityCounted(store)
    ensures forall c :: c in store.memberCount ==> c in old(store.memberCount) && store.memberCount[c] == old(store.memberCount[c]) > 0
    ensures old(store.Mirrored()) ==> store.Mirrored()
  {
    forall e | e in store.communityOf
      ensures store.memberCount[store.communityOf[e].value] != 0
    {
      assert e in store.Members(store.communityOf[e].value);
    }
    store.PruneEmptyCommunities();
    forall e | e in store.communityOf
      ensures store.CountTrue(store.communityOf[e].value)
    {
      assert old(store.CountTrue(store.communityOf[e].value));
    }
  }

  /** `h` are the merges that the double loop over `ids` makes, given who was in which community. */
  ghost predicate MergesOf(store: Store, settings: Settings, before: map<Id, Option<Id>>, ids: seq<Id>, h: History, members: map<Id, seq<Id>>, cr: Criteria)
  {
    if |ids| < 2 then h == []
    else
      && Snapshot(store, before, ids, members)
      && cr.sqrt == settings.weights.sqrt && cr.threshold == settings.mergeThreshold && MeansOf(store, members, cr.averages)
      && h == MergeAll(cr, MergeState([], SizesOf(members)), ids).history
  }

  /** All entities that are in one of the listed communities. */
  ghost function Inside(before: map<Id, Option<Id>>, keys: seq<Id>): set<Id> {
    set e | e in before && before[e].Some? && before[e].value in keys
  }

  lemma InsideSplits(before: map<Id, Option<Id>>, keys: seq<Id>)
    requires Distinct(keys) && keys != []
    ensures var first := CommunityStore.MembersIn(before, keys[0]);
            Inside(before, keys) == first + Inside(before, keys[1..]) && first !! Inside(before, keys[1..])
  {
    assert keys == [keys[0]] + keys[1..];
    assert keys[0] !in keys[1..];
  }

  /** Communities share no member, so their sizes add up to the number of entities in them. */
  lemma {:induction false} SizesAddUp(before: map<Id, Option<Id>>, keys: seq<Id>, members: map<Id, seq<Id>>)
    requires Distinct(keys)
    requires forall c :: c in keys ==> c in members && CommunityStore.Lists(members[c], CommunityStore.MembersIn(before, c))
    ensures Total(keys, SizesOf(members)) == |Inside(before, keys)|
  {
    if keys != [] {
      SizesAddUp(before, keys[1..], members);
      InsideSplits(before, keys);
      hide Inside, CommunityStore.MembersIn;
    }
  }

  /** A walk to the root takes at most log2 of `n` links, survivors are not similar, links are. */
  ghost predicate ShallowAndSeparated(cr: Criteria, ids: seq<Id>, h: History, n: nat) {
    && (forall c :: c in ids ==> Links(h, c) == 0 || Pow2(Links(h, c)) <= n)
    && (forall a, b :: a in ids && b in ids && a != b && a !in MergedInto(h) && b !in MergedInto(h) ==> Similarity(cr, a, b) <= cr.threshold)
    && LinksAreSimilar(cr, h)
  }

  lemma EveryoneInside(before: map<Id, Option<Id>>, keys: seq<Id>)
    requires forall e :: e in before ==> before[e].Some? && before[e].value in keys
    ensures |Inside(before, keys)| == |before|
  {
    assert Inside(before, keys) == before.Keys;
  }

  lemma FewAreSeparated(cr: Criteria, ids: seq<Id>, n: nat)
    requires |ids| < 2
    ensures ShallowAndSeparated(cr, ids, [], n)
  {
  }

  lemma ForestLinksAreSimilar(cr: Criteria, keys: seq<Id>, sizes: map<Id, nat>, ids: seq<Id>)
    requires ForestInvariant(cr, keys, sizes, MergeAll(cr, MergeState([], sizes), ids))
    ensures LinksAreSimilar(cr, MergeAll(cr, MergeState([], sizes), ids).history)
  {
  }

  lemma NothingEmptyMerges(cr: Criteria, sizes: map<Id, nat>)
    requires forall c :: c in sizes ==> sizes[c] >= 1
    ensures NoEmptyMerge(cr, sizes)
  {
  }

  lemma ModelMerges(cr: Criteria, sizes: map<Id, nat>, keys: seq<Id>, ids: seq<Id>, n: nat)
    requires Distinct(keys) && (forall c :: c in sizes <==> c in keys) && forall c :: c in sizes <==> c in ids
    requires Total(keys, sizes) == n && forall c :: c in sizes ==> sizes[c] >= 1
    ensures ShallowAndSeparated(cr, ids, MergeAll(cr, MergeState([], sizes), ids).history, n)
  {
    NothingEmptyMerges(cr, sizes);
    hide Similarity, MergeAll, ForestInvariant, LinksAreSimilar, Distinct, Links, NoEmptyMerge, MergedInto;
    MergingBuildsShallowForest(cr, keys, sizes, ids);
    ForestLinksAreSimilar(cr, keys, sizes, ids);
    forall a, b | a in ids && b in ids && a != b
      ensures var h := MergeAll(cr, MergeState([], sizes), ids).history;
              a !in MergedInto(h) && b !in MergedInto(h) ==> Similarity(cr, a, b) <= cr.threshold
    {
      SurvivorsAreSeparated(cr, keys, sizes, ids, a, b);
    }
  }

  lemma NoneEmpty(before: map<Id, Option<Id>>, ids: seq<Id>, members: map<Id, seq<Id>>)
    requires forall c :: c in members ==> c in ids && CommunityStore.Lists(members[c], CommunityStore.MembersIn(before, c))
    requires forall c :: c in ids ==> exists e :: e in before && before[e] == Some(c)
    ensures forall c :: c in SizesOf(members) ==> SizesOf(members)[c] >= 1
  {
    forall c | c in members
      ensures |members[c]| >= 1
    {
      var e :| e in before && before[e] == Some(c);
      assert e in CommunityStore.MembersIn(before, c);
    }
  }

  /** Where every entity is in one of the communities, and none of them is empty. */
  lemma LiveMerges(store: Store, settings: Settings, before: map<Id, Option<Id>>, ids: seq<Id>, h: History, members: map<Id, seq<Id>>, cr: Criteria)
    requires MergesOf(store, settings, before, ids, h, members, cr)
    requires forall e :: e in before ==> before[e].Some? && before[e].value in ids
    requires forall c :: c in ids ==> exists e :: e in before && before[e] == Some(c)
    ensures ShallowAndSeparated(cr, ids, h, |before|)
  {
    hide MeansOf, MergeAll, CommunityStore.Lists, CommunityStore.MembersIn, ShallowAndSeparated, Similarity;
    if |ids| >= 2 {
      var sizes, keys := SizesOf(members), KeyList(members.Keys);
      SizesAddUp(before, keys, members);
      EveryoneInside(before, keys);
      NoneEmpty(before, ids, members);
      ModelMerges(cr, sizes, keys, ids, |before|);
    } else {
      FewAreSeparated(cr, ids, |before|);
    }
  }

  lemma CountedAfterMerging(store: Store, labels: map<Id, Id>, communityId: Id -> Id, before: map<Id, Option<Id>>, ids: seq<Id>, h: History)
    requires AreCommunitiesOf(ids, labels, communityId) && labels.Keys == before.Keys
    requires store.communityOf == AllMoved(MergedInto(h), Labelled(labels, communityId, before))
    requires forall d :: d in MergedInto(h) ==> MergedInto(h)[d] in ids
    requires forall c :: c in ids ==> store.CountTrue(c)
    ensures EveryCommunityCounted(store)
  {
    forall e | e in store.communityOf
      ensures store.communityOf[e].Some? && store.CountTrue(store.communityOf[e].value)
    {
      EntitiesMovedOnce(labels, communityId, before, MergedInto(h), e);
      assert communityId(labels[e]) in ids;
    }
  }

  lemma LabelledInside(labels: map<Id, Id>, communityId: Id -> Id, before: map<Id, Option<Id>>, ids: seq<Id>)
    requires AreCommunitiesOf(ids, labels, communityId) && labels.Keys == before.Keys
    ensures var after := Labelled(labels, communityId, before);
            && |after| == |before|
            && (forall e :: e in after ==> after[e].Some? && after[e].value in ids)
            && forall c :: c in ids ==> exists e :: e in after && after[e] == Some(c)
  {
    var after := Labelled(labels, communityId, before);
    assert after.Keys == before.Keys && |after| == |after.Keys| && |before| == |before.Keys|;
    forall c | c in ids
      ensures exists e :: e in after && after[e] == Some(c)
    {
      var e :| e in labels && communityId(labels[e]) == c;
      assert after[e] == Some(c);
    }
  }

  /** Flushing the labels and merging the communities they name. */
  method FlushAndMerge(store: Store, settings: Settings, labels: map<Id, Id>, communityId: Id -> Id, ghost dims: nat)
    returns (communities: int, merged: nat, ghost h: History, ghost ids: seq<Id>, ghost members: map<Id, seq<Id>>, ghost cr: Criteria)
    requires OneDimension(store, dims)
    requires labels.Keys == store.communityOf.Keys
    modifies store
    ensures AreCommunitiesOf(ids, labels, communityId) && communities == |ids| - merged
    ensures MergesOf(store, settings, Labelled(labels, communityId, old(store.communityOf)), ids, h, members, cr)
    ensures ShallowAndSeparated(cr, ids, h, |old(store.communityOf)|)
    ensures WellFormed(h) && merged == |MergedInto(h)|
    ensures store.communityOf == AllMoved(MergedInto(h), Labelled(labels, communityId, old(store.communityOf)))
    ensures EveryCommunityCounted(store)
    ensures old(store.Mirrored()) ==> store.Mirrored()
  {
    hide CommunityStore.Store.Mirrored, MergeAll, Snapshot, MeansOf, OneDimension, WellFormed, ShallowAndSeparated, AreCommunitiesOf,
         EveryCommunityCounted, LargestFirst, AllAtRoots;
    var named := FlushLabels(store, labels, communityId);
    ids := named;
    ghost var before := old(store.communityOf);
    merged, h, members, cr := MergeCommunities(store, settings.weights.sqrt, settings.mergeThreshold, named, dims);
    communities := |named| - merged;
    LabelledInside(labels, communityId, before, named);
    LiveMerges(store, settings, Labelled(labels, communityId, before), named, h, members, cr);
    CountedAfterMerging(store, labels, communityId, before, named, h);
  }

  lemma StartingLabels(communityOf: map<Id, Option<Id>>)
    ensures (map e | e in communityOf :: InitialLabel(communityOf, e)) == (map e | e in communityOf :: FirstLabel(communityOf, e))
    ensures (map e | e in communityOf :: InitialLabel(communityOf, e)).Keys == communityOf.Keys
  {
  }

  lemma MovedKeys(labels: map<Id, Id>, communityId: Id -> Id, before: map<Id, Option<Id>>, m: map<Id, Id>)
    requires labels.Keys == before.Keys
    ensures AllMoved(m, Labelled(labels, communityId, before)).Keys == before.Keys
  {
  }

  lemma ReachableKeys(g: LabelPropagation.Graph, initial: map<Id, Id>, labels: map<Id, Id>)
    requires LabelPropagation.AllReachable(g, initial, labels)
    ensures labels.Keys == initial.Keys
  {
  }

  /** A full clustering run. `rounds` are the labels before and after each sweep; they settle unless the
      sweeps run out. The merges are those of the
      double loop over the flushed communities; they form a forest in which a walk takes at most log2
      of the number of entities, and leave no two similar communities. Every entity ends in the
      community of its label, moved at most one link; that community's node survives pruning and its
      member count is true. */
  method FullCluster(store: Store, settings: Settings, g: LabelPropagation.Graph, communityId: Id -> Id, ghost dims: nat)
    returns (communities: int, merged: nat, labels: map<Id, Id>, sweeps: nat,
             ghost rounds: seq<map<Id, Id>>, ghost h: History, ghost ids: seq<Id>, ghost members: map<Id, seq<Id>>, ghost cr: Criteria)
    requires OneDimension(store, dims)
    requires forall e :: e in g.entities <==> e in store.communityOf
    modifies store
    ensures labels.Keys == old(store.communityOf.Keys)
    ensures |rounds| == sweeps + 1 && rounds[0] == (map e | e in old(store.communityOf) :: FirstLabel(old(store.communityOf), e))
    ensures rounds[sweeps] == labels
    ensures forall r :: 0 <= r < sweeps ==> LabelPropagation.SweepChanges(settings.weights, g, rounds[r], rounds[r + 1])
    ensures LabelPropagation.AllReachable(g, rounds[0], labels)
    ensures sweeps <= settings.maxIterations
    ensures sweeps < settings.maxIterations ==> forall e :: e in g.entities ==> LabelPropagation.Settled(settings.weights, g, labels, e)
    ensures AreCommunitiesOf(ids, labels, communityId) && communities == |ids| - merged
    ensures MergesOf(store, settings, Labelled(labels, communityId, old(store.communityOf)), ids, h, members, cr)
    ensures ShallowAndSeparated(cr, ids, h, |old(store.communityOf)|)
    ensures WellFormed(h) && merged == |MergedInto(h)|
    ensures store.communityOf.Keys == old(store.communityOf.Keys)
    ensures forall e :: e in store.communityOf ==>
              store.communityOf[e] == Some(Hop(MergedInto(h), communityId(labels[e])))
    ensures EveryCommunityCounted(store)
    ensures old(store.Mirrored()) ==> store.Mirrored()
  {
    hide *;
    StartingLabels(store.communityOf);
    var initial := map e | e in store.communityOf :: InitialLabel(store.communityOf, e);
    labels, sweeps, rounds := LabelPropagation.Propagate(settings.weights, g, initial, settings.maxIterations);
    ReachableKeys(g, initial, labels);
    communities, merged, h, ids, members, cr := FlushAndMerge(store, settings, labels, communityId, dims);
    PruneUnused(store);
    MovedKeys(labels, communityId, old(store.communityOf), MergedInto(h));
    forall e | e in labels
      ensures store.communityOf[e] == Some(Hop(MergedInto(h), communityId(labels[e])))
    {
      EntitiesMovedOnce(labels, communityId, old(store.communityOf), MergedInto(h), e);
    }
  }
}
