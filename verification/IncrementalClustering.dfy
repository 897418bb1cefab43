// Clustering only new entities. One community is recounted for each of them, the one that it joins,
// so the counts of communities that lose entities fall behind.

module IncrementalClustering {
  import opened Options
  import opened MemoryValues
  import opened CommunityForest
  import LabelPropagation
  import CommunityStore

  type Store = CommunityStore.Store
  type Assignment = map<Id, Option<Id>>
  type Counts = map<Id, nat>

  // ---- how far counts are off ----

  /** By how much the stored count of `c` exceeds the true one. */
  ghost function Excess(communityOf: Assignment, counts: Counts, c: Id): int
    requires c in counts
  {
    counts[c] - |CommunityStore.MembersIn(communityOf, c)|
  }

  /** The position at which `c` was last joined and recounted, or -1. */
  function LastRecount(targets: seq<Id>, c: Id): (i: int)
    ensures -1 <= i < |targets|
    ensures i >= 0 <==> c in targets
  {
    if targets == [] then -1
    else if targets[|targets| - 1] == c then |targets| - 1
    else LastRecount(targets[..|targets| - 1], c)
  }

  /** How many of the entities after position `i` and before `k` were in community `c` at the start. */
  ghost function Leavers(before: Assignment, entities: seq<Id>, i: int, k: nat, c: Id): nat
    requires -1 <= i && k <= |entities|
  {
    if k <= i + 1 then 0
    else Leavers(before, entities, i, k - 1, c) + if entities[k - 1] in before && before[entities[k - 1]] == Some(c) then 1 else 0
  }

  lemma {:induction false} NoLeaversIff(before: Assignment, entities: seq<Id>, i: int, k: nat, c: Id)
    requires -1 <= i && k <= |entities|
    ensures Leavers(before, entities, i, k, c) == 0
       <==> forall j :: i < j < k && entities[j] in before ==> before[entities[j]] != Some(c)
  {
    if k > i + 1 {
      NoLeaversIff(before, entities, i, k - 1, c);
    }
  }

  /** After the first `|targets|` entities the count of `c` is off by what it was off at the start, if
      it was never recounted, and by the entities that left it since its last recount. */
  ghost predicate Lags(before: Assignment, counts0: Counts, communityOf: Assignment, counts: Counts, entities: seq<Id>, targets: seq<Id>, c: Id)
    requires |targets| <= |entities|
  {
    && c in counts && (c in targets || c in counts0)
    && Excess(communityOf, counts, c) ==
       (if c in targets then 0 else Excess(before, counts0, c)) + Leavers(before, entities, LastRecount(targets, c), |targets|, c)
  }

  ghost predicate AllLag(before: Assignment, counts0: Counts, communityOf: Assignment, counts: Counts, entities: seq<Id>, targets: seq<Id>)
    requires |targets| <= |entities|
  {
    && (forall c :: c in counts <==> c in counts0 || c in targets)
    && forall c :: c in counts ==> Lags(before, counts0, communityOf, counts, entities, targets, c)
  }

  /** One entity moves to `target`: it leaves where it was, and no other community notices. */
  lemma OneMoves(was: Assignment, e: Id, target: Id, c: Id)
    requires e in was && c != target
    ensures |CommunityStore.MembersIn(was[e := Some(target)], c)| ==
            |CommunityStore.MembersIn(was, c)| - if was[e] == Some(c) then 1 else 0
  {
    var members, members' := CommunityStore.MembersIn(was, c), CommunityStore.MembersIn(was[e := Some(target)], c);
    if was[e] == Some(c) {
      assert members == members' + {e};
    } else {
      assert members == members';
    }
  }

  lemma RecountOfOthers(targets: seq<Id>, target: Id, c: Id)
    requires c != target
    ensures LastRecount(targets + [target], c) == LastRecount(targets, c)
  {
    assert (targets + [target])[..|targets|] == targets;
  }

  /** A community that is not joined falls behind by one if the entity leaves it. */
  lemma LagStep(before: Assignment, counts0: Counts, was: Assignment, counts: Counts, counts': Counts, entities: seq<Id>, targets: seq<Id>,
                target: Id, c: Id)
    requires |targets| < |entities|
    requires var e := entities[|targets|]; e in before && e in was && was[e] == before[e]
    requires Lags(before, counts0, was, counts, entities, targets, c)
    requires c != target && c in counts' && counts'[c] == counts[c]
    ensures Lags(before, counts0, was[entities[|targets|] := Some(target)], counts', entities, targets + [target], c)
  {
    OneMoves(was, entities[|targets|], target, c);
    RecountOfOthers(targets, target, c);
    hide LastRecount, CommunityStore.MembersIn;
  }

  /** The community that is joined is counted right. */
  lemma NoLagAtTarget(before: Assignment, counts0: Counts, now: Assignment, counts': Counts, entities: seq<Id>, targets: seq<Id>, target: Id)
    requires |targets| < |entities|
    requires target in counts' && counts'[target] == |CommunityStore.MembersIn(now, target)|
    ensures Lags(before, counts0, now, counts', entities, targets + [target], target)
  {
    assert LastRecount(targets + [target], target) == |targets|;
  }

  lemma AllLagStep(before: Assignment, counts0: Counts, was: Assignment, counts: Counts, counts': Counts, entities: seq<Id>, targets: seq<Id>, target: Id)
    requires |targets| < |entities|
    requires var e := entities[|targets|]; e in before && e in was && was[e] == before[e]
    requires AllLag(before, counts0, was, counts, entities, targets)
    requires target in counts' && counts'[target] == |CommunityStore.MembersIn(was[entities[|targets|] := Some(target)], target)|
    requires forall c :: c != target ==> (c in counts' <==> c in counts) && (c in counts ==> counts'[c] == counts[c])
    ensures AllLag(before, counts0, was[entities[|targets|] := Some(target)], counts', entities, targets + [target])
  {
    hide Lags;
    var now := was[entities[|targets|] := Some(target)];
    forall c | c in counts'
      ensures Lags(before, counts0, now, counts', entities, targets + [target], c)
    {
      if c == target {
        NoLagAtTarget(before, counts0, now, counts', entities, targets, target);
      } else {
        LagStep(before, counts0, was, counts, counts', entities, targets, target, c);
      }
    }
  }

  lemma NothingLags(before: Assignment, counts: Counts, entities: seq<Id>)
    ensures AllLag(before, counts, before, counts, entities, [])
  {
  }

  /** No entity left `c` after its last recount, or at all if it was never recounted. */
  ghost predicate NobodyLeft(before: Assignment, entities: seq<Id>, targets: seq<Id>, c: Id) {
    forall j :: LastRecount(targets, c) < j < |entities| && entities[j] in before ==> before[entities[j]] != Some(c)
  }

  /** A count that was true, or was recounted, is true in the end exactly when nobody left since. */
  lemma CountTrueIff(before: Assignment, counts0: Counts, communityOf: Assignment, counts: Counts, entities: seq<Id>, targets: seq<Id>, c: Id)
    requires |targets| == |entities| && Lags(before, counts0, communityOf, counts, entities, targets, c)
    requires c in targets || (c in counts0 && Excess(before, counts0, c) == 0)
    ensures counts[c] == |CommunityStore.MembersIn(communityOf, c)| <==> NobodyLeft(before, entities, targets, c)
  {
    NoLeaversIff(before, entities, LastRecount(targets, c), |entities|, c);
  }

  // ---- the run ----

  ghost predicate ChosenFor(w: LabelPropagation.Weights, g: LabelPropagation.Graph, communityId: Id -> Id, e: Id, target: Id) {
    exists winner :: LabelPropagation.ElectedFor(w, g, map[], e, winner)
                     && target == if winner.Some? then winner.value else communityId(e)
  }

  /** One entity of an incremental run. */
  method AssignIncrementally(store: Store, w: LabelPropagation.Weights, g: LabelPropagation.Graph, communityId: Id -> Id, e: Id)
    returns (target: Id)
    requires e in store.communityOf
    modifies store
    ensures ChosenFor(w, g, communityId, e, target)
    ensures store.communityOf == old(store.communityOf)[e := Some(target)]
    ensures store.CountTrue(target)
    ensures forall c :: c != target ==>
              && (c in store.memberCount <==> c in old(store.memberCount))
              && (c in store.memberCount ==> store.memberCount[c] == old(store.memberCount[c]))
    ensures old(store.Mirrored()) ==> store.Mirrored()
  {
    var winner := LabelPropagation.WeightedVote(w, LabelPropagation.NeighborsOf(g, e), LabelPropagation.EmbeddingOf(g, e), map[]);
    assert LabelPropagation.ElectedFor(w, g, map[], e, winner);
    target := if winner.Some? then winner.value else communityId(e);
    hide LabelPropagation.ElectedFor;
    store.UpsertCommunity(target);
    store.AssignEntityCommunity(e, target);
    store.RefreshCommunityMemberCount(target);
  }

  /** The first entities joined the communities chosen for them; all others are where they were. */
  ghost predicate Joined(w: LabelPropagation.Weights, g: LabelPropagation.Graph, communityId: Id -> Id, before: Assignment, communityOf: Assignment,
                         targets: seq<Id>)
  {
    && |targets| <= |g.entities| && communityOf.Keys == before.Keys
    && (forall i :: 0 <= i < |targets| ==>
          && ChosenFor(w, g, communityId, g.entities[i], targets[i])
          && g.entities[i] in communityOf && communityOf[g.entities[i]] == Some(targets[i]))
    && (forall i :: |targets| <= i < |g.entities| ==> g.entities[i] in before && communityOf[g.entities[i]] == before[g.entities[i]])
    && forall e :: e in before && e !in g.entities ==> communityOf[e] == before[e]
  }

  lemma OneMoreJoined(w: LabelPropagation.Weights, g: LabelPropagation.Graph, communityId: Id -> Id, before: Assignment, was: Assignment,
                      targets: seq<Id>, target: Id)
    requires Distinct(g.entities) && |targets| < |g.entities|
    requires Joined(w, g, communityId, before, was, targets)
    requires ChosenFor(w, g, communityId, g.entities[|targets|], target)
    ensures Joined(w, g, communityId, before, was[g.entities[|targets|] := Some(target)], targets + [target])
  {
    hide ChosenFor;
    assert forall i :: 0 <= i < |g.entities| && i != |targets| ==> g.entities[i] != g.entities[|targets|];
  }

  lemma AllCountsTrueIff(before: Assignment, counts0: Counts, communityOf: Assignment, counts: Counts, entities: seq<Id>, targets: seq<Id>)
    requires |targets| == |entities| && AllLag(before, counts0, communityOf, counts, entities, targets)
    ensures forall c :: c in targets || (c in counts0 && counts0[c] == |CommunityStore.MembersIn(before, c)|) ==>
              (c in counts && counts[c] == |CommunityStore.MembersIn(communityOf, c)| <==> NobodyLeft(before, entities, targets, c))
  {
    hide Lags, NobodyLeft, CommunityStore.MembersIn;
    forall c | c in targets || (c in counts0 && counts0[c] == |CommunityStore.MembersIn(before, c)|)
      ensures c in counts && counts[c] == |CommunityStore.MembersIn(communityOf, c)| <==> NobodyLeft(before, entities, targets, c)
    {
      CountTrueIff(before, counts0, communityOf, counts, entities, targets, c);
    }
  }

  /** Assigns each new entity to the community its neighbours elect, or to one of its own. Of every
      community, whether joined or not, the count is off by exactly what it was off before, if it was
      not recounted, and by the entities that left it since; so a count that was true stays true
      exactly when nobody left. */
  method IncrementalCluster(store: Store, w: LabelPropagation.Weights, g: LabelPropagation.Graph, communityId: Id -> Id)
    returns (targets: seq<Id>)
    requires Distinct(g.entities)
    requires forall e :: e in g.entities ==> e in store.communityOf
    modifies store
    ensures |targets| == |g.entities|
    ensures Joined(w, g, communityId, old(store.communityOf), store.communityOf, targets)
    ensures AllLag(old(store.communityOf), old(store.memberCount), store.communityOf, store.memberCount, g.entities, targets)
    ensures forall c :: c in targets || old(store.CountTrue(c)) ==>
              (store.CountTrue(c) <==> NobodyLeft(old(store.communityOf), g.entities, targets, c))
    ensures old(store.Mirrored()) ==> store.Mirrored()
  {
    hide ChosenFor, AllLag, NobodyLeft, CommunityStore.Store.Mirrored;
    targets := [];
    ghost var before, counts0 := store.communityOf, store.memberCount;
    NothingLags(before, counts0, g.entities);
    for k := 0 to |g.entities|
      invariant |targets| == k
      invariant Joined(w, g, communityId, before, store.communityOf, targets)
      invariant AllLag(before, counts0, store.communityOf, store.memberCount, g.entities, targets)
      invariant old(store.Mirrored()) ==> store.Mirrored()
    {
      ghost var was, counts := store.communityOf, store.memberCount;
      var target := AssignIncrementally(store, w, g, communityId, g.entities[k]);
      OneMoreJoined(w, g, communityId, before, was, targets, target);
      AllLagStep(before, counts0, was, counts, store.memberCount, g.entities, targets, target);
      targets := targets + [target];
    }
    AllCountsTrueIff(before, counts0, store.communityOf, store.memberCount, g.entities, targets);
  }

  // ---- one entity that leaves ----

  const NEIGHBOUR_IN_B := LabelPropagation.Neighbor("n", Some("b"), [])
  const ONE_NEW_ENTITY := LabelPropagation.Graph(["e"], map[], map["e" := [NEIGHBOUR_IN_B]])

  lemma NeighbourDecides(w: LabelPropagation.Weights, communityId: Id -> Id, target: Id)
    requires ChosenFor(w, ONE_NEW_ENTITY, communityId, "e", target)
    ensures target == "b"
  {
    var winner :| LabelPropagation.ElectedFor(w, ONE_NEW_ENTITY, map[], "e", winner)
                  && target == if winner.Some? then winner.value else communityId("e");
    var neighbors := LabelPropagation.NeighborsOf(ONE_NEW_ENTITY, "e");
    assert neighbors == [NEIGHBOUR_IN_B] && neighbors[..0] == [];
    assert LabelPropagation.Voted(neighbors, map[], "b");
    if winner.Some? {
      LabelPropagation.FirstVoteIsFirst(neighbors, map[], winner.value);
    }
  }

  lemma OnlyMemberLeft(counts: Counts, targets: seq<Id>)
    requires targets == ["b"]
    requires AllLag(map["e" := Some("a"), "n" := Some("b")], map["a" := 1, "b" := 1], map["e" := Some("b"), "n" := Some("b")], counts, ["e"], targets)
    ensures "a" in counts && counts["a"] == 1
  {
    var before := map["e" := Some("a"), "n" := Some("b")];
    assert Lags(before, map["a" := 1, "b" := 1], map["e" := Some("b"), "n" := Some("b")], counts, ["e"], targets, "a");
    assert CommunityStore.MembersIn(before, "a") == {"e"};
    assert CommunityStore.MembersIn(map["e" := Some("b"), "n" := Some("b")], "a") == {};
    assert ["b"][..0] == [];
    assert LastRecount(targets, "a") == -1;
    assert Leavers(before, ["e"], -1, 1, "a") == 1;
  }

  /** A run over the only member of "a", which joins "b": the count of "a" stays 1, and nobody is in
      it. */
  method OneEntityLeaves(w: LabelPropagation.Weights, communityId: Id -> Id) returns (store: Store)
    ensures fresh(store) && "a" in store.memberCount && store.memberCount["a"] == 1 && store.Members("a") == {}
  {
    store := new CommunityStore.Store(map["e" := Some("a"), "n" := Some("b")], {("e", "a"), ("n", "b")}, map["a" := 1, "b" := 1], map[]);
    ghost var before, counts0 := store.communityOf, store.memberCount;
    hide ChosenFor, AllLag, NobodyLeft, CommunityStore.Store.Mirrored;
    var targets := IncrementalCluster(store, w, ONE_NEW_ENTITY, communityId);
    NeighbourDecides(w, communityId, targets[0]);
    assert store.communityOf == map["e" := Some("b"), "n" := Some("b")];
    assert store.Members("a") == {};
    OnlyMemberLeft(store.memberCount, targets);
  }
}
