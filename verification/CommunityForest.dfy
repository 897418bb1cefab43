// What merging communities computes: the parent map `merged_into`, the table of sizes, and
// the order in which communities dissolved.

module CommunityForest {
  import opened MemoryValues
  import opened Vectors

  /** One merge: `dissolved` was recorded as merged into `keep`. */
  datatype Link = Link(dissolved: Id, keep: Id)

  /** The merges in the order in which they happened. */
  type History = seq<Link>

  /** The parent map that the merges leave behind. */
  function MergedInto(h: History): (m: map<Id, Id>) {
    if h == [] then map[]
    else MergedInto(h[..|h| - 1])[h[|h| - 1].dissolved := h[|h| - 1].keep]
  }

  /** The community that `c` ended in, following every merge from the first to the last. */
  function Root(h: History, c: Id): Id {
    if h == [] then c
    else Root(h[1..], if h[0].dissolved == c then h[0].keep else c)
  }

  /** How many merges moved `c` on. */
  function Links(h: History, c: Id): nat {
    if h == [] then 0
    else if h[0].dissolved == c then 1 + Links(h[1..], h[0].keep)
    else Links(h[1..], c)
  }

  /** One lookup in the parent map. */
  function Hop(m: map<Id, Id>, c: Id): Id {
    if c in m then m[c] else c
  }

  /** Each merge joined two different communities that were roots at the time. */
  ghost predicate WellFormed(h: History) {
    h == [] ||
    var earlier, last := h[..|h| - 1], h[|h| - 1];
    && WellFormed(earlier)
    && last.dissolved != last.keep
    && last.dissolved !in MergedInto(earlier)
    && last.keep !in MergedInto(earlier)
  }

  // ---- the forest ----

  lemma MergedIntoSnoc(h: History, link: Link)
    ensures MergedInto(h + [link]) == MergedInto(h)[link.dissolved := link.keep]
  {
  }

  lemma WellFormedSnoc(h: History, link: Link)
    ensures WellFormed(h + [link]) <==>
            && WellFormed(h)
            && link.dissolved != link.keep
            && link.dissolved !in MergedInto(h)
            && link.keep !in MergedInto(h)
  {
  }

  lemma {:induction false} RootSnoc(h: History, link: Link, c: Id)
    ensures Root(h + [link], c) == if Root(h, c) == link.dissolved then link.keep else Root(h, c)
    ensures Links(h + [link], c) == Links(h, c) + if Root(h, c) == link.dissolved then 1 else 0
  {
    if h == [] {
      assert h + [link] == [link] && [link][1..] == [];
    } else {
      assert (h + [link])[1..] == h[1..] + [link];
      RootSnoc(h[1..], link, if h[0].dissolved == c then h[0].keep else c);
    }
  }

  /** Roots have no parent, and a community without a parent is its own root. */
  lemma {:induction false} RootHasNoParent(h: History, c: Id)
    requires WellFormed(h)
    ensures Root(h, c) !in MergedInto(h)
    ensures c !in MergedInto(h) <==> Links(h, c) == 0
    ensures c !in MergedInto(h) ==> Root(h, c) == c
  {
    if h != [] {
      var earlier, last := h[..|h| - 1], h[|h| - 1];
      assert h == earlier + [last];
      RootHasNoParent(earlier, c);
      RootHasNoParent(earlier, last.dissolved);
      RootSnoc(earlier, last, c);
      MergedIntoSnoc(earlier, last);
    }
  }

  /** Moving to the parent keeps the root and takes one link off: the parent map is a forest. */
  lemma {:induction false} ParentIsCloser(h: History, c: Id)
    requires WellFormed(h)
    requires c in MergedInto(h)
    ensures Root(h, MergedInto(h)[c]) == Root(h, c)
    ensures Links(h, MergedInto(h)[c]) + 1 == Links(h, c)
  {
    var earlier, last := h[..|h| - 1], h[|h| - 1];
    assert h == earlier + [last];
    MergedIntoSnoc(earlier, last);
    RootSnoc(earlier, last, c);
    if c == last.dissolved {
      RootSnoc(earlier, last, last.keep);
      RootHasNoParent(earlier, c);
      RootHasNoParent(earlier, last.keep);
    } else {
      ParentIsCloser(earlier, c);
      RootSnoc(earlier, last, MergedInto(earlier)[c]);
    }
  }

  lemma {:induction false} FollowShedsLinks(h: History, c: Id, n: nat)
    requires WellFormed(h)
    ensures Links(h, Follow(MergedInto(h), c, n)) <= Links(h, c)
    decreases n
  {
    var m := MergedInto(h);
    if n > 0 && c in m {
      ParentIsCloser(h, c);
      FollowShedsLinks(h, m[c], n - 1);
    }
  }

  /** Walking the parent map, as the source does, reaches the root after exactly `Links` steps,
      and never comes back to where it has been. */
  lemma {:induction false} WalkReachesRoot(h: History, c: Id)
    requires WellFormed(h)
    ensures Follow(MergedInto(h), c, Links(h, c)) == Root(h, c)
    ensures forall n :: 0 <= n < Links(h, c) ==> Follow(MergedInto(h), c, n) in MergedInto(h)
    ensures forall n :: 1 <= n <= Links(h, c) ==> Follow(MergedInto(h), c, n) != c
    decreases Links(h, c)
  {
    var m := MergedInto(h);
    RootHasNoParent(h, c);
    if c in m {
      ParentIsCloser(h, c);
      WalkReachesRoot(h, m[c]);
      forall n | 0 <= n < Links(h, c)
        ensures Follow(m, c, n) in m
      {
        if n > 0 {
          assert Follow(m, c, n) == Follow(m, m[c], n - 1);
        }
      }
      forall n | 1 <= n <= Links(h, c)
        ensures Follow(m, c, n) != c
      {
        assert Follow(m, c, n) == Follow(m, m[c], n - 1);
        FollowShedsLinks(h, m[c], n - 1);
      }
    }
  }

  // ---- the double loop ----

  /** Everything a merge decision looks at besides the current forest. */
  datatype Criteria = Criteria(sqrt: real -> real, averages: map<Id, Vector>, threshold: real)

  function AverageOf(cr: Criteria, c: Id): Vector {
    if c in cr.averages then cr.averages[c] else []
  }

  function Similarity(cr: Criteria, left: Id, right: Id): real {
    CosineSimilarity(cr.sqrt, AverageOf(cr, left), AverageOf(cr, right))
  }

  datatype MergeState = MergeState(history: History, sizes: map<Id, nat>)

  function SizeOf(sizes: map<Id, nat>, c: Id): nat {
    if c in sizes then sizes[c] else 0
  }

  /** The larger root is kept; a tie keeps the left one. */
  function Orient(sizes: map<Id, nat>, leftRoot: Id, rightRoot: Id): Link {
    if SizeOf(sizes, leftRoot) >= SizeOf(sizes, rightRoot) then Link(rightRoot, leftRoot)
    else Link(leftRoot, rightRoot)
  }

  function Absorb(sizes: map<Id, nat>, link: Link): map<Id, nat> {
    sizes[link.keep := SizeOf(sizes, link.keep) + SizeOf(sizes, link.dissolved)][link.dissolved := 0]
  }

  function JoinTrees(st: MergeState, link: Link): MergeState {
    MergeState(st.history + [link], Absorb(st.sizes, link))
  }

  ghost predicate Mergeable(cr: Criteria, h: History, left: Id, right: Id) {
    && Root(h, left) != Root(h, right)
    && Similarity(cr, Root(h, left), Root(h, right)) > cr.threshold
  }

  ghost function MergePair(cr: Criteria, st: MergeState, left: Id, right: Id): MergeState {
    if Mergeable(cr, st.history, left, right) then
      JoinTrees(st, Orient(st.sizes, Root(st.history, left), Root(st.history, right)))
    else st
  }

  ghost function MergeRow(cr: Criteria, st: MergeState, left: Id, rights: seq<Id>): MergeState
    decreases rights
  {
    if rights == [] then st
    else MergeRow(cr, MergePair(cr, st, left, rights[0]), left, rights[1..])
  }

  ghost function MergeAll(cr: Criteria, st: MergeState, ids: seq<Id>): MergeState
    decreases ids
  {
    if ids == [] then st
    else MergeAll(cr, MergeRow(cr, st, ids[0], ids[1..]), ids[1..])
  }

  // ---- sums over the community table ----

  function Total(keys: seq<Id>, sizes: map<Id, nat>): nat {
    if keys == [] then 0 else SizeOf(sizes, keys[0]) + Total(keys[1..], sizes)
  }

  /** The initial members of every community whose root is `root`. */
  function TreeSize(h: History, keys: seq<Id>, initial: map<Id, nat>, root: Id): nat {
    if keys == [] then 0
    else (if Root(h, keys[0]) == root then SizeOf(initial, keys[0]) else 0)
         + TreeSize(h, keys[1..], initial, root)
  }

  lemma {:induction false} TotalUpdate(keys: seq<Id>, sizes: map<Id, nat>, key: Id, size: nat)
    requires Distinct(keys)
    ensures Total(keys, sizes[key := size]) + (if key in keys then SizeOf(sizes, key) else 0)
         == Total(keys, sizes) + (if key in keys then size else 0)
  {
    if keys != [] {
      TotalUpdate(keys[1..], sizes, key, size);
      assert forall i :: 0 <= i < |keys[1..]| ==> keys[1..][i] == keys[i + 1];
      assert keys[0] !in keys[1..];
    }
  }

  lemma {:induction false} TreeSizeSnoc(h: History, keys: seq<Id>, initial: map<Id, nat>, link: Link, root: Id)
    requires link.dissolved != link.keep
    ensures TreeSize(h + [link], keys, initial, root) ==
            if root == link.keep then TreeSize(h, keys, initial, link.keep) + TreeSize(h, keys, initial, link.dissolved)
            else if root == link.dissolved then 0
            else TreeSize(h, keys, initial, root)
  {
    if keys != [] {
      RootSnoc(h, link, keys[0]);
      TreeSizeSnoc(h, keys[1..], initial, link, root);
    }
  }

  lemma {:induction false} TreeSizeCountsItsRoot(h: History, keys: seq<Id>, initial: map<Id, nat>, root: Id)
    requires root in keys
    requires Root(h, root) == root
    ensures TreeSize(h, keys, initial, root) >= SizeOf(initial, root)
  {
    if keys[0] != root {
      TreeSizeCountsItsRoot(h, keys[1..], initial, root);
    }
  }

  lemma {:induction false} TreeSizeInitially(keys: seq<Id>, initial: map<Id, nat>, root: Id)
    requires Distinct(keys)
    ensures TreeSize([], keys, initial, root) == if root in keys then SizeOf(initial, root) else 0
  {
    if keys != [] {
      TreeSizeInitially(keys[1..], initial, root);
      assert forall i :: 0 <= i < |keys[1..]| ==> keys[1..][i] == keys[i + 1];
    }
  }

  function Pow2(n: nat): nat {
    if n == 0 then 1 else 2 * Pow2(n - 1)
  }

  // ---- what every merge keeps ----

  /** Communities without members have no average vector. */
  ghost predicate EmptyHasNoAverage(cr: Criteria, initial: map<Id, nat>) {
    forall c :: c in initial && initial[c] == 0 ==> AverageOf(cr, c) == []
  }

  /** Either no empty community is in play, or the threshold keeps empty ones from merging. */
  ghost predicate NoEmptyMerge(cr: Criteria, initial: map<Id, nat>) {
    || (forall c :: c in initial ==> initial[c] >= 1)
    || (cr.threshold >= 0.0 && EmptyHasNoAverage(cr, initial))
  }

  /** Sizes of roots are the sums over their trees; dissolved communities have size 0. */
  ghost predicate SizesAreTreeSums(keys: seq<Id>, initial: map<Id, nat>, st: MergeState) {
    && st.sizes.Keys == initial.Keys
    && forall c :: c in initial ==>
         st.sizes[c] == if c in MergedInto(st.history) then 0 else TreeSize(st.history, keys, initial, c)
  }

  /** The tree that `c` is in has at least two to the power of its depth members. */
  ghost predicate Shallow(st: MergeState, c: Id) {
    || Links(st.history, c) == 0
    || Pow2(Links(st.history, c)) <= SizeOf(st.sizes, Root(st.history, c))
  }

  ghost predicate DepthIsLogarithmic(initial: map<Id, nat>, st: MergeState) {
    forall c :: c in initial ==> Shallow(st, c)
  }

  ghost predicate LinksAreSimilar(cr: Criteria, h: History) {
    forall i :: 0 <= i < |h| ==> Similarity(cr, h[i].dissolved, h[i].keep) > cr.threshold
  }

  /** Communities merge only into listed communities. */
  ghost predicate KeepersListed(h: History, initial: map<Id, nat>) {
    forall i :: 0 <= i < |h| ==> h[i].keep in initial
  }

  lemma {:induction false} KeeperIsListed(h: History, initial: map<Id, nat>, d: Id)
    requires KeepersListed(h, initial)
    requires d in MergedInto(h)
    ensures MergedInto(h)[d] in initial
  {
    if d != h[|h| - 1].dissolved {
      KeeperIsListed(h[..|h| - 1], initial, d);
    }
  }

  ghost predicate ForestInvariant(cr: Criteria, keys: seq<Id>, initial: map<Id, nat>, st: MergeState) {
    && Distinct(keys)
    && (forall c :: c in initial <==> c in keys)
    && WellFormed(st.history)
    && (forall c :: c in initial ==> Root(st.history, c) in initial)
    && SizesAreTreeSums(keys, initial, st)
    && Total(keys, st.sizes) == Total(keys, initial)
    && LinksAreSimilar(cr, st.history)
    && KeepersListed(st.history, initial)
  }

  lemma InvariantInitially(cr: Criteria, keys: seq<Id>, initial: map<Id, nat>)
    requires Distinct(keys)
    requires forall c :: c in initial <==> c in keys
    ensures ForestInvariant(cr, keys, initial, MergeState([], initial))
    ensures DepthIsLogarithmic(initial, MergeState([], initial))
  {
    forall c | c in initial
      ensures initial[c] == TreeSize([], keys, initial, c)
    {
      TreeSizeInitially(keys, initial, c);
    }
  }

  /** `link` joins two different roots of the current forest. */
  ghost predicate JoinsRoots(initial: map<Id, nat>, h: History, link: Link) {
    && link.dissolved != link.keep
    && link.dissolved in initial && link.keep in initial
    && link.dissolved !in MergedInto(h) && link.keep !in MergedInto(h)
  }

  /** What is known of the two roots of a pair that is about to be merged. */
  lemma OrientedRoots(cr: Criteria, keys: seq<Id>, initial: map<Id, nat>, st: MergeState, left: Id, right: Id)
    requires ForestInvariant(cr, keys, initial, st)
    requires left in initial && right in initial
    requires Mergeable(cr, st.history, left, right)
    ensures var link := Orient(st.sizes, Root(st.history, left), Root(st.history, right));
            && JoinsRoots(initial, st.history, link)
            && Similarity(cr, link.dissolved, link.keep) > cr.threshold
            && SizeOf(st.sizes, link.dissolved) <= SizeOf(st.sizes, link.keep)
  {
    RootHasNoParent(st.history, left);
    RootHasNoParent(st.history, right);
    CosineSymmetric(cr.sqrt, AverageOf(cr, Root(st.history, left)), AverageOf(cr, Root(st.history, right)));
  }

  lemma JoinKeepsTreeSums(keys: seq<Id>, initial: map<Id, nat>, st: MergeState, link: Link)
    requires SizesAreTreeSums(keys, initial, st)
    requires JoinsRoots(initial, st.history, link)
    ensures SizesAreTreeSums(keys, initial, JoinTrees(st, link))
  {
    MergedIntoSnoc(st.history, link);
    forall c | c in initial
      ensures Absorb(st.sizes, link)[c] == if c in MergedInto(st.history + [link]) then 0
                                           else TreeSize(st.history + [link], keys, initial, c)
    {
      TreeSizeSnoc(st.history, keys, initial, link, c);
    }
  }

  lemma JoinConservesTotal(keys: seq<Id>, st: MergeState, link: Link)
    requires Distinct(keys)
    requires link.dissolved in keys && link.keep in keys && link.dissolved != link.keep
    ensures Total(keys, Absorb(st.sizes, link)) == Total(keys, st.sizes)
  {
    var grown := st.sizes[link.keep := SizeOf(st.sizes, link.keep) + SizeOf(st.sizes, link.dissolved)];
    TotalUpdate(keys, st.sizes, link.keep, SizeOf(st.sizes, link.keep) + SizeOf(st.sizes, link.dissolved));
    TotalUpdate(keys, grown, link.dissolved, 0);
  }

  lemma JoinKeepsRootsKnown(initial: map<Id, nat>, h: History, link: Link)
    requires forall c :: c in initial ==> Root(h, c) in initial
    requires link.keep in initial
    ensures forall c :: c in initial ==> Root(h + [link], c) in initial
  {
    forall c | c in initial
      ensures Root(h + [link], c) in initial
    {
      RootSnoc(h, link, c);
    }
  }

  lemma PairKeepsInvariant(cr: Criteria, keys: seq<Id>, initial: map<Id, nat>, st: MergeState, left: Id, right: Id)
    requires ForestInvariant(cr, keys, initial, st)
    requires left in initial && right in initial
    ensures ForestInvariant(cr, keys, initial, MergePair(cr, st, left, right))
  {
    hide SizesAreTreeSums, Total, Similarity, Root, MergedInto, WellFormed;
    if Mergeable(cr, st.history, left, right) {
      var link := Orient(st.sizes, Root(st.history, left), Root(st.history, right));
      OrientedRoots(cr, keys, initial, st, left, right);
      WellFormedSnoc(st.history, link);
      JoinKeepsTreeSums(keys, initial, st, link);
      JoinConservesTotal(keys, st, link);
      JoinKeepsRootsKnown(initial, st.history, link);
    }
  }

  /** A root that is about to be merged has a member. */
  lemma MergedRootHasMember(cr: Criteria, keys: seq<Id>, initial: map<Id, nat>, st: MergeState, root: Id, other: Id)
    requires SizesAreTreeSums(keys, initial, st)
    requires WellFormed(st.history) && NoEmptyMerge(cr, initial)
    requires root in initial && root in keys && root !in MergedInto(st.history)
    requires Similarity(cr, root, other) > cr.threshold
    ensures SizeOf(st.sizes, root) >= 1
  {
    RootHasNoParent(st.history, root);
    TreeSizeCountsItsRoot(st.history, keys, initial, root);
  }

  /** Union by size: the tree of every moved community at least doubles. */
  lemma JoinKeepsDepth(initial: map<Id, nat>, st: MergeState, link: Link, c: Id)
    requires WellFormed(st.history)
    requires JoinsRoots(initial, st.history, link)
    requires 1 <= SizeOf(st.sizes, link.dissolved) <= SizeOf(st.sizes, link.keep)
    requires Shallow(st, c)
    ensures Shallow(JoinTrees(st, link), c)
  {
    RootSnoc(st.history, link, c);
    RootHasNoParent(st.history, c);
  }

  lemma PairKeepsDepth(cr: Criteria, keys: seq<Id>, initial: map<Id, nat>, st: MergeState, left: Id, right: Id)
    requires ForestInvariant(cr, keys, initial, st)
    requires NoEmptyMerge(cr, initial)
    requires DepthIsLogarithmic(initial, st)
    requires left in initial && right in initial
    ensures DepthIsLogarithmic(initial, MergePair(cr, st, left, right))
  {
    if Mergeable(cr, st.history, left, right) {
      var link := Orient(st.sizes, Root(st.history, left), Root(st.history, right));
      OrientedRoots(cr, keys, initial, st, left, right);
      MergedRootHasMember(cr, keys, initial, st, link.dissolved, link.keep);
      forall c | c in initial
        ensures Shallow(JoinTrees(st, link), c)
      {
        JoinKeepsDepth(initial, st, link, c);
      }
    }
  }

  lemma {:induction false} RowKeepsDepth(cr: Criteria, keys: seq<Id>, initial: map<Id, nat>, st: MergeState, left: Id, rights: seq<Id>)
    requires ForestInvariant(cr, keys, initial, st)
    requires NoEmptyMerge(cr, initial)
    requires DepthIsLogarithmic(initial, st)
    requires left in initial && forall c :: c in rights ==> c in initial
    ensures DepthIsLogarithmic(initial, MergeRow(cr, st, left, rights))
    decreases rights
  {
    if rights != [] {
      PairKeepsInvariant(cr, keys, initial, st, left, rights[0]);
      PairKeepsDepth(cr, keys, initial, st, left, rights[0]);
      RowKeepsDepth(cr, keys, initial, MergePair(cr, st, left, rights[0]), left, rights[1..]);
    }
  }

  lemma {:induction false} RowKeepsInvariant(cr: Criteria, keys: seq<Id>, initial: map<Id, nat>, st: MergeState, left: Id, rights: seq<Id>)
    requires ForestInvariant(cr, keys, initial, st)
    requires left in initial && forall c :: c in rights ==> c in initial
    ensures ForestInvariant(cr, keys, initial, MergeRow(cr, st, left, rights))
    decreases rights
  {
    if rights != [] {
      PairKeepsInvariant(cr, keys, initial, st, left, rights[0]);
      RowKeepsInvariant(cr, keys, initial, MergePair(cr, st, left, rights[0]), left, rights[1..]);
    }
  }

  lemma {:induction false} AllKeepDepth(cr: Criteria, keys: seq<Id>, initial: map<Id, nat>, st: MergeState, ids: seq<Id>)
    requires ForestInvariant(cr, keys, initial, st)
    requires NoEmptyMerge(cr, initial)
    requires DepthIsLogarithmic(initial, st)
    requires forall c :: c in ids ==> c in initial
    ensures DepthIsLogarithmic(initial, MergeAll(cr, st, ids))
    decreases ids
  {
    if ids != [] {
      RowKeepsInvariant(cr, keys, initial, st, ids[0], ids[1..]);
      RowKeepsDepth(cr, keys, initial, st, ids[0], ids[1..]);
      AllKeepDepth(cr, keys, initial, MergeRow(cr, st, ids[0], ids[1..]), ids[1..]);
    }
  }

  lemma {:induction false} AllKeepInvariant(cr: Criteria, keys: seq<Id>, initial: map<Id, nat>, st: MergeState, ids: seq<Id>)
    requires ForestInvariant(cr, keys, initial, st)
    requires forall c :: c in ids ==> c in initial
    ensures ForestInvariant(cr, keys, initial, MergeAll(cr, st, ids))
    decreases ids
  {
    if ids != [] {
      RowKeepsInvariant(cr, keys, initial, st, ids[0], ids[1..]);
      AllKeepInvariant(cr, keys, initial, MergeRow(cr, st, ids[0], ids[1..]), ids[1..]);
    }
  }

  // ---- main results ----

  lemma {:induction false} SizeAtMostTotal(keys: seq<Id>, sizes: map<Id, nat>, c: Id)
    requires c in keys
    ensures SizeOf(sizes, c) <= Total(keys, sizes)
  {
    if keys[0] != c {
      SizeAtMostTotal(keys[1..], sizes, c);
    }
  }

  /** Over the whole double loop: the parent map is a forest, sizes are conserved and are the
      sums over the trees, and finding a root takes at most log2 of the member count. */
  lemma MergingBuildsShallowForest(cr: Criteria, keys: seq<Id>, initial: map<Id, nat>, ids: seq<Id>)
    requires Distinct(keys)
    requires forall c :: c in initial <==> c in keys
    requires forall c :: c in ids ==> c in initial
    ensures var end := MergeAll(cr, MergeState([], initial), ids);
            && ForestInvariant(cr, keys, initial, end)
            && (NoEmptyMerge(cr, initial) ==>
                forall c :: c in initial ==>
                  Links(end.history, c) == 0 || Pow2(Links(end.history, c)) <= Total(keys, initial))
  {
    var start := MergeState([], initial);
    var end := MergeAll(cr, start, ids);
    InvariantInitially(cr, keys, initial);
    AllKeepInvariant(cr, keys, initial, start, ids);
    if NoEmptyMerge(cr, initial) {
      AllKeepDepth(cr, keys, initial, start, ids);
      forall c | c in initial
        ensures Links(end.history, c) == 0 || Pow2(Links(end.history, c)) <= Total(keys, initial)
      {
        assert Shallow(end, c);
        SizeAtMostTotal(keys, end.sizes, Root(end.history, c));
      }
    }
  }

  /** A community that has no parent after some merges had none before them. */
  ghost predicate Extends(later: History, earlier: History) {
    earlier <= later && WellFormed(later)
  }

  lemma {:induction false} RootsWereRoots(later: History, earlier: History, c: Id)
    requires Extends(later, earlier)
    requires c !in MergedInto(later)
    ensures WellFormed(earlier) && c !in MergedInto(earlier)
    decreases |later|
  {
    if earlier == later {
    } else {
      var shorter := later[..|later| - 1];
      assert later == shorter + [later[|later| - 1]];
      MergedIntoSnoc(shorter, later[|later| - 1]);
      WellFormedSnoc(shorter, later[|later| - 1]);
      RootsWereRoots(shorter, earlier, c);
    }
  }

  ghost predicate Separated(cr: Criteria, h: History, left: Id, right: Id) {
    left != right && left !in MergedInto(h) && right !in MergedInto(h) ==>
      Similarity(cr, left, right) <= cr.threshold
  }

  lemma {:induction false} RowExtends(cr: Criteria, st: MergeState, left: Id, rights: seq<Id>)
    ensures st.history <= MergeRow(cr, st, left, rights).history
    decreases rights
  {
    if rights != [] {
      RowExtends(cr, MergePair(cr, st, left, rights[0]), left, rights[1..]);
    }
  }

  lemma {:induction false} AllExtend(cr: Criteria, st: MergeState, ids: seq<Id>)
    ensures st.history <= MergeAll(cr, st, ids).history
    decreases ids
  {
    if ids != [] {
      RowExtends(cr, st, ids[0], ids[1..]);
      AllExtend(cr, MergeRow(cr, st, ids[0], ids[1..]), ids[1..]);
    }
  }

  /** Once a pair was looked at, it can never again be two similar roots. */
  lemma PairSeparates(cr: Criteria, st: MergeState, left: Id, right: Id, later: History)
    requires Extends(later, MergePair(cr, st, left, right).history)
    ensures Separated(cr, later, left, right)
  {
    if left != right && left !in MergedInto(later) && right !in MergedInto(later) {
      RootsWereRoots(later, st.history, left);
      RootsWereRoots(later, st.history, right);
      RootHasNoParent(st.history, left);
      RootHasNoParent(st.history, right);
      if Mergeable(cr, st.history, left, right) {
        var link := Orient(st.sizes, left, right);
        MergedIntoSnoc(st.history, link);
        RootsWereRoots(later, st.history + [link], left);
        RootsWereRoots(later, st.history + [link], right);
        assert false;
      }
    }
  }

  lemma {:induction false} RowSeparates(cr: Criteria, st: MergeState, left: Id, rights: seq<Id>, later: History)
    requires Extends(later, MergeRow(cr, st, left, rights).history)
    ensures forall right :: right in rights ==> Separated(cr, later, left, right)
    decreases rights
  {
    if rights != [] {
      var next := MergePair(cr, st, left, rights[0]);
      RowExtends(cr, next, left, rights[1..]);
      PairSeparates(cr, st, left, rights[0], later);
      RowSeparates(cr, next, left, rights[1..], later);
    }
  }

  lemma {:induction false} AllSeparate(cr: Criteria, st: MergeState, ids: seq<Id>, later: History)
    requires Extends(later, MergeAll(cr, st, ids).history)
    ensures forall i, j :: 0 <= i < j < |ids| ==> Separated(cr, later, ids[i], ids[j])
    decreases ids
  {
    if ids != [] {
      var next := MergeRow(cr, st, ids[0], ids[1..]);
      AllExtend(cr, next, ids[1..]);
      RowSeparates(cr, st, ids[0], ids[1..], later);
      AllSeparate(cr, next, ids[1..], later);
      forall i, j | 0 <= i < j < |ids|
        ensures Separated(cr, later, ids[i], ids[j])
      {
        if i == 0 {
          assert ids[j] in ids[1..];
        } else {
          assert ids[1..][i - 1] == ids[i] && ids[1..][j - 1] == ids[j];
        }
      }
    }
  }

  /** When the double loop ends, no two surviving communities are similar, and every merge that
      was recorded joined two similar ones. */
  lemma SurvivorsAreSeparated(cr: Criteria, keys: seq<Id>, initial: map<Id, nat>, ids: seq<Id>, a: Id, b: Id)
    requires Distinct(keys)
    requires forall c :: c in initial <==> c in keys
    requires forall c :: c in ids ==> c in initial
    requires a in ids && b in ids && a != b
    ensures var h := MergeAll(cr, MergeState([], initial), ids).history;
            && (a !in MergedInto(h) && b !in MergedInto(h) ==> Similarity(cr, a, b) <= cr.threshold)
            && LinksAreSimilar(cr, h)
  {
    MergingBuildsShallowForest(cr, keys, initial, ids);
    var h := MergeAll(cr, MergeState([], initial), ids).history;
    AllSeparate(cr, MergeState([], initial), ids, h);
    var i :| 0 <= i < |ids| && ids[i] == a;
    var j :| 0 <= j < |ids| && ids[j] == b;
    CosineSymmetric(cr.sqrt, AverageOf(cr, a), AverageOf(cr, b));
    assert i < j ==> Separated(cr, h, ids[i], ids[j]);
    assert j < i ==> Separated(cr, h, ids[j], ids[i]);
  }

  /** One lookup agrees with the root exactly when no keeper of a non-empty community was itself
      dissolved later. */
  lemma OneHopIsRootIff(h: History, initial: map<Id, nat>)
    requires WellFormed(h)
    ensures (forall c :: c in initial && initial[c] > 0 ==> Hop(MergedInto(h), c) == Root(h, c))
       <==> (forall c :: c in initial && initial[c] > 0 && c in MergedInto(h) ==>
               MergedInto(h)[c] !in MergedInto(h))
  {
    var m := MergedInto(h);
    forall c | c in initial && initial[c] > 0
      ensures Hop(m, c) == Root(h, c) <==> (c in m ==> m[c] !in m)
    {
      RootHasNoParent(h, c);
      if c in m {
        ParentIsCloser(h, c);
        RootHasNoParent(h, m[c]);
      }
    }
  }

  // ---- a run in which one hop is not the root ----

  const EXAMPLE_IDS: seq<Id> := ["a", "b", "c"]
  const EXAMPLE_SIZES: map<Id, nat> := map["a" := 1, "b" := 1, "c" := 5]

  function ExampleCriteria(sqrt: real -> real): Criteria {
    Criteria(sqrt, map["a" := [1.0], "b" := [1.0], "c" := [1.0]], 0.85)
  }

  lemma ExampleAllAlike(sqrt: real -> real, x: Id, y: Id)
    requires sqrt(1.0) == 1.0
    requires x in EXAMPLE_SIZES && y in EXAMPLE_SIZES
    ensures Similarity(ExampleCriteria(sqrt), x, y) == 1.0
  {
  }

  lemma ExampleHistory(h: History)
    requires h == [Link("b", "a"), Link("a", "c")]
    ensures MergedInto(h) == map["b" := "a", "a" := "c"]
    ensures Root(h, "a") == "c" && Root(h, "b") == "c" && Root(h, "c") == "c"
  {
    MergedIntoSnoc([], h[0]);
    MergedIntoSnoc([h[0]], h[1]);
    assert [] + [h[0]] == [h[0]] && [h[0]] + [h[1]] == h;
    assert h[1..] == [h[1]] && h[1..][1..] == [];
    assert Root([], "c") == "c";
    assert Root([h[1]], "a") == Root([], "c");
    assert Root([h[1]], "c") == Root([], "c");
  }

  /** Three alike communities of sizes 1, 1 and 5: "a" absorbs "b" and is then dissolved into "c",
      so the member of "b" is left behind in "a", outside the only surviving root. */
  lemma KeeperDissolvedLater(sqrt: real -> real)
    requires sqrt(1.0) == 1.0
    ensures var h := MergeAll(ExampleCriteria(sqrt), MergeState([], EXAMPLE_SIZES), EXAMPLE_IDS).history;
            && h == [Link("b", "a"), Link("a", "c")]
            && Hop(MergedInto(h), "b") == "a"
            && Root(h, "b") == "c"
  {
    var cr := ExampleCriteria(sqrt);
    forall x, y | x in EXAMPLE_SIZES && y in EXAMPLE_SIZES
      ensures Similarity(cr, x, y) == 1.0
    {
      ExampleAllAlike(sqrt, x, y);
    }
    hide Similarity;
    var st0 := MergeState([], EXAMPLE_SIZES);
    var st1 := JoinTrees(st0, Link("b", "a"));
    var st2 := JoinTrees(st1, Link("a", "c"));
    assert MergePair(cr, st0, "a", "b") == st1;
    assert st1.history == [Link("b", "a")] && [Link("b", "a")][1..] == [];
    assert Root(st1.history, "a") == "a" && Root(st1.history, "c") == "c";
    assert MergePair(cr, st1, "a", "c") == st2;
    assert st2.history == [Link("b", "a"), Link("a", "c")];
    ExampleHistory(st2.history);
    assert MergePair(cr, st2, "b", "c") == st2;
    hide MergePair, Root, MergedInto;
    assert EXAMPLE_IDS[1..] == ["b", "c"] && ["b", "c"][1..] == ["c"] && ["c"][1..] == [];
    assert MergeRow(cr, st0, "a", ["b", "c"]) == MergeRow(cr, st1, "a", ["c"]) == MergeRow(cr, st2, "a", []);
    assert MergeRow(cr, st2, "b", ["c"]) == MergeRow(cr, st2, "b", []) == st2;
    assert MergeRow(cr, st2, "c", []) == st2;
    assert MergeAll(cr, st2, ["c"]) == MergeAll(cr, st2, []) == st2;
    assert MergeAll(cr, st2, ["b", "c"]) == st2;
  }
}
