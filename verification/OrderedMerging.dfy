// Merging communities in the order of their sizes: no keeper is dissolved later, so one lookup in the
// parent map always gives the root.

module OrderedMerging {
  import opened MemoryValues
  import opened Vectors
  import opened CommunityForest

  /** No community that took another one in was dissolved. */
  ghost predicate Flat(m: map<Id, Id>) {
    forall d :: d in m ==> m[d] !in m
  }

  /** A caller can see this before the merge. */
  ghost predicate LargestFirst(ids: seq<Id>, sizes: map<Id, nat>) {
    && Distinct(ids)
    && forall i, j :: 0 <= i < j < |ids| ==> SizeOf(sizes, ids[i]) >= SizeOf(sizes, ids[j])
  }

  lemma FlatRoots(h: History, c: Id)
    requires WellFormed(h) && Flat(MergedInto(h))
    ensures Root(h, c) == Hop(MergedInto(h), c) && Root(h, c) !in MergedInto(h)
  {
    RootHasNoParent(h, c);
    if c in MergedInto(h) {
      ParentIsCloser(h, c);
      RootHasNoParent(h, MergedInto(h)[c]);
    }
  }

  // ---- what holds between two rows ----

  /** Keepers are among the first `i` communities. */
  ghost predicate KeptEarly(m: map<Id, Id>, ids: seq<Id>, i: nat)
    requires i <= |ids|
  {
    forall d :: d in m ==> m[d] in ids[..i]
  }

  /** The first `i` communities, where they are roots, are not similar to any other root. */
  ghost predicate Apart(cr: Criteria, m: map<Id, Id>, ids: seq<Id>, i: nat)
    requires i <= |ids|
  {
    forall a, b :: 0 <= a < i && 0 <= b < |ids| && a != b && ids[a] !in m && ids[b] !in m ==>
                     Similarity(cr, ids[a], ids[b]) <= cr.threshold
  }

  /** The first `i` communities only grew; the others are as they were, unless they dissolved. */
  ghost predicate SizesKept(initial: map<Id, nat>, sizes: map<Id, nat>, m: map<Id, Id>, ids: seq<Id>, i: nat) {
    forall j :: 0 <= j < |ids| && ids[j] !in m ==>
                  if j < i then SizeOf(sizes, ids[j]) >= SizeOf(initial, ids[j]) else SizeOf(sizes, ids[j]) == SizeOf(initial, ids[j])
  }

  /** Within row `i`. */
  ghost predicate InRow(cr: Criteria, initial: map<Id, nat>, ids: seq<Id>, i: nat, st: MergeState)
    requires i < |ids|
  {
    var m := MergedInto(st.history);
    && WellFormed(st.history) && Flat(m) && KeptEarly(m, ids, i + 1) && Apart(cr, m, ids, i) && SizesKept(initial, st.sizes, m, ids, i + 1)
  }

  lemma SimilarBothWays(cr: Criteria, a: Id, b: Id)
    ensures Similarity(cr, a, b) == Similarity(cr, b, a)
  {
    CosineSymmetric(cr.sqrt, AverageOf(cr, a), AverageOf(cr, b));
  }

  /** An earlier root is similar to no other root. */
  lemma EarlyRootsApart(cr: Criteria, m: map<Id, Id>, ids: seq<Id>, i: nat, a: Id, b: Id)
    requires i <= |ids| && Apart(cr, m, ids, i)
    requires a in ids[..i] && b in ids && a != b && a !in m && b !in m
    ensures Similarity(cr, a, b) <= cr.threshold && Similarity(cr, b, a) <= cr.threshold
  {
    SimilarBothWays(cr, a, b);
    var x :| 0 <= x < i && ids[x] == a;
    var y :| 0 <= y < |ids| && ids[y] == b;
  }

  /** In row `i` only later communities that are still roots are merged, and into community `i`. */
  lemma OnlyIntoLeft(cr: Criteria, initial: map<Id, nat>, ids: seq<Id>, i: nat, j: nat, st: MergeState)
    requires LargestFirst(ids, initial) && i < j < |ids| && InRow(cr, initial, ids, i, st)
    requires Mergeable(cr, st.history, ids[i], ids[j])
    ensures ids[i] !in MergedInto(st.history) && ids[j] !in MergedInto(st.history)
    ensures Orient(st.sizes, Root(st.history, ids[i]), Root(st.history, ids[j])) == Link(ids[j], ids[i])
  {
    var m := MergedInto(st.history);
    FlatRoots(st.history, ids[i]);
    FlatRoots(st.history, ids[j]);
    var left, right := Hop(m, ids[i]), Hop(m, ids[j]);
    assert ids[..i + 1] == ids[..i] + [ids[i]];
    assert left in ids && right in ids;
    hide WellFormed, Similarity;
    if ids[i] in m {
      EarlyRootsApart(cr, m, ids, i, left, right);
    } else if ids[j] in m {
      EarlyRootsApart(cr, m, ids, i, right, left);
    }
  }

  lemma JoinStaysInRow(cr: Criteria, initial: map<Id, nat>, ids: seq<Id>, i: nat, j: nat, st: MergeState)
    requires LargestFirst(ids, initial) && i < j < |ids| && InRow(cr, initial, ids, i, st)
    requires ids[i] !in MergedInto(st.history) && ids[j] !in MergedInto(st.history)
    ensures InRow(cr, initial, ids, i, JoinTrees(st, Link(ids[j], ids[i])))
  {
    var link := Link(ids[j], ids[i]);
    WellFormedSnoc(st.history, link);
    MergedIntoSnoc(st.history, link);
    hide WellFormed, Similarity, MergedInto;
    assert ids[j] !in ids[..i + 1];
    assert ids[i] in ids[..i + 1];
  }

  lemma PairStaysInRow(cr: Criteria, initial: map<Id, nat>, ids: seq<Id>, i: nat, j: nat, st: MergeState)
    requires LargestFirst(ids, initial) && i < j < |ids| && InRow(cr, initial, ids, i, st)
    ensures InRow(cr, initial, ids, i, MergePair(cr, st, ids[i], ids[j]))
  {
    hide InRow, Mergeable, LargestFirst;
    if Mergeable(cr, st.history, ids[i], ids[j]) {
      OnlyIntoLeft(cr, initial, ids, i, j, st);
      JoinStaysInRow(cr, initial, ids, i, j, st);
    }
  }

  lemma {:induction false} RowStays(cr: Criteria, initial: map<Id, nat>, ids: seq<Id>, i: nat, j: nat, st: MergeState)
    requires LargestFirst(ids, initial) && i < j <= |ids| && InRow(cr, initial, ids, i, st)
    ensures InRow(cr, initial, ids, i, MergeRow(cr, st, ids[i], ids[j..]))
    decreases |ids| - j
  {
    hide InRow, LargestFirst;
    if j < |ids| {
      PairStaysInRow(cr, initial, ids, i, j, st);
      assert ids[j..][0] == ids[j] && ids[j..][1..] == ids[j + 1..];
      RowStays(cr, initial, ids, i, j + 1, MergePair(cr, st, ids[i], ids[j]));
    }
  }

  /** Before row `i`. */
  ghost predicate BeforeRow(cr: Criteria, initial: map<Id, nat>, ids: seq<Id>, i: nat, st: MergeState)
    requires i <= |ids|
  {
    var m := MergedInto(st.history);
    && WellFormed(st.history) && Flat(m) && KeptEarly(m, ids, i) && Apart(cr, m, ids, i) && SizesKept(initial, st.sizes, m, ids, i)
  }

  lemma RowBegins(cr: Criteria, initial: map<Id, nat>, ids: seq<Id>, i: nat, st: MergeState)
    requires i < |ids| && BeforeRow(cr, initial, ids, i, st)
    ensures InRow(cr, initial, ids, i, st)
  {
    hide WellFormed, Similarity, MergedInto;
    assert ids[..i + 1] == ids[..i] + [ids[i]];
  }

  lemma RowEnds(cr: Criteria, initial: map<Id, nat>, ids: seq<Id>, i: nat, was: MergeState, st: MergeState)
    requires LargestFirst(ids, initial) && i < |ids| && InRow(cr, initial, ids, i, st)
    requires st == MergeRow(cr, was, ids[i], ids[i + 1..])
    ensures BeforeRow(cr, initial, ids, i + 1, st)
  {
    var m := MergedInto(st.history);
    RowSeparates(cr, was, ids[i], ids[i + 1..], st.history);
    hide WellFormed, Similarity, MergedInto, MergeRow;
    forall a, b | 0 <= a < i + 1 && 0 <= b < |ids| && a != b && ids[a] !in m && ids[b] !in m
      ensures Similarity(cr, ids[a], ids[b]) <= cr.threshold
    {
      SimilarBothWays(cr, ids[a], ids[b]);
      if a == i && b > i {
        assert ids[i + 1..][b - i - 1] == ids[b];
        assert Separated(cr, st.history, ids[i], ids[b]);
      }
    }
  }

  lemma {:induction false} AllStayFlat(cr: Criteria, initial: map<Id, nat>, ids: seq<Id>, i: nat, st: MergeState)
    requires LargestFirst(ids, initial) && i <= |ids| && BeforeRow(cr, initial, ids, i, st)
    ensures var h := MergeAll(cr, st, ids[i..]).history; WellFormed(h) && Flat(MergedInto(h))
    decreases |ids| - i
  {
    if i < |ids| {
      hide BeforeRow, InRow, LargestFirst, WellFormed, Flat;
      assert ids[i..][0] == ids[i] && ids[i..][1..] == ids[i + 1..];
      var next := MergeRow(cr, st, ids[i], ids[i + 1..]);
      RowBegins(cr, initial, ids, i, st);
      RowStays(cr, initial, ids, i, i + 1, st);
      RowEnds(cr, initial, ids, i, st, next);
      AllStayFlat(cr, initial, ids, i + 1, next);
    }
  }

  /** If the communities are listed largest first, no keeper is ever dissolved: one lookup is always
      the root. */
  lemma LargestFirstReachesRoots(cr: Criteria, initial: map<Id, nat>, ids: seq<Id>)
    requires LargestFirst(ids, initial)
    ensures var h := MergeAll(cr, MergeState([], initial), ids).history;
            && Flat(MergedInto(h))
            && forall c :: Hop(MergedInto(h), c) == Root(h, c)
  {
    assert ids[0..] == ids;
    AllStayFlat(cr, initial, ids, 0, MergeState([], initial));
    var h := MergeAll(cr, MergeState([], initial), ids).history;
    forall c
      ensures Hop(MergedInto(h), c) == Root(h, c)
    {
      FlatRoots(h, c);
    }
  }
}
