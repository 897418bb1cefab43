/** Folding upserts into a table, and why doing it again changes nothing. */
module Upserts {
  import opened Options

  function Lookup<K, N>(m: map<K, N>, k: K): Option<N> {
    if k in m then Some(m[k]) else None
  }

  /** Upserts rows one after the other. */
  function Fold<K, R, N>(key: R -> K, upd: (Option<N>, R) -> N, m: map<K, N>, rows: seq<R>): map<K, N> {
    if rows == [] then m
    else
      var before := Fold(key, upd, m, rows[..|rows| - 1]);
      var row := rows[|rows| - 1];
      before[key(row) := upd(Lookup(before, key(row)), row)]
  }

  /** An upsert either overwrites a field, or moves it in one direction until the row has nothing
      to add. `settled` says that the row has nothing to add to the second kind; `stamp` overwrites
      the first kind. */
  ghost predicate Regular<R(!new), N(!new)>(upd: (Option<N>, R) -> N, settled: (N, R) -> bool, stamp: (N, R) -> N) {
    && (forall o, r :: settled(upd(o, r), r))
    && (forall n, r, other :: settled(n, r) ==> settled(upd(Some(n), other), r))
    && (forall n, r :: settled(n, r) ==> upd(Some(n), r) == stamp(n, r))
    && (forall n, a, b :: settled(n, a) && settled(n, b) ==> stamp(stamp(n, a), b) == stamp(n, b))
    && (forall o, r :: stamp(upd(o, r), r) == upd(o, r))
  }

  /** The last row for a key. */
  function LastFor<K(==), R>(key: R -> K, rows: seq<R>, k: K): Option<R> {
    if rows == [] then None
    else if key(rows[|rows| - 1]) == k then Some(rows[|rows| - 1])
    else LastFor(key, rows[..|rows| - 1], k)
  }

  lemma {:induction false} LastForKey<K, R>(key: R -> K, rows: seq<R>, k: K)
    ensures LastFor(key, rows, k).Some? ==> LastFor(key, rows, k).value in rows && key(LastFor(key, rows, k).value) == k
    ensures LastFor(key, rows, k).None? ==> forall r :: r in rows ==> key(r) != k
  {
    if rows != [] {
      LastForKey(key, rows[..|rows| - 1], k);
    }
  }

  /** After a fold, every row is settled and the last row of each key has left its stamp. */
  lemma {:induction false} FoldSettles<K, R(!new), N(!new)>(key: R -> K, upd: (Option<N>, R) -> N, settled: (N, R) -> bool,
                                                             stamp: (N, R) -> N, m: map<K, N>, rows: seq<R>)
    requires Regular(upd, settled, stamp)
    ensures var t := Fold(key, upd, m, rows);
            && (forall r :: r in rows ==> key(r) in t && settled(t[key(r)], r))
            && (forall k :: LastFor(key, rows, k).Some? ==> k in t && stamp(t[k], LastFor(key, rows, k).value) == t[k])
  {
    if rows != [] {
      var early, last := rows[..|rows| - 1], rows[|rows| - 1];
      FoldSettles(key, upd, settled, stamp, m, early);
      assert rows == early + [last];
    }
  }

  /** Folding rows that are all settled only stamps, and only the last stamp of a key counts. */
  lemma {:induction false} FoldStamps<K, R(!new), N(!new)>(key: R -> K, upd: (Option<N>, R) -> N, settled: (N, R) -> bool,
                                                            stamp: (N, R) -> N, t: map<K, N>, rows: seq<R>)
    requires Regular(upd, settled, stamp)
    requires forall r :: r in rows ==> key(r) in t && settled(t[key(r)], r)
    ensures var u := Fold(key, upd, t, rows);
            && u.Keys == t.Keys
            && (forall k :: k in t ==>
                  u[k] == if LastFor(key, rows, k).Some? then stamp(t[k], LastFor(key, rows, k).value) else t[k])
  {
    if rows != [] {
      var early, last := rows[..|rows| - 1], rows[|rows| - 1];
      assert rows == early + [last];
      FoldStamps(key, upd, settled, stamp, t, early);
      var u, k := Fold(key, upd, t, early), key(last);
      LastForKey(key, early, k);
      assert settled(t[k], last);
      match LastFor(key, early, k)
      case None =>
      case Some(r) =>
        assert settled(t[k], r);
        assert upd(Some(t[k]), r) == stamp(t[k], r);
        assert settled(stamp(t[k], r), last);
        assert upd(Some(u[k]), last) == stamp(u[k], last);
    }
  }

  /** Upserting the same rows twice is upserting them once, repeated keys included. */
  lemma FoldTwice<K, R(!new), N(!new)>(key: R -> K, upd: (Option<N>, R) -> N, settled: (N, R) -> bool, stamp: (N, R) -> N,
                                       m: map<K, N>, rows: seq<R>)
    requires Regular(upd, settled, stamp)
    ensures Fold(key, upd, Fold(key, upd, m, rows), rows) == Fold(key, upd, m, rows)
  {
    var t := Fold(key, upd, m, rows);
    FoldSettles(key, upd, settled, stamp, m, rows);
    FoldStamps(key, upd, settled, stamp, t, rows);
    var u := Fold(key, upd, t, rows);
    forall k | k in t
      ensures u[k] == t[k]
    {
      assert LastFor(key, rows, k).Some? ==> stamp(t[k], LastFor(key, rows, k).value) == t[k];
    }
  }

  lemma {:induction false} FoldElsewhere<K, R, N>(key: R -> K, upd: (Option<N>, R) -> N, m: map<K, N>, rows: seq<R>, k: K)
    requires forall r :: r in rows ==> key(r) != k
    ensures Lookup(Fold(key, upd, m, rows), k) == Lookup(m, k)
  {
    if rows != [] {
      FoldElsewhere(key, upd, m, rows[..|rows| - 1], k);
    }
  }

  /** Where no other row has its key, a row meets what was stored before. */
  lemma {:induction false} FoldOnce<K, R, N>(key: R -> K, upd: (Option<N>, R) -> N, m: map<K, N>, rows: seq<R>, n: nat)
    requires n < |rows| && forall i :: 0 <= i < |rows| && i != n ==> key(rows[i]) != key(rows[n])
    ensures Lookup(Fold(key, upd, m, rows), key(rows[n])) == Some(upd(Lookup(m, key(rows[n])), rows[n]))
  {
    var early := rows[..|rows| - 1];
    if n == |early| {
      FoldElsewhere(key, upd, m, early, key(rows[n]));
    } else {
      FoldOnce(key, upd, m, early, n);
    }
  }
}
