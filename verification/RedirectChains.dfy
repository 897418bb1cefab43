// Redirects between ids while a batch is merged: which chains they form, and when every chain ends
// at the id of the right representative.

module RedirectChains {
  import opened MemoryValues

  // ---- following redirects ----

  /** Following redirects from `id` stops at `end`. */
  ghost predicate Resolves(r: map<Id, Id>, id: Id, end: Id) {
    end !in r && exists n: nat :: Follow(r, id, n) == end
  }

  lemma ResolvesItself(r: map<Id, Id>, id: Id)
    requires id !in r
    ensures Resolves(r, id, id)
  {
    assert Follow(r, id, 0) == id;
  }

  lemma ResolvesInOne(r: map<Id, Id>, id: Id, end: Id)
    requires id in r && r[id] == end && end !in r
    ensures Resolves(r, id, end)
  {
    assert Follow(r, id, 1) == Follow(r, end, 0) == end;
  }

  lemma ResolvesThrough(r: map<Id, Id>, id: Id, end: Id)
    requires id in r && Resolves(r, r[id], end)
    ensures Resolves(r, id, end)
  {
    var n: nat :| Follow(r, r[id], n) == end;
    assert Follow(r, id, n + 1) == end;
  }

  lemma {:induction false} OneEnd(r: map<Id, Id>, id: Id, m: nat, n: nat)
    requires Follow(r, id, m) !in r && Follow(r, id, n) !in r
    ensures Follow(r, id, m) == Follow(r, id, n)
    decreases m
  {
    if m > 0 && n > 0 && id in r {
      OneEnd(r, r[id], m - 1, n - 1);
    }
  }

  /** A chain has one end at most. */
  lemma ResolvesOnce(r: map<Id, Id>, id: Id, a: Id, b: Id)
    requires Resolves(r, id, a) && Resolves(r, id, b)
    ensures a == b
  {
    var m: nat :| Follow(r, id, m) == a;
    var n: nat :| Follow(r, id, n) == b;
    OneEnd(r, id, m, n);
  }

  lemma EndIs(r: map<Id, Id>, id: Id, n: nat)
    requires Follow(r, id, n) !in r
    ensures Resolves(r, id, Follow(r, id, n))
  {
  }

  lemma {:induction false} JoinedFrom(r: map<Id, Id>, a: Id, c: Id, id: Id, n: nat)
    requires c !in r && a != c && (a !in r || Resolves(r, a, c))
    requires Follow(r, id, n) !in r
    ensures var end := Follow(r, id, n); Resolves(r[a := c], id, if end == a then c else end)
    decreases n
  {
    var end := Follow(r, id, n);
    hide Resolves;
    if id == a {
      if a in r {
        EndIs(r, a, n);
        ResolvesOnce(r, a, end, c);
      }
      ResolvesInOne(r[a := c], a, c);
    } else if id in r {
      JoinedFrom(r, a, c, r[id], n - 1);
      ResolvesThrough(r[a := c], id, if end == a then c else end);
    } else {
      ResolvesItself(r[a := c], id);
    }
  }

  /** Redirecting `a` to `c`, where `a` was not redirected or led to `c` already, moves on exactly the
      chains that ended at `a`. */
  lemma RedirectMovesChains(r: map<Id, Id>, a: Id, c: Id, id: Id, end: Id)
    requires c !in r && a != c && (a !in r || Resolves(r, a, c))
    requires Resolves(r, id, end)
    ensures Resolves(r[a := c], id, if end == a then c else end)
  {
    var n: nat :| Follow(r, id, n) == end;
    JoinedFrom(r, a, c, id, n);
  }

  lemma {:induction false} TakenOverFrom(r: map<Id, Id>, c: Id, a: Id, id: Id, n: nat)
    requires c !in r && a != c && (a !in r || Resolves(r, a, c))
    requires Follow(r, id, n) !in r
    ensures var end := Follow(r, id, n); Resolves((r - {a})[c := a], id, if end == c then a else end)
    decreases n
  {
    var end, r' := Follow(r, id, n), (r - {a})[c := a];
    hide Resolves;
    if id == a {
      if a in r {
        EndIs(r, a, n);
        ResolvesOnce(r, a, end, c);
      }
      ResolvesItself(r', a);
    } else if id == c {
      ResolvesInOne(r', c, a);
    } else if id in r {
      TakenOverFrom(r, c, a, r[id], n - 1);
      ResolvesThrough(r', id, if end == c then a else end);
    } else {
      ResolvesItself(r', id);
    }
  }

  /** Letting `a` take over from `c`, where `a` was not redirected or led to `c`, turns the chains
      that ended at `c` to `a`, and no other. */
  lemma TakingOverTurnsChains(r: map<Id, Id>, c: Id, a: Id, id: Id, end: Id)
    requires c !in r && a != c && (a !in r || Resolves(r, a, c))
    requires Resolves(r, id, end)
    ensures Resolves((r - {a})[c := a], id, if end == c then a else end)
  {
    var n: nat :| Follow(r, id, n) == end;
    TakenOverFrom(r, c, a, id, n);
  }

  // ---- the redirects of a batch ----

  function IdIn<T>(idOf: map<T, Id>, e: T): Id {
    if e in idOf then idOf[e] else ""
  }

  function IdsIn<T>(idOf: map<T, Id>, objects: seq<T>): (ids: seq<Id>)
    ensures |ids| == |objects| && forall i :: 0 <= i < |objects| ==> ids[i] == IdIn(idOf, objects[i])
  {
    seq(|objects|, i requires 0 <= i < |objects| => IdIn(idOf, objects[i]))
  }

  ghost function IdSet<T>(idOf: map<T, Id>, objects: seq<T>): set<Id> {
    set e | e in objects :: IdIn(idOf, e)
  }

  /** The sequence with one value in the place of another. */
  function Relabeled<T(==)>(items: seq<T>, was: T, next: T): (r: seq<T>)
    ensures |r| == |items|
    ensures forall i :: 0 <= i < |items| ==> r[i] == if items[i] == was then next else items[i]
  {
    seq(|items|, i requires 0 <= i < |items| => if items[i] == was then next else items[i])
  }

  /** Positions with one id have one representative. */
  ghost predicate OneRepPerId<T>(ids: seq<Id>, rep: seq<T>)
    requires |rep| <= |ids|
  {
    forall i, j :: 0 <= i < |rep| && 0 <= j < |rep| && ids[i] == ids[j] ==> rep[i] == rep[j]
  }

  /** The redirects of ids that no canonical object has. */
  ghost function Open<T>(redirects: map<Id, Id>, idOf: map<T, Id>, canon: seq<T>): map<Id, Id> {
    redirects - IdSet(idOf, canon)
  }

  /** The canonical objects of the part of a batch already seen, and who represents whom. */
  ghost predicate Grouped<T>(batch: seq<T>, canon: seq<T>, rep: seq<T>, idOf: map<T, Id>) {
    && |rep| <= |batch| && Distinct(batch) && Distinct(canon)
    && (forall c :: c in canon ==> c in batch[..|rep|])
    && (forall i :: 0 <= i < |rep| ==> rep[i] in canon)
    && (forall c, d :: c in canon && d in canon && IdIn(idOf, c) == IdIn(idOf, d) ==> c == d)
  }

  /** Only ids of objects that are not canonical are redirected. */
  ghost predicate KeysSeen<T>(batch: seq<T>, canon: seq<T>, k: nat, idOf: map<T, Id>, redirects: map<Id, Id>)
    requires k <= |batch|
  {
    forall id :: id in redirects ==> exists i :: 0 <= i < k && IdIn(idOf, batch[i]) == id && batch[i] !in canon
  }

  /** The chain of each position ends at the id of its representative. */
  ghost predicate AllResolve<T>(batch: seq<T>, rep: seq<T>, idOf: map<T, Id>, r: map<Id, Id>)
    requires |rep| <= |batch|
  {
    forall i :: 0 <= i < |rep| ==> Resolves(r, IdIn(idOf, batch[i]), IdIn(idOf, rep[i]))
  }

  /** While positions with one id have one representative, the chain of each position stops at the id
      of its representative, if chains are cut off at canonical ids. */
  ghost predicate Chains<T>(batch: seq<T>, canon: seq<T>, rep: seq<T>, idOf: map<T, Id>, redirects: map<Id, Id>) {
    && |rep| <= |batch|
    && KeysSeen(batch, canon, |rep|, idOf, redirects)
    && (OneRepPerId(IdsIn(idOf, batch), rep) ==> AllResolve(batch, rep, idOf, Open(redirects, idOf, canon)))
  }

  /** Where the next position agrees with all earlier ones of its id, so did the earlier ones. */
  lemma OneRepBefore<T>(ids: seq<Id>, rep: seq<T>, rep': seq<T>)
    requires |rep| + 1 == |rep'| <= |ids| && OneRepPerId(ids, rep')
    requires forall i, j :: 0 <= i < |rep| && 0 <= j < |rep| && rep'[i] == rep'[j] ==> rep[i] == rep[j]
    ensures OneRepPerId(ids, rep)
    ensures forall i :: 0 <= i < |rep| && ids[i] == ids[|rep|] ==> rep'[i] == rep'[|rep|]
  {
  }

  lemma NextIsUnseen<T>(batch: seq<T>, canon: seq<T>, rep: seq<T>, idOf: map<T, Id>)
    requires Grouped(batch, canon, rep, idOf) && |rep| < |batch|
    ensures batch[|rep|] !in canon && batch[|rep|] !in rep
    ensures forall i :: 0 <= i < |rep| ==> batch[i] != batch[|rep|]
  {
    assert batch[|rep|] !in batch[..|rep|];
  }

  /** An id whose positions all belong with `c` leads to `c` if it is redirected. */
  lemma SeenLeads<T>(batch: seq<T>, canon: seq<T>, rep: seq<T>, idOf: map<T, Id>, redirects: map<Id, Id>, id: Id, c: T)
    requires |rep| <= |batch| && KeysSeen(batch, canon, |rep|, idOf, redirects)
    requires AllResolve(batch, rep, idOf, Open(redirects, idOf, canon))
    requires forall i :: 0 <= i < |rep| && IdIn(idOf, batch[i]) == id ==> rep[i] == c
    ensures id in redirects ==> Resolves(Open(redirects, idOf, canon), id, IdIn(idOf, c))
  {
    hide Resolves, Open;
  }

  lemma CanonicalIds<T>(canon: seq<T>, idOf: map<T, Id>, redirects: map<Id, Id>)
    ensures forall c :: c in canon ==> IdIn(idOf, c) in IdSet(idOf, canon) && IdIn(idOf, c) !in Open(redirects, idOf, canon)
    ensures forall id :: id in Open(redirects, idOf, canon) ==> id in redirects
  {
  }

  lemma JoinOpens<T>(canon: seq<T>, idOf: map<T, Id>, redirects: map<Id, Id>, id: Id, to: Id)
    requires forall d :: d in canon ==> IdIn(idOf, d) != id
    ensures Open(redirects[id := to], idOf, canon) == Open(redirects, idOf, canon)[id := to]
  {
  }

  lemma JoinResolves<T>(batch: seq<T>, canon: seq<T>, rep: seq<T>, idOf: map<T, Id>, redirects: map<Id, Id>, c: T)
    requires |rep| < |batch| && c in canon && forall i :: 0 <= i < |rep| ==> rep[i] in canon
    requires forall d :: d in canon && IdIn(idOf, d) == IdIn(idOf, batch[|rep|]) ==> d == c
    requires AllResolve(batch, rep, idOf, Open(redirects, idOf, canon))
    requires IdIn(idOf, batch[|rep|]) in redirects ==> Resolves(Open(redirects, idOf, canon), IdIn(idOf, batch[|rep|]), IdIn(idOf, c))
    ensures var id, to := IdIn(idOf, batch[|rep|]), IdIn(idOf, c);
            AllResolve(batch, rep + [c], idOf, Open(if id != to then redirects[id := to] else redirects, idOf, canon))
  {
    var id, to, rep', open := IdIn(idOf, batch[|rep|]), IdIn(idOf, c), rep + [c], Open(redirects, idOf, canon);
    CanonicalIds(canon, idOf, redirects);
    if id != to {
      JoinOpens(canon, idOf, redirects, id, to);
    }
    hide Resolves, Open;
    var open' := if id != to then open[id := to] else open;
    forall i | 0 <= i < |rep'|
      ensures Resolves(open', IdIn(idOf, batch[i]), IdIn(idOf, rep'[i]))
    {
      if i == |rep| {
        if id == to {
          ResolvesItself(open, id);
        } else {
          ResolvesInOne(open', id, to);
        }
      } else if id != to {
        RedirectMovesChains(open, id, to, IdIn(idOf, batch[i]), IdIn(idOf, rep[i]));
      }
    }
  }

  /** The next object is represented by the canonical object `c`. */
  lemma ChainsJoin<T>(batch: seq<T>, canon: seq<T>, rep: seq<T>, idOf: map<T, Id>, redirects: map<Id, Id>, c: T)
    requires Grouped(batch, canon, rep, idOf) && Chains(batch, canon, rep, idOf, redirects)
    requires |rep| < |batch| && c in canon
    requires forall d :: d in canon && IdIn(idOf, d) == IdIn(idOf, batch[|rep|]) ==> d == c
    ensures var id, to := IdIn(idOf, batch[|rep|]), IdIn(idOf, c);
            Chains(batch, canon, rep + [c], idOf, if id != to then redirects[id := to] else redirects)
  {
    var ids, rep' := IdsIn(idOf, batch), rep + [c];
    NextIsUnseen(batch, canon, rep, idOf);
    CanonicalIds(canon, idOf, redirects);
    hide Resolves, Open, OneRepPerId, AllResolve;
    if OneRepPerId(ids, rep') {
      OneRepBefore(ids, rep, rep');
      SeenLeads(batch, canon, rep, idOf, redirects, ids[|rep|], c);
      JoinResolves(batch, canon, rep, idOf, redirects, c);
    }
  }

  lemma StartOpens<T>(canon: seq<T>, idOf: map<T, Id>, redirects: map<Id, Id>, e: T)
    requires IdIn(idOf, e) !in redirects
    ensures Open(redirects, idOf, canon + [e]) == Open(redirects, idOf, canon)
  {
  }

  lemma StartResolves<T>(batch: seq<T>, canon: seq<T>, rep: seq<T>, idOf: map<T, Id>, redirects: map<Id, Id>)
    requires |rep| < |batch| && IdIn(idOf, batch[|rep|]) !in redirects
    requires AllResolve(batch, rep, idOf, Open(redirects, idOf, canon))
    ensures AllResolve(batch, rep + [batch[|rep|]], idOf, Open(redirects, idOf, canon + [batch[|rep|]]))
  {
    var e := batch[|rep|];
    StartOpens(canon, idOf, redirects, e);
    CanonicalIds(canon + [e], idOf, redirects);
    hide Open, Resolves;
    ResolvesItself(Open(redirects, idOf, canon + [e]), IdIn(idOf, e));
  }

  lemma StartKeepsKeys<T>(batch: seq<T>, canon: seq<T>, k: nat, idOf: map<T, Id>, redirects: map<Id, Id>)
    requires k < |batch| && KeysSeen(batch, canon, k, idOf, redirects)
    requires forall i :: 0 <= i < k ==> batch[i] != batch[k]
    ensures KeysSeen(batch, canon + [batch[k]], k + 1, idOf, redirects)
  {
    forall id | id in redirects
      ensures exists i :: 0 <= i < k + 1 && IdIn(idOf, batch[i]) == id && batch[i] !in canon + [batch[k]]
    {
      var i :| 0 <= i < k && IdIn(idOf, batch[i]) == id && batch[i] !in canon;
      assert batch[i] !in canon + [batch[k]];
    }
  }

  /** The next object represents itself. */
  lemma ChainsStart<T>(batch: seq<T>, canon: seq<T>, rep: seq<T>, idOf: map<T, Id>, redirects: map<Id, Id>)
    requires Grouped(batch, canon, rep, idOf) && Chains(batch, canon, rep, idOf, redirects)
    requires |rep| < |batch|
    ensures Chains(batch, canon + [batch[|rep|]], rep + [batch[|rep|]], idOf, redirects)
  {
    var ids, e := IdsIn(idOf, batch), batch[|rep|];
    var canon', rep' := canon + [e], rep + [e];
    NextIsUnseen(batch, canon, rep, idOf);
    StartKeepsKeys(batch, canon, |rep|, idOf, redirects);
    hide AllResolve, Open;
    if OneRepPerId(ids, rep') {
      OneRepBefore(ids, rep, rep');
      hide OneRepPerId;
      assert ids[|rep|] !in redirects;
      StartResolves(batch, canon, rep, idOf, redirects);
    }
  }

  lemma SwapOpens<T>(canon: seq<T>, idOf: map<T, Id>, redirects: map<Id, Id>, at: nat, e: T)
    requires Distinct(canon) && at < |canon|
    requires forall c, d :: c in canon && d in canon && IdIn(idOf, c) == IdIn(idOf, d) ==> c == d
    requires forall d :: d in canon ==> IdIn(idOf, d) != IdIn(idOf, e)
    ensures var id, from := IdIn(idOf, e), IdIn(idOf, canon[at]);
            Open(redirects[from := id], idOf, canon[at := e]) == (Open(redirects, idOf, canon) - {id})[from := id]
  {
    var was, canon' := canon[at], canon[at := e];
    assert canon'[at] == e && was in canon;
    forall d | d in canon && d != was
      ensures d in canon'
    {
      var i :| 0 <= i < |canon| && canon[i] == d;
      assert canon'[i] == d;
    }
    assert forall d :: d in canon' ==> d == e || (d in canon && d != was);
    assert IdSet(idOf, canon') == IdSet(idOf, canon) - {IdIn(idOf, was)} + {IdIn(idOf, e)};
  }

  lemma SwapResolves<T>(batch: seq<T>, canon: seq<T>, rep: seq<T>, idOf: map<T, Id>, redirects: map<Id, Id>, at: nat)
    requires Grouped(batch, canon, rep, idOf) && |rep| < |batch| && at < |canon|
    requires forall d :: d in canon ==> IdIn(idOf, d) != IdIn(idOf, batch[|rep|])
    requires AllResolve(batch, rep, idOf, Open(redirects, idOf, canon))
    requires IdIn(idOf, batch[|rep|]) in redirects ==> Resolves(Open(redirects, idOf, canon), IdIn(idOf, batch[|rep|]), IdIn(idOf, canon[at]))
    ensures var e := batch[|rep|];
            AllResolve(batch, Relabeled(rep, canon[at], e) + [e], idOf,
                       Open(redirects[IdIn(idOf, canon[at]) := IdIn(idOf, e)], idOf, canon[at := e]))
  {
    var e, was, open := batch[|rep|], canon[at], Open(redirects, idOf, canon);
    var id, from, rep' := IdIn(idOf, e), IdIn(idOf, was), Relabeled(rep, was, e) + [e];
    CanonicalIds(canon, idOf, redirects);
    SwapOpens(canon, idOf, redirects, at, e);
    var open' := (open - {id})[from := id];
    hide Resolves, Open;
    forall i | 0 <= i < |rep'|
      ensures Resolves(open', IdIn(idOf, batch[i]), IdIn(idOf, rep'[i]))
    {
      if i < |rep| {
        assert rep[i] in canon && was in canon;
        TakingOverTurnsChains(open, from, id, IdIn(idOf, batch[i]), IdIn(idOf, rep[i]));
      } else {
        ResolvesItself(open', id);
      }
    }
  }

  lemma SwapKeepsKeys<T>(batch: seq<T>, canon: seq<T>, rep: seq<T>, idOf: map<T, Id>, redirects: map<Id, Id>, at: nat)
    requires Grouped(batch, canon, rep, idOf) && KeysSeen(batch, canon, |rep|, idOf, redirects)
    requires |rep| < |batch| && at < |canon|
    ensures KeysSeen(batch, canon[at := batch[|rep|]], |rep| + 1, idOf, redirects[IdIn(idOf, canon[at]) := IdIn(idOf, batch[|rep|])])
  {
    var e, was := batch[|rep|], canon[at];
    NextIsUnseen(batch, canon, rep, idOf);
    assert was in canon;
    forall id | id in redirects || id == IdIn(idOf, was)
      ensures exists i :: 0 <= i < |rep| + 1 && IdIn(idOf, batch[i]) == id && batch[i] !in canon[at := e]
    {
      if id == IdIn(idOf, was) {
        var i :| 0 <= i < |rep| && batch[i] == was;
        assert batch[i] !in canon[at := e];
      } else {
        var i :| 0 <= i < |rep| && IdIn(idOf, batch[i]) == id && batch[i] !in canon;
        assert batch[i] !in canon[at := e];
      }
    }
  }

  /** The next object takes over from the canonical object at `at`. */
  lemma ChainsSwap<T>(batch: seq<T>, canon: seq<T>, rep: seq<T>, idOf: map<T, Id>, redirects: map<Id, Id>, at: nat)
    requires Grouped(batch, canon, rep, idOf) && Chains(batch, canon, rep, idOf, redirects)
    requires |rep| < |batch| && at < |canon|
    requires forall d :: d in canon ==> IdIn(idOf, d) != IdIn(idOf, batch[|rep|])
    ensures var e := batch[|rep|];
            Chains(batch, canon[at := e], Relabeled(rep, canon[at], e) + [e], idOf, redirects[IdIn(idOf, canon[at]) := IdIn(idOf, e)])
  {
    var ids, e, was := IdsIn(idOf, batch), batch[|rep|], canon[at];
    var rep' := Relabeled(rep, was, e) + [e];
    NextIsUnseen(batch, canon, rep, idOf);
    SwapKeepsKeys(batch, canon, rep, idOf, redirects, at);
    hide Resolves, Open, AllResolve, KeysSeen;
    if OneRepPerId(ids, rep') {
      OneRepBefore(ids, rep, rep');
      hide OneRepPerId;
      SeenLeads(batch, canon, rep, idOf, redirects, ids[|rep|], was);
      SwapResolves(batch, canon, rep, idOf, redirects, at);
    }
  }

  // ---- a finished batch ----

  lemma EndsUnredirected(r: map<Id, Id>, id: Id, end: Id)
    requires Resolves(r, id, end)
    ensures end !in r
  {
  }

  lemma ResolvingNeeds<T>(batch: seq<T>, canon: seq<T>, rep: seq<T>, idOf: map<T, Id>, redirects: map<Id, Id>)
    requires Grouped(batch, canon, rep, idOf)
    requires |rep| == |batch| && forall c :: c in canon ==> c in rep
    requires AllResolve(batch, rep, idOf, redirects)
    ensures (forall c :: c in canon ==> IdIn(idOf, c) !in redirects) && OneRepPerId(IdsIn(idOf, batch), rep)
  {
    hide Resolves;
    forall c | c in canon
      ensures IdIn(idOf, c) !in redirects
    {
      var i :| 0 <= i < |rep| && rep[i] == c;
      EndsUnredirected(redirects, IdIn(idOf, batch[i]), IdIn(idOf, c));
    }
    forall i, j | 0 <= i < |rep| && 0 <= j < |rep| && IdIn(idOf, batch[i]) == IdIn(idOf, batch[j])
      ensures rep[i] == rep[j]
    {
      ResolvesOnce(redirects, IdIn(idOf, batch[i]), IdIn(idOf, rep[i]), IdIn(idOf, rep[j]));
    }
  }

  /** Every chain ends at the id of its representative exactly when no survivor's id was redirected
      and entities with one id ended in one group. */
  lemma AllResolveIff<T>(batch: seq<T>, canon: seq<T>, rep: seq<T>, idOf: map<T, Id>, redirects: map<Id, Id>)
    requires Grouped(batch, canon, rep, idOf) && Chains(batch, canon, rep, idOf, redirects)
    requires |rep| == |batch| && forall c :: c in canon ==> c in rep
    ensures AllResolve(batch, rep, idOf, redirects)
       <==> (forall c :: c in canon ==> IdIn(idOf, c) !in redirects) && OneRepPerId(IdsIn(idOf, batch), rep)
  {
    hide Resolves, KeysSeen;
    if AllResolve(batch, rep, idOf, redirects) {
      ResolvingNeeds(batch, canon, rep, idOf, redirects);
    } else if forall c :: c in canon ==> IdIn(idOf, c) !in redirects {
      assert Open(redirects, idOf, canon) == redirects;
    }
  }

  lemma DistinctOneRep<T>(ids: seq<Id>, rep: seq<T>)
    requires |rep| <= |ids| && Distinct(ids)
    ensures OneRepPerId(ids, rep)
  {
    forall i, j | 0 <= i < |rep| && 0 <= j < |rep| && ids[i] == ids[j]
      ensures rep[i] == rep[j]
    {
      assert !(i < j) && !(j < i);
    }
  }

  lemma SurvivorsUnredirected<T>(batch: seq<T>, canon: seq<T>, idOf: map<T, Id>, redirects: map<Id, Id>)
    requires KeysSeen(batch, canon, |batch|, idOf, redirects)
    requires Distinct(IdsIn(idOf, batch)) && forall c :: c in canon ==> c in batch
    ensures forall c :: c in canon ==> IdIn(idOf, c) !in redirects
  {
    var ids := IdsIn(idOf, batch);
    forall c | c in canon
      ensures IdIn(idOf, c) !in redirects
    {
      var j :| 0 <= j < |batch| && batch[j] == c;
      assert forall i :: 0 <= i < |batch| && i != j ==> ids[i] != ids[j];
    }
  }

  /** With distinct ids every chain ends right. */
  lemma DistinctIdsResolve<T>(batch: seq<T>, canon: seq<T>, rep: seq<T>, idOf: map<T, Id>, redirects: map<Id, Id>)
    requires Grouped(batch, canon, rep, idOf) && Chains(batch, canon, rep, idOf, redirects)
    requires |rep| == |batch| && forall c :: c in canon ==> c in rep
    requires Distinct(IdsIn(idOf, batch))
    ensures AllResolve(batch, rep, idOf, redirects)
  {
    hide AllResolve, Open;
    SurvivorsUnredirected(batch, canon, idOf, redirects);
    hide KeysSeen;
    DistinctOneRep(IdsIn(idOf, batch), rep);
    AllResolveIff(batch, canon, rep, idOf, redirects);
  }

  // ---- a batch whose chains run in a circle ----

  lemma {:induction false} BackAndForth(r: map<Id, Id>, n: nat)
    requires r == map["1" := "2", "2" := "1"]
    ensures Follow(r, "1", n) in r && Follow(r, "2", n) in r
    decreases n
  {
    if n > 0 {
      BackAndForth(r, n - 1);
    }
  }

  /** Three entities with ids "1", "2" and "1" again, where the second takes over from the first and
      the third from the second: the redirects of "1" and "2" lead to each other. */
  lemma SwappingBackLeadsNowhere(end: Id)
    ensures var redirects: map<Id, Id> := map[]["1" := "2"]["2" := "1"];
            !Resolves(redirects, "1", end) && !Resolves(redirects, "2", end)
  {
    var r: map<Id, Id> := map[]["1" := "2"]["2" := "1"];
    forall n: nat
      ensures Follow(r, "1", n) in r && Follow(r, "2", n) in r
    {
      BackAndForth(r, n);
    }
  }
}
