// Label propagation over entities: weighted votes and in-place sweeps.

module LabelPropagation {
  import opened Options
  import opened MemoryValues
  import opened Vectors

  /** A neighbour as it was read from the store, once, before the sweeps. */
  datatype Neighbor = Neighbor(id: Id, communityId: Option<Id>, embedding: Vector)

  datatype Weights = Weights(sqrt: real -> real, semantic: real, relation: real)

  type Labels = map<Id, Id>

  /** The label a neighbour votes for: its current label, else its stored community.
      Empty text counts as no label. */
  function Ballot(n: Neighbor, labels: Labels): Option<Id> {
    var tag := if n.id in labels then Some(labels[n.id]) else n.communityId;
    if tag == Some("") then None else tag
  }

  function Blend(semantic: real, similarity: real, relation: real): real {
    semantic * similarity + relation
  }

  function Weight(w: Weights, embedding: Vector, n: Neighbor): real {
    Blend(w.semantic, CosineSimilarity(w.sqrt, embedding, n.embedding), w.relation)
  }

  /** The position of the first vote for `tag`, or the number of neighbours if there is none. */
  function FirstVote(neighbors: seq<Neighbor>, labels: Labels, tag: Id): (first: nat)
    ensures first <= |neighbors|
  {
    if neighbors == [] then 0
    else
      var last := |neighbors| - 1;
      var first := FirstVote(neighbors[..last], labels, tag);
      if first < last || Ballot(neighbors[last], labels) == Some(tag) then first else last + 1
  }

  lemma {:induction false} FirstVoteIsFirst(neighbors: seq<Neighbor>, labels: Labels, tag: Id)
    ensures var first := FirstVote(neighbors, labels, tag);
            && (first < |neighbors| ==> Ballot(neighbors[first], labels) == Some(tag))
            && forall i :: 0 <= i < first ==> Ballot(neighbors[i], labels) != Some(tag)
  {
    if neighbors != [] {
      FirstVoteIsFirst(neighbors[..|neighbors| - 1], labels, tag);
    }
  }

  ghost predicate Voted(neighbors: seq<Neighbor>, labels: Labels, tag: Id) {
    FirstVote(neighbors, labels, tag) < |neighbors|
  }

  /** All the weight that `tag` receives. */
  function Tally(w: Weights, neighbors: seq<Neighbor>, embedding: Vector, labels: Labels, tag: Id): real {
    if neighbors == [] then 0.0
    else
      var last := |neighbors| - 1;
      Tally(w, neighbors[..last], embedding, labels, tag)
      + if Ballot(neighbors[last], labels) == Some(tag) then Weight(w, embedding, neighbors[last]) else 0.0
  }

  /** `mine` outweighs `theirs`, or weighs the same and was voted for earlier. */
  ghost predicate Beats(w: Weights, neighbors: seq<Neighbor>, embedding: Vector, labels: Labels, mine: Id, theirs: Id) {
    var m, t := Tally(w, neighbors, embedding, labels, mine), Tally(w, neighbors, embedding, labels, theirs);
    t < m || (t == m && FirstVote(neighbors, labels, mine) < FirstVote(neighbors, labels, theirs))
  }

  /** `tag` has the greatest tally, and among equals it was voted for first. */
  ghost predicate Wins(w: Weights, neighbors: seq<Neighbor>, embedding: Vector, labels: Labels, tag: Id) {
    && Voted(neighbors, labels, tag)
    && forall other :: Voted(neighbors, labels, other) && other != tag ==>
         Beats(w, neighbors, embedding, labels, tag, other)
  }

  ghost predicate Elected(w: Weights, neighbors: seq<Neighbor>, embedding: Vector, labels: Labels, winner: Option<Id>) {
    match winner
    case None => forall tag :: !Voted(neighbors, labels, tag)
    case Some(tag) => Wins(w, neighbors, embedding, labels, tag)
  }

  /** The outcome of a vote is unique. */
  lemma ElectionIsDecisive(w: Weights, neighbors: seq<Neighbor>, embedding: Vector, labels: Labels, a: Option<Id>, b: Option<Id>)
    requires Elected(w, neighbors, embedding, labels, a)
    requires Elected(w, neighbors, embedding, labels, b)
    ensures a == b
  {
  }

  lemma {:induction false} UnvotedWeighsNothing(w: Weights, neighbors: seq<Neighbor>, embedding: Vector, labels: Labels, tag: Id)
    requires !Voted(neighbors, labels, tag)
    ensures Tally(w, neighbors, embedding, labels, tag) == 0.0
  {
    if neighbors != [] {
      UnvotedWeighsNothing(w, neighbors[..|neighbors| - 1], embedding, labels, tag);
    }
  }

  /** How one more neighbour changes the first vote and the tally of a label. */
  lemma OneMoreVote(w: Weights, seen: seq<Neighbor>, n: Neighbor, embedding: Vector, labels: Labels, tag: Id)
    ensures FirstVote(seen + [n], labels, tag) ==
            if Voted(seen, labels, tag) then FirstVote(seen, labels, tag)
            else if Ballot(n, labels) == Some(tag) then |seen| else |seen| + 1
    ensures Tally(w, seen + [n], embedding, labels, tag) ==
            Tally(w, seen, embedding, labels, tag)
            + if Ballot(n, labels) == Some(tag) then Weight(w, embedding, n) else 0.0
  {
  }

  /** `order` lists the labels voted for so far, by first vote. */
  ghost predicate InOrder(seen: seq<Neighbor>, labels: Labels, order: seq<Id>) {
    && (forall i :: 0 <= i < |order| ==> Voted(seen, labels, order[i]))
    && (forall i, j :: 0 <= i < j < |order| ==> FirstVote(seen, labels, order[i]) < FirstVote(seen, labels, order[j]))
  }

  /** `votes` holds the tally of every label voted for so far. */
  ghost predicate Counted(w: Weights, seen: seq<Neighbor>, embedding: Vector, labels: Labels, votes: map<Id, real>) {
    && (forall tag :: tag in votes <==> Voted(seen, labels, tag))
    && (forall tag :: tag in votes ==> votes[tag] == Tally(w, seen, embedding, labels, tag))
  }

  lemma CountOne(w: Weights, seen: seq<Neighbor>, n: Neighbor, embedding: Vector, labels: Labels, votes: map<Id, real>)
    requires Counted(w, seen, embedding, labels, votes)
    ensures match Ballot(n, labels)
            case None => Counted(w, seen + [n], embedding, labels, votes)
            case Some(tag) =>
              var before := if tag in votes then votes[tag] else 0.0;
              Counted(w, seen + [n], embedding, labels, votes[tag := before + Weight(w, embedding, n)])
  {
    var ballot := Ballot(n, labels);
    forall tag
      ensures Voted(seen + [n], labels, tag) <==> Voted(seen, labels, tag) || ballot == Some(tag)
      ensures Tally(w, seen + [n], embedding, labels, tag) ==
              (if tag in votes then votes[tag] else 0.0) + (if ballot == Some(tag) then Weight(w, embedding, n) else 0.0)
    {
      OneMoreVote(w, seen, n, embedding, labels, tag);
      if !Voted(seen, labels, tag) {
        UnvotedWeighsNothing(w, seen, embedding, labels, tag);
      }
    }
  }

  lemma OrderOne(w: Weights, seen: seq<Neighbor>, n: Neighbor, labels: Labels, order: seq<Id>)
    requires InOrder(seen, labels, order)
    ensures InOrder(seen + [n], labels, order)
    ensures Ballot(n, labels).Some? && !Voted(seen, labels, Ballot(n, labels).value) ==>
            InOrder(seen + [n], labels, order + [Ballot(n, labels).value])
  {
  }

  lemma FirstGreatestWins(w: Weights, neighbors: seq<Neighbor>, embedding: Vector, labels: Labels,
                          order: seq<Id>, votes: map<Id, real>, best: nat)
    requires InOrder(neighbors, labels, order)
    requires Counted(w, neighbors, embedding, labels, votes)
    requires forall tag :: tag in votes <==> tag in order
    requires best < |order|
    requires forall i :: 0 <= i < best ==> votes[order[i]] < votes[order[best]]
    requires forall i :: best <= i < |order| ==> votes[order[i]] <= votes[order[best]]
    ensures Wins(w, neighbors, embedding, labels, order[best])
  {
  }

  /** The first pass of a vote: sum the weights by label, in order of first appearance. */
  method CountVotes(w: Weights, neighbors: seq<Neighbor>, embedding: Vector, labels: Labels)
    returns (order: seq<Id>, votes: map<Id, real>)
    ensures InOrder(neighbors, labels, order)
    ensures Counted(w, neighbors, embedding, labels, votes)
    ensures forall tag :: tag in votes <==> tag in order
  {
    hide Weight, Tally, FirstVote;
    order, votes := [], map[];
    for k := 0 to |neighbors|
      invariant InOrder(neighbors[..k], labels, order)
      invariant Counted(w, neighbors[..k], embedding, labels, votes)
      invariant forall tag :: tag in votes <==> tag in order
    {
      var n := neighbors[k];
      CountOne(w, neighbors[..k], n, embedding, labels, votes);
      OrderOne(w, neighbors[..k], n, labels, order);
      assert neighbors[..k] + [n] == neighbors[..k + 1];
      var ballot := Ballot(n, labels);
      if ballot.Some? {
        var tag := ballot.value;
        var before := if tag in votes then votes[tag] else 0.0;
        if tag !in votes {
          order := order + [tag];
        }
        votes := votes[tag := before + Weight(w, embedding, n)];
      }
    }
    assert neighbors[..|neighbors|] == neighbors;
  }

  // ---- bounds on a vote ----

  lemma BlendWithin(semantic: real, similarity: real, relation: real)
    requires semantic >= 0.0
    requires -1.0 <= similarity <= 1.0
    ensures relation - semantic <= Blend(semantic, similarity, relation) <= relation + semantic
  {
  }

  /** A neighbour's vote is the relation weight give or take the semantic weight. */
  lemma WeightWithin(w: Weights, embedding: Vector, n: Neighbor)
    requires w.semantic >= 0.0
    requires NormsExact(w.sqrt, embedding, n.embedding)
    ensures w.relation - w.semantic <= Weight(w, embedding, n) <= w.relation + w.semantic
  {
    hide Blend, CosineSimilarity;
    CosineWithinUnit(w.sqrt, embedding, n.embedding);
    BlendWithin(w.semantic, CosineSimilarity(w.sqrt, embedding, n.embedding), w.relation);
  }

  // ---- who wins, over dot products and norms ----

  /** A neighbour in the entity's direction votes with the sum of both weights, one in the opposite
      direction with their difference, and one at a right angle or without a direction with the
      relation weight alone. */
  lemma WeightByDirection(w: Weights, embedding: Vector, n: Neighbor, k: real)
    requires NormsExact(w.sqrt, embedding, n.embedding)
    ensures Degenerate(embedding, n.embedding) || Dot(embedding, n.embedding) == 0.0 ==> Weight(w, embedding, n) == w.relation
    ensures !Degenerate(embedding, n.embedding) && n.embedding == Scale(embedding, k) ==>
              && (k > 0.0 ==> Weight(w, embedding, n) == w.relation + w.semantic)
              && (k < 0.0 ==> Weight(w, embedding, n) == w.relation - w.semantic)
  {
    hide CosineSimilarity;
    CosineTimesNorms(w.sqrt, embedding, n.embedding);
    if !Degenerate(embedding, n.embedding) && n.embedding == Scale(embedding, k) && k != 0.0 {
      CosineOfScaled(w.sqrt, embedding, embedding, k);
      CosineOfSelf(w.sqrt, embedding);
      CosineSymmetric(w.sqrt, embedding, n.embedding);
    }
  }

  /** The neighbour carries this label now, or does not vote in the sweeps and is stored with it. */
  ghost predicate VotesFor(n: Neighbor, labels: Labels, tag: Id) {
    tag != "" && if n.id in labels then labels[n.id] == tag else n.communityId == Some(tag)
  }

  lemma BallotIsVote(n: Neighbor, labels: Labels, tag: Id)
    ensures Ballot(n, labels) == Some(tag) <==> VotesFor(n, labels, tag)
  {
  }

  /** The cosines of all that vote for `tag`, and their number. */
  ghost function Closeness(sqrt: real -> real, neighbors: seq<Neighbor>, embedding: Vector, labels: Labels, tag: Id): real {
    if neighbors == [] then 0.0
    else
      var last := |neighbors| - 1;
      Closeness(sqrt, neighbors[..last], embedding, labels, tag)
      + if VotesFor(neighbors[last], labels, tag) then CosineSimilarity(sqrt, embedding, neighbors[last].embedding) else 0.0
  }

  ghost function Voters(neighbors: seq<Neighbor>, labels: Labels, tag: Id): real {
    if neighbors == [] then 0.0
    else Voters(neighbors[..|neighbors| - 1], labels, tag) + if VotesFor(neighbors[|neighbors| - 1], labels, tag) then 1.0 else 0.0
  }

  /** Both weights, taken as often as they are voted. */
  function Shares(semantic: real, closeness: real, relation: real, voters: real): real {
    semantic * closeness + relation * voters
  }

  lemma SplitStep(semantic: real, relation: real, closeness: real, voters: real, c: real)
    ensures Shares(semantic, closeness + c, relation, voters + 1.0) == Shares(semantic, closeness, relation, voters) + Blend(semantic, c, relation)
  {
    assert semantic * (closeness + c) == semantic * closeness + semantic * c;
    assert relation * (voters + 1.0) == relation * voters + relation;
  }

  /** What a label receives is the semantic weight times the cosines of its voters, and the relation
      weight for each of them. */
  lemma {:induction false} TallySplits(w: Weights, neighbors: seq<Neighbor>, embedding: Vector, labels: Labels, tag: Id)
    ensures Tally(w, neighbors, embedding, labels, tag)
         == Shares(w.semantic, Closeness(w.sqrt, neighbors, embedding, labels, tag), w.relation, Voters(neighbors, labels, tag))
  {
    if neighbors == [] {
      assert Shares(w.semantic, 0.0, w.relation, 0.0) == 0.0;
    } else {
      var last := neighbors[|neighbors| - 1];
      TallySplits(w, neighbors[..|neighbors| - 1], embedding, labels, tag);
      BallotIsVote(last, labels, tag);
      hide CosineSimilarity, Blend, Shares, VotesFor, Ballot;
      SplitStep(w.semantic, w.relation, Closeness(w.sqrt, neighbors[..|neighbors| - 1], embedding, labels, tag),
                Voters(neighbors[..|neighbors| - 1], labels, tag), CosineSimilarity(w.sqrt, embedding, last.embedding));
    }
  }

  ghost function Along(embedding: Vector, v: Vector): real {
    if Degenerate(embedding, v) then 0.0 else Dot(embedding, v)
  }

  ghost function Length(sqrt: real -> real, embedding: Vector, v: Vector): real {
    if Degenerate(embedding, v) then 1.0 else sqrt(Dot(v, v))
  }

  /** The angle to `a` is at most that to `b`; a vector without a direction counts as a right angle. */
  ghost predicate AtLeastAsClose(sqrt: real -> real, embedding: Vector, a: Vector, b: Vector) {
    Times(Along(embedding, a), Length(sqrt, embedding, b)) >= Times(Along(embedding, b), Length(sqrt, embedding, a))
  }

  lemma CrossOrder(ca: real, cb: real, norm: real, da: real, db: real, pa: real, pb: real)
    requires norm > 0.0 && da > 0.0 && db > 0.0
    requires Times(ca, Times(norm, da)) == pa && Times(cb, Times(norm, db)) == pb
    ensures Times(pa, db) >= Times(pb, da) <==> ca >= cb
  {
    var all := norm * (da * db);
    assert da * db > 0.0;
    assert all > 0.0;
    assert pa * db == ca * all && pb * da == cb * all;
    assert ca * all - cb * all == (ca - cb) * all;
  }

  lemma LengthTimesCosine(sqrt: real -> real, embedding: Vector, v: Vector)
    requires NormsExact(sqrt, embedding, v) && Dot(embedding, embedding) != 0.0
    ensures sqrt(Dot(embedding, embedding)) > 0.0 && Length(sqrt, embedding, v) > 0.0
    ensures Times(CosineSimilarity(sqrt, embedding, v), Times(sqrt(Dot(embedding, embedding)), Length(sqrt, embedding, v))) == Along(embedding, v)
  {
    hide CosineSimilarity;
    CosineTimesNorms(sqrt, embedding, v);
    RootOfPositive(sqrt(Dot(embedding, embedding)), Dot(embedding, embedding));
    RootOfPositive(sqrt(Dot(v, v)), Dot(v, v));
    hide Dot;
  }

  lemma CloserIsGreaterCosine(sqrt: real -> real, embedding: Vector, a: Vector, b: Vector)
    requires NormsExact(sqrt, embedding, a) && NormsExact(sqrt, embedding, b) && Dot(embedding, embedding) != 0.0
    ensures AtLeastAsClose(sqrt, embedding, a, b) <==> CosineSimilarity(sqrt, embedding, a) >= CosineSimilarity(sqrt, embedding, b)
  {
    LengthTimesCosine(sqrt, embedding, a);
    LengthTimesCosine(sqrt, embedding, b);
    hide Along, Length, CosineSimilarity, Dot, Times, IsSquareRoot;
    CrossOrder(CosineSimilarity(sqrt, embedding, a), CosineSimilarity(sqrt, embedding, b), sqrt(Dot(embedding, embedding)),
               Length(sqrt, embedding, a), Length(sqrt, embedding, b), Along(embedding, a), Along(embedding, b));
  }

  /** No two neighbours vote for the same label. */
  ghost predicate OneVoteEach(neighbors: seq<Neighbor>, labels: Labels) {
    forall i, j, tag :: 0 <= i < j < |neighbors| && VotesFor(neighbors[i], labels, tag) ==> !VotesFor(neighbors[j], labels, tag)
  }

  /** Similarity counts, the entity has a direction, norms are exact, and each label has one voter. */
  ghost predicate ByDirection(w: Weights, neighbors: seq<Neighbor>, embedding: Vector, labels: Labels) {
    && w.semantic > 0.0 && Dot(embedding, embedding) != 0.0 && OneVoteEach(neighbors, labels)
    && forall i :: 0 <= i < |neighbors| ==> NormsExact(w.sqrt, embedding, neighbors[i].embedding)
  }

  /** The neighbour at `i` votes for `tag`, no other voter is closer, and none before it as close. */
  ghost predicate IsClosest(sqrt: real -> real, neighbors: seq<Neighbor>, embedding: Vector, labels: Labels, tag: Id, i: int) {
    && 0 <= i < |neighbors| && VotesFor(neighbors[i], labels, tag)
    && forall j, other :: 0 <= j < |neighbors| && VotesFor(neighbors[j], labels, other) ==>
         && AtLeastAsClose(sqrt, embedding, neighbors[i].embedding, neighbors[j].embedding)
         && (j < i ==> !AtLeastAsClose(sqrt, embedding, neighbors[j].embedding, neighbors[i].embedding))
  }

  /** The winner is the label of the closest voter, the first among equals. */
  ghost predicate ClosestFirst(sqrt: real -> real, neighbors: seq<Neighbor>, embedding: Vector, labels: Labels, winner: Option<Id>) {
    match winner
    case None => forall i, tag :: 0 <= i < |neighbors| ==> !VotesFor(neighbors[i], labels, tag)
    case Some(tag) => exists i :: IsClosest(sqrt, neighbors, embedding, labels, tag, i)
  }

  /** A label with one voter receives its weight alone. */
  lemma {:induction false} LoneVote(w: Weights, neighbors: seq<Neighbor>, embedding: Vector, labels: Labels, tag: Id, i: nat)
    requires OneVoteEach(neighbors, labels) && i < |neighbors| && VotesFor(neighbors[i], labels, tag)
    ensures Tally(w, neighbors, embedding, labels, tag) == Weight(w, embedding, neighbors[i]) && FirstVote(neighbors, labels, tag) == i
  {
    var last := |neighbors| - 1;
    var early := neighbors[..last];
    assert neighbors == early + [neighbors[last]];
    BallotIsVote(neighbors[last], labels, tag);
    OneMoreVote(w, early, neighbors[last], embedding, labels, tag);
    if i < last {
      assert OneVoteEach(early, labels);
      LoneVote(w, early, embedding, labels, tag, i);
      hide Weight, VotesFor, Ballot;
    } else {
      FirstVoteIsFirst(early, labels, tag);
      forall j | 0 <= j < last
        ensures Ballot(early[j], labels) != Some(tag)
      {
        BallotIsVote(early[j], labels, tag);
      }
      UnvotedWeighsNothing(w, early, embedding, labels, tag);
      hide Weight;
    }
  }

  lemma BlendOrder(semantic: real, ca: real, cb: real, relation: real)
    requires semantic > 0.0
    ensures Blend(semantic, ca, relation) >= Blend(semantic, cb, relation) <==> ca >= cb
  {
    var gap := ca - cb;
    assert semantic * ca - semantic * cb == semantic * gap;
    if gap < 0.0 {
      assert semantic * -gap > 0.0;
    }
  }

  lemma WeightOrder(w: Weights, embedding: Vector, a: Neighbor, b: Neighbor)
    requires w.semantic > 0.0 && Dot(embedding, embedding) != 0.0
    requires NormsExact(w.sqrt, embedding, a.embedding) && NormsExact(w.sqrt, embedding, b.embedding)
    ensures AtLeastAsClose(w.sqrt, embedding, a.embedding, b.embedding) <==> Weight(w, embedding, a) >= Weight(w, embedding, b)
  {
    CloserIsGreaterCosine(w.sqrt, embedding, a.embedding, b.embedding);
    hide AtLeastAsClose, CosineSimilarity;
    BlendOrder(w.semantic, CosineSimilarity(w.sqrt, embedding, a.embedding), CosineSimilarity(w.sqrt, embedding, b.embedding), w.relation);
    hide Blend;
  }

  /** Where each voter has a label of its own, the closest voter decides, whatever the weights. */
  lemma ClosestWins(w: Weights, neighbors: seq<Neighbor>, embedding: Vector, labels: Labels, winner: Option<Id>)
    requires Elected(w, neighbors, embedding, labels, winner)
    requires ByDirection(w, neighbors, embedding, labels)
    ensures ClosestFirst(w.sqrt, neighbors, embedding, labels, winner)
  {
    hide Weight, Tally, AtLeastAsClose, VotesFor;
    forall j, tag | 0 <= j < |neighbors| && VotesFor(neighbors[j], labels, tag)
      ensures Tally(w, neighbors, embedding, labels, tag) == Weight(w, embedding, neighbors[j]) && FirstVote(neighbors, labels, tag) == j
    {
      LoneVote(w, neighbors, embedding, labels, tag, j);
    }
    if winner.None? {
      forall j, tag | 0 <= j < |neighbors|
        ensures !VotesFor(neighbors[j], labels, tag)
      {
        assert !Voted(neighbors, labels, tag);
      }
    } else {
      var tag := winner.value;
      var i := FirstVote(neighbors, labels, tag);
      FirstVoteIsFirst(neighbors, labels, tag);
      BallotIsVote(neighbors[i], labels, tag);
      hide FirstVote;
      forall j, other | 0 <= j < |neighbors| && VotesFor(neighbors[j], labels, other)
        ensures AtLeastAsClose(w.sqrt, embedding, neighbors[i].embedding, neighbors[j].embedding)
        ensures j < i ==> !AtLeastAsClose(w.sqrt, embedding, neighbors[j].embedding, neighbors[i].embedding)
      {
        WeightOrder(w, embedding, neighbors[i], neighbors[j]);
        WeightOrder(w, embedding, neighbors[j], neighbors[i]);
        assert other != tag ==> Voted(neighbors, labels, other);
      }
      assert IsClosest(w.sqrt, neighbors, embedding, labels, tag, i);
    }
  }

  /** One entity's vote: the first label of greatest summed weight, if anyone voted. */
  method WeightedVote(w: Weights, neighbors: seq<Neighbor>, embedding: Vector, labels: Labels) returns (winner: Option<Id>)
    ensures Elected(w, neighbors, embedding, labels, winner)
    ensures ByDirection(w, neighbors, embedding, labels) ==> ClosestFirst(w.sqrt, neighbors, embedding, labels, winner)
  {
    var order, votes := CountVotes(w, neighbors, embedding, labels);
    if order == [] {
      if ByDirection(w, neighbors, embedding, labels) {
        ClosestWins(w, neighbors, embedding, labels, None);
      }
      return None;
    }
    var best := 0;
    for k := 1 to |order|
      invariant 0 <= best < k
      invariant forall i :: 0 <= i < best ==> votes[order[i]] < votes[order[best]]
      invariant forall i :: best <= i < k ==> votes[order[i]] <= votes[order[best]]
    {
      if votes[order[best]] < votes[order[k]] {
        best := k;
      }
    }
    FirstGreatestWins(w, neighbors, embedding, labels, order, votes, best);
    if ByDirection(w, neighbors, embedding, labels) {
      ClosestWins(w, neighbors, embedding, labels, Some(order[best]));
    }
    return Some(order[best]);
  }

  // ---- sweeps ----

  /** Entities in a fixed order, their embeddings, and their neighbour lists. */
  datatype Graph = Graph(entities: seq<Id>, embeddings: map<Id, Vector>, neighbors: map<Id, seq<Neighbor>>)

  function NeighborsOf(g: Graph, e: Id): seq<Neighbor> {
    if e in g.neighbors then g.neighbors[e] else []
  }

  function EmbeddingOf(g: Graph, e: Id): Vector {
    if e in g.embeddings then g.embeddings[e] else []
  }

  /** The outcome of the vote of `e`; without neighbours or embedding, of an empty list. */
  ghost predicate ElectedFor(w: Weights, g: Graph, labels: Labels, e: Id, winner: Option<Id>) {
    Elected(w, if e in g.neighbors then g.neighbors[e] else [], if e in g.embeddings then g.embeddings[e] else [], labels, winner)
  }

  /** Under these labels, the vote of `e` either abstains or confirms the label it carries. */
  ghost predicate Settled(w: Weights, g: Graph, labels: Labels, e: Id) {
    e in labels && forall winner :: ElectedFor(w, g, labels, e, winner) && winner.Some? ==> winner.value == labels[e]
  }

  /** `tag` was the label of `e` before the first sweep, or is the stored community of a
      neighbour of `e` that takes no part in the sweeps. */
  ghost predicate Native(g: Graph, initial: Labels, e: Id, tag: Id) {
    || (e in initial && initial[e] == tag)
    || exists n :: n in NeighborsOf(g, e) && n.id !in initial && n.communityId == Some(tag)
  }

  /** `tag` is native to an entity at most `steps` neighbour lists away from `e`. */
  ghost predicate ReachableIn(g: Graph, initial: Labels, e: Id, tag: Id, steps: nat)
    decreases steps
  {
    || Native(g, initial, e, tag)
    || (steps > 0 && exists n :: n in NeighborsOf(g, e) && n.id in initial && ReachableIn(g, initial, n.id, tag, steps - 1))
  }

  ghost predicate Reachable(g: Graph, initial: Labels, e: Id, tag: Id) {
    exists steps: nat :: ReachableIn(g, initial, e, tag, steps)
  }

  ghost predicate AllReachable(g: Graph, initial: Labels, labels: Labels) {
    && labels.Keys == initial.Keys
    && forall e :: e in labels ==> Reachable(g, initial, e, labels[e])
  }

  lemma OwnLabelReachable(g: Graph, initial: Labels, e: Id)
    requires e in initial
    ensures Reachable(g, initial, e, initial[e])
  {
    assert ReachableIn(g, initial, e, initial[e], 0);
  }

  lemma VotedLabelReachable(g: Graph, initial: Labels, labels: Labels, e: Id, tag: Id)
    requires AllReachable(g, initial, labels)
    requires Voted(NeighborsOf(g, e), labels, tag)
    ensures Reachable(g, initial, e, tag)
  {
    var neighbors := NeighborsOf(g, e);
    FirstVoteIsFirst(neighbors, labels, tag);
    var n := neighbors[FirstVote(neighbors, labels, tag)];
    assert n in neighbors;
    if n.id in labels {
      var steps: nat :| ReachableIn(g, initial, n.id, tag, steps);
      assert ReachableIn(g, initial, e, tag, steps + 1);
    } else {
      assert ReachableIn(g, initial, e, tag, 0);
    }
  }

  /** One entity takes the label it votes for; without a vote it keeps its own. */
  ghost predicate TakesVote(w: Weights, g: Graph, labels: Labels, e: Id, labels': Labels) {
    exists winner :: ElectedFor(w, g, labels, e, winner) && labels' == if winner.Some? then labels[e := winner.value] else labels
  }

  /** The labels before, between and after the votes of one sweep. */
  ghost predicate SweepTrace(w: Weights, g: Graph, history: seq<Labels>) {
    |history| == |g.entities| + 1 && forall k :: 0 <= k < |g.entities| ==> TakesVote(w, g, history[k], g.entities[k], history[k + 1])
  }

  ghost function Changes(history: seq<Labels>): nat {
    if |history| < 2 then 0
    else Changes(history[..|history| - 1]) + if history[|history| - 2] == history[|history| - 1] then 0 else 1
  }

  lemma VoteIsDetermined(w: Weights, g: Graph, labels: Labels, e: Id, a: Labels, b: Labels)
    requires TakesVote(w, g, labels, e, a) && TakesVote(w, g, labels, e, b)
    ensures a == b
  {
  }

  /** Where a sweep starts determines every step of it. */
  lemma {:induction false} SweepIsDetermined(w: Weights, g: Graph, a: seq<Labels>, b: seq<Labels>, k: nat)
    requires SweepTrace(w, g, a) && SweepTrace(w, g, b) && a[0] == b[0]
    requires k <= |g.entities|
    ensures a[k] == b[k]
  {
    if k > 0 {
      SweepIsDetermined(w, g, a, b, k - 1);
      VoteIsDetermined(w, g, a[k - 1], g.entities[k - 1], a[k], b[k]);
    }
  }

  /** `history` is one sweep from `before` to `labels`. */
  ghost predicate SweepFromTo(w: Weights, g: Graph, history: seq<Labels>, before: Labels, labels: Labels) {
    SweepTrace(w, g, history) && history[0] == before && history[|g.entities|] == labels
  }

  /** One sweep leads from `before` to `labels` and changes something on the way. */
  ghost predicate SweepChanges(w: Weights, g: Graph, before: Labels, labels: Labels) {
    exists history :: SweepFromTo(w, g, history, before, labels) && Changes(history) > 0
  }

  lemma ElectedIsVoted(w: Weights, g: Graph, labels: Labels, e: Id, winner: Option<Id>)
    requires ElectedFor(w, g, labels, e, winner) && winner.Some?
    ensures Voted(NeighborsOf(g, e), labels, winner.value)
  {
  }

  /** One entity votes. */
  method Vote(w: Weights, g: Graph, ghost initial: Labels, before: Labels, e: Id) returns (labels: Labels, changed: bool)
    requires e in before && AllReachable(g, initial, before)
    ensures TakesVote(w, g, before, e, labels) && (changed <==> labels != before)
    ensures AllReachable(g, initial, labels)
    ensures !changed ==> Settled(w, g, before, e)
  {
    labels, changed := before, false;
    var voted := WeightedVote(w, NeighborsOf(g, e), EmbeddingOf(g, e), before);
    assert ElectedFor(w, g, before, e, voted);
    hide Elected;
    if voted.Some? && voted.value != before[e] {
      ElectedIsVoted(w, g, before, e, voted);
      VotedLabelReachable(g, initial, before, e, voted.value);
      labels, changed := before[e := voted.value], true;
    } else {
      assert voted.Some? ==> before[e := voted.value] == before;
      forall winner | ElectedFor(w, g, before, e, winner) && winner.Some?
        ensures winner.value == before[e]
      {
        ElectionIsDecisive(w, NeighborsOf(g, e), EmbeddingOf(g, e), before, winner, voted);
      }
    }
  }

  /** The first `k` votes of a sweep. */
  ghost predicate TracedTo(w: Weights, g: Graph, history: seq<Labels>, k: nat, before: Labels, labels: Labels) {
    && k <= |g.entities| && |history| == k + 1 && history[0] == before && history[k] == labels
    && forall j :: 0 <= j < k ==> TakesVote(w, g, history[j], g.entities[j], history[j + 1])
  }

  lemma TracedFurther(w: Weights, g: Graph, history: seq<Labels>, k: nat, before: Labels, labels: Labels, voted: Labels)
    requires TracedTo(w, g, history, k, before, labels) && k < |g.entities|
    requires TakesVote(w, g, labels, g.entities[k], voted)
    ensures TracedTo(w, g, history + [voted], k + 1, before, voted)
    ensures Changes(history + [voted]) == Changes(history) + if voted == labels then 0 else 1
  {
  }

  lemma SameKeys(g: Graph, initial: Labels, a: Labels, b: Labels)
    requires AllReachable(g, initial, a) && AllReachable(g, initial, b)
    ensures a.Keys == b.Keys
  {
  }

  /** One pass over all entities, each vote seeing the labels that earlier ones just changed. */
  method Sweep(w: Weights, g: Graph, ghost initial: Labels, before: Labels) returns (labels: Labels, changed: nat, ghost history: seq<Labels>)
    requires forall e :: e in g.entities ==> e in before
    requires AllReachable(g, initial, before)
    ensures SweepFromTo(w, g, history, before, labels) && changed == Changes(history)
    ensures AllReachable(g, initial, labels)
    ensures changed == 0 ==> labels == before && forall e :: e in g.entities ==> Settled(w, g, labels, e)
  {
    labels, changed := before, 0;
    history := [before];
    assert forall e :: e in g.entities ==> e in before;
    for k := 0 to |g.entities|
      invariant TracedTo(w, g, history, k, before, labels) && Changes(history) == changed
      invariant AllReachable(g, initial, labels) && labels.Keys == before.Keys
      invariant changed == 0 ==> labels == before && forall i :: 0 <= i < k ==> Settled(w, g, before, g.entities[i])
    {
      hide *;
      assert g.entities[k] in g.entities;
      var voted, moved := Vote(w, g, initial, labels, g.entities[k]);
      TracedFurther(w, g, history, k, before, labels, voted);
      SameKeys(g, initial, labels, voted);
      history, labels, changed := history + [voted], voted, if moved then changed + 1 else changed;
    }
  }

  lemma LabelsKept(g: Graph, initial: Labels, before: Labels, labels: Labels)
    requires AllReachable(g, initial, labels)
    ensures AllReachable(g, initial, before) ==> labels.Keys == before.Keys
  {
  }

  /** Sweeps until nothing changes or the limit is reached. Leaving before the limit means that
      all votes agree with one common labelling; every tag came from somewhere reachable. `rounds`
      are the labels before and after each sweep that changed something. */
  method Propagate(w: Weights, g: Graph, initial: Labels, maxIterations: nat)
    returns (labels: Labels, sweeps: nat, ghost rounds: seq<Labels>)
    requires forall e :: e in g.entities ==> e in initial
    ensures sweeps <= maxIterations
    ensures |rounds| == sweeps + 1 && rounds[0] == initial && rounds[sweeps] == labels
    ensures forall r :: 0 <= r < sweeps ==> SweepChanges(w, g, rounds[r], rounds[r + 1])
    ensures AllReachable(g, initial, labels)
    ensures sweeps < maxIterations ==> forall e :: e in g.entities ==> Settled(w, g, labels, e)
  {
    labels, sweeps := initial, 0;
    rounds := [initial];
    forall e | e in initial
      ensures Reachable(g, initial, e, initial[e])
    {
      OwnLabelReachable(g, initial, e);
    }
    while sweeps < maxIterations
      invariant sweeps <= maxIterations
      invariant |rounds| == sweeps + 1 && rounds[0] == initial && rounds[sweeps] == labels
      invariant forall r :: 0 <= r < sweeps ==> SweepChanges(w, g, rounds[r], rounds[r + 1])
      invariant AllReachable(g, initial, labels) && labels.Keys == initial.Keys
    {
      hide SweepFromTo, Settled, Reachable, AllReachable;
      var changed;
      ghost var history;
      ghost var was := labels;
      labels, changed, history := Sweep(w, g, initial, labels);
      LabelsKept(g, initial, was, labels);
      if changed == 0 {
        return;
      }
      sweeps := sweeps + 1;
      rounds := rounds + [labels];
    }
  }
}
