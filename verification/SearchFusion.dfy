// Fusing full-text and vector search results into one ranking.

module SearchFusion {
  import opened MemoryValues
  import opened Options

  const VECTOR_WEIGHT := 0.55
  const FULLTEXT_WEIGHT := 0.30
  const IMPORTANCE_WEIGHT := 0.15
  const LONG_TERM_BONUS := 0.05
  const DEFAULT_IMPORTANCE := 0.5
  const FLAT := 0.000000001

  /** A result row as the store returns it. */
  datatype Row = Row(entityId: Id, importance: Option<real>, memoryLayer: Option<string>, score: Option<real>)

  datatype Hit = Hit(entityId: Id, importance: real, memoryLayer: string, score: real)

  /** Missing values and zero importance get the defaults. */
  function ToHit(row: Row): Hit {
    Hit(row.entityId,
        if row.importance.Some? && row.importance.value != 0.0 then row.importance.value else DEFAULT_IMPORTANCE,
        if row.memoryLayer.Some? && row.memoryLayer.value != "" then row.memoryLayer.value else "short_term",
        if row.score.Some? then row.score.value else 0.0)
  }

  function ToHits(rows: seq<Row>): (hits: seq<Hit>)
    ensures |hits| == |rows|
    ensures forall i :: 0 <= i < |rows| ==> hits[i] == ToHit(rows[i])
  {
    seq(|rows|, i requires 0 <= i < |rows| => ToHit(rows[i]))
  }

  /** How a row is read: present values are kept, except that an importance of 0 and an empty layer count
      as missing; missing ones become 0.5, short-term and 0. */
  lemma RowIsRead(row: Row)
    ensures var hit := ToHit(row);
            && hit.entityId == row.entityId
            && hit.importance == (if row.importance in {None, Some(0.0)} then 0.5 else row.importance.value)
            && hit.memoryLayer == (if row.memoryLayer in {None, Some("")} then "short_term" else row.memoryLayer.value)
            && hit.score == (if row.score.None? then 0.0 else row.score.value)
  {
  }

  /** Reading a stored importance keeps the order of two entities exactly unless the lower one is 0
      and the higher one is positive but below the default. */
  lemma ImportanceOrderKeptIff(low: real, high: real, a: Row, b: Row)
    requires 0.0 <= low <= high
    requires a.importance == Some(low) && b.importance == Some(high)
    ensures ToHit(a).importance <= ToHit(b).importance <==> !(low == 0.0 && 0.0 < high < DEFAULT_IMPORTANCE)
  {
  }

  // ---- one lane ----

  /** The raw score of every entity of a lane; a later row replaces an earlier one. */
  function LaneScores(hits: seq<Hit>): map<Id, real> {
    if hits == [] then map[]
    else LaneScores(hits[..|hits| - 1])[hits[|hits| - 1].entityId := hits[|hits| - 1].score]
  }

  /** An entity has a score in a lane exactly if it has a row there, and it is that of its last one. */
  lemma {:induction false} LastScoreCounts(hits: seq<Hit>, id: Id)
    ensures id in LaneScores(hits) <==> exists i :: 0 <= i < |hits| && hits[i].entityId == id
    ensures forall i :: 0 <= i < |hits| && hits[i].entityId == id && (forall j :: i < j < |hits| ==> hits[j].entityId != id) ==>
              id in LaneScores(hits) && LaneScores(hits)[id] == hits[i].score
  {
    if hits != [] {
      var early := hits[..|hits| - 1];
      LastScoreCounts(early, id);
      if i :| 0 <= i < |early| && early[i].entityId == id {
        assert hits[i].entityId == id;
      }
    }
  }

  ghost predicate IsLow(scores: map<Id, real>, low: real) {
    (exists id :: id in scores && scores[id] == low) && forall id :: id in scores ==> low <= scores[id]
  }

  ghost predicate IsHigh(scores: map<Id, real>, high: real) {
    (exists id :: id in scores && scores[id] == high) && forall id :: id in scores ==> scores[id] <= high
  }

  /** Where `score` lies between the extremes; 1 when there is no spread. */
  function Scaled(score: real, low: real, high: real): real {
    if high - low < FLAT then 1.0 else (score - low) / (high - low)
  }

  ghost predicate IsNormalized(scores: map<Id, real>, norm: map<Id, real>) {
    && norm.Keys == scores.Keys
    && (scores != map[] ==> exists low, high :: IsLow(scores, low) && IsHigh(scores, high)
                              && forall id :: id in scores ==> norm[id] == Scaled(scores[id], low, high))
  }

  method Extremes(scores: map<Id, real>) returns (low: real, high: real)
    requires scores != map[]
    ensures IsLow(scores, low) && IsHigh(scores, high)
  {
    var rest := scores.Keys;
    assert rest != {};
    var first :| first in rest;
    low, high := scores[first], scores[first];
    rest := rest - {first};
    ghost var atLow, atHigh := first, first;
    while rest != {}
      invariant rest <= scores.Keys
      invariant atLow in scores && scores[atLow] == low && atHigh in scores && scores[atHigh] == high
      invariant forall id :: id in scores && id !in rest ==> low <= scores[id] <= high
      decreases rest
    {
      var id :| id in rest;
      rest := rest - {id};
      if scores[id] < low {
        low, atLow := scores[id], id;
      }
      if scores[id] > high {
        high, atHigh := scores[id], id;
      }
    }
  }

  /** Scales the raw scores of a lane to the unit interval. */
  method NormalizeScores(scores: map<Id, real>) returns (norm: map<Id, real>)
    ensures IsNormalized(scores, norm)
  {
    if scores == map[] {
      return map[];
    }
    var low, high := Extremes(scores);
    norm := map id | id in scores :: Scaled(scores[id], low, high);
  }

  lemma QuotientOrder(a: real, b: real, d: real)
    requires d > 0.0
    requires a <= b
    ensures a / d <= b / d
  {
  }

  lemma ScaledInUnit(score: real, low: real, high: real)
    requires low <= score <= high
    ensures 0.0 <= Scaled(score, low, high) <= 1.0
  {
    if high - low >= FLAT {
      var d := high - low;
      QuotientOrder(0.0, score - low, d);
      QuotientOrder(score - low, d, d);
      assert 0.0 / d == 0.0 && d / d == 1.0;
    }
  }

  lemma ScaledOrder(a: real, b: real, low: real, high: real)
    requires low <= a <= b <= high
    ensures Scaled(a, low, high) <= Scaled(b, low, high)
  {
  }

  function ValueOr0(m: map<Id, real>, id: Id): real {
    if id in m then m[id] else 0.0
  }

  /** `b` is at least as good as `a` in a lane; not being in the lane is the worst. */
  ghost predicate AtLeast(scores: map<Id, real>, b: Id, a: Id) {
    a in scores ==> b in scores && scores[a] <= scores[b]
  }

  /** Scaling keeps every value in the unit interval and never reverses an order, ties included. */
  lemma NormalizingIsMonotone(scores: map<Id, real>, norm: map<Id, real>, b: Id, a: Id)
    requires IsNormalized(scores, norm)
    requires AtLeast(scores, b, a)
    ensures 0.0 <= ValueOr0(norm, a) <= ValueOr0(norm, b) <= 1.0
  {
    if b in scores {
      var low, high :| IsLow(scores, low) && IsHigh(scores, high)
                       && forall id :: id in scores ==> norm[id] == Scaled(scores[id], low, high);
      ScaledInUnit(scores[b], low, high);
      if a in scores {
        ScaledInUnit(scores[a], low, high);
        ScaledOrder(scores[a], scores[b], low, high);
      }
    }
  }

  lemma ScaledTimesSpread(score: real, low: real, high: real)
    requires high - low >= FLAT
    ensures Scaled(score, low, high) * (high - low) == score - low
  {
  }

  lemma ScaledEnds(low: real, high: real)
    requires high - low >= FLAT
    ensures Scaled(low, low, high) == 0.0 && Scaled(high, low, high) == 1.0
  {
    var spread := high - low;
    assert spread / spread == 1.0 && 0.0 / spread == 0.0;
  }

  lemma ExtremesAre(scores: map<Id, real>, norm: map<Id, real>, worst: Id, best: Id)
    requires IsNormalized(scores, norm) && worst in scores && best in scores
    requires forall id :: id in scores ==> scores[worst] <= scores[id] <= scores[best]
    ensures forall id :: id in scores ==> id in norm && norm[id] == Scaled(scores[id], scores[worst], scores[best])
  {
    hide Scaled;
    var low, high :| IsLow(scores, low) && IsHigh(scores, high)
                     && forall id :: id in scores ==> norm[id] == Scaled(scores[id], low, high);
    assert low == scores[worst] && high == scores[best];
  }

  /** The worst score of a lane becomes 0, the best 1, and the others keep their proportions; where all
      are practically equal, all become 1. */
  lemma ScaledByExtremes(scores: map<Id, real>, norm: map<Id, real>, worst: Id, best: Id, id: Id)
    requires IsNormalized(scores, norm) && worst in scores && best in scores && id in scores
    requires forall e :: e in scores ==> scores[worst] <= scores[e] <= scores[best]
    ensures if scores[best] - scores[worst] < 0.000000001 then norm[id] == 1.0
            else
              && norm[worst] == 0.0 && norm[best] == 1.0
              && norm[id] * (scores[best] - scores[worst]) == scores[id] - scores[worst]
  {
    ExtremesAre(scores, norm, worst, best);
    hide IsNormalized;
    var low, high, score := scores[worst], scores[best], scores[id];
    assert norm[id] == Scaled(score, low, high);
    if high - low >= FLAT {
      ScaledEnds(low, high);
      ScaledTimesSpread(score, low, high);
      hide Scaled;
    }
  }

  // ---- fusing ----

  function Bonus(hit: Hit): real {
    if hit.memoryLayer == "long_term" then LONG_TERM_BONUS else 0.0
  }

  function FusedScore(hit: Hit, vectorNorm: map<Id, real>, fulltextNorm: map<Id, real>): real {
    VECTOR_WEIGHT * ValueOr0(vectorNorm, hit.entityId) + FULLTEXT_WEIGHT * ValueOr0(fulltextNorm, hit.entityId)
    + IMPORTANCE_WEIGHT * hit.importance + Bonus(hit)
  }

  /** An entity that is at least as good in both raw lanes, in importance and in layer never gets a
      lower fused score. */
  lemma FusionIsMonotone(b: Hit, a: Hit, vectorScores: map<Id, real>, fulltextScores: map<Id, real>,
                         vectorNorm: map<Id, real>, fulltextNorm: map<Id, real>)
    requires IsNormalized(vectorScores, vectorNorm) && IsNormalized(fulltextScores, fulltextNorm)
    requires AtLeast(vectorScores, b.entityId, a.entityId) && AtLeast(fulltextScores, b.entityId, a.entityId)
    requires a.importance <= b.importance
    requires a.memoryLayer == "long_term" ==> b.memoryLayer == "long_term"
    ensures FusedScore(a, vectorNorm, fulltextNorm) <= FusedScore(b, vectorNorm, fulltextNorm)
  {
    NormalizingIsMonotone(vectorScores, vectorNorm, b.entityId, a.entityId);
    NormalizingIsMonotone(fulltextScores, fulltextNorm, b.entityId, a.entityId);
  }

  /** By how much one entity is ahead of another: 55 parts of a hundred for the vector lane, 30 for the
      full-text lane and 15 for importance, not being in a lane counting as 0, and 5 for long-term
      memory. */
  lemma ScoreGap(a: Hit, b: Hit, vectorNorm: map<Id, real>, fulltextNorm: map<Id, real>)
    ensures var vector := (if a.entityId in vectorNorm then vectorNorm[a.entityId] else 0.0)
                          - (if b.entityId in vectorNorm then vectorNorm[b.entityId] else 0.0);
            var text := (if a.entityId in fulltextNorm then fulltextNorm[a.entityId] else 0.0)
                        - (if b.entityId in fulltextNorm then fulltextNorm[b.entityId] else 0.0);
            var layer := (if a.memoryLayer == "long_term" then 1.0 else 0.0) - (if b.memoryLayer == "long_term" then 1.0 else 0.0);
            100.0 * (FusedScore(a, vectorNorm, fulltextNorm) - FusedScore(b, vectorNorm, fulltextNorm))
            == 55.0 * vector + 30.0 * text + 15.0 * (a.importance - b.importance) + 5.0 * layer
  {
  }

  /** Each leads one lane and is missing from the other: the leader of the vector lane wins unless the
      other is ahead in importance by more than 5/3, or is long-term and ahead by more than 4/3. */
  lemma VectorLeaderWins(a: Hit, b: Hit, vectorNorm: map<Id, real>, fulltextNorm: map<Id, real>)
    requires a.entityId in vectorNorm && vectorNorm[a.entityId] == 1.0 && b.entityId !in vectorNorm
    requires b.entityId in fulltextNorm && fulltextNorm[b.entityId] == 1.0 && a.entityId !in fulltextNorm
    requires a.memoryLayer != "long_term"
    ensures FusedScore(a, vectorNorm, fulltextNorm) >= FusedScore(b, vectorNorm, fulltextNorm)
       <==> 3.0 * (b.importance - a.importance) <= if b.memoryLayer == "long_term" then 4.0 else 5.0
  {
    ScoreGap(a, b, vectorNorm, fulltextNorm);
  }

  /** The hits kept for each entity, in order of first appearance. */
  datatype Kept = Kept(order: seq<Id>, byEntity: map<Id, Hit>)

  ghost predicate Appears(hits: seq<Hit>, id: Id) {
    exists a :: 0 <= a < |hits| && hits[a].entityId == id
  }

  /** Whenever an entity has a hit, all entities listed before it have an earlier one. */
  ghost predicate ByAppearance(hits: seq<Hit>, order: seq<Id>) {
    forall i, j, b :: 0 <= i < j < |order| && 0 <= b < |hits| && hits[b].entityId == order[j] ==> Appears(hits[..b], order[i])
  }

  /** The hit at `i` is the first of its entity with the greatest raw score. */
  ghost predicate FirstBest(hits: seq<Hit>, i: nat) {
    && i < |hits|
    && (forall j :: 0 <= j < |hits| && hits[j].entityId == hits[i].entityId ==> hits[j].score <= hits[i].score)
    && forall j :: 0 <= j < i && hits[j].entityId == hits[i].entityId ==> hits[j].score < hits[i].score
  }

  /** `hit` is the first of its entity with the greatest raw score. */
  ghost predicate IsFirstBest(hits: seq<Hit>, hit: Hit) {
    exists i: nat :: FirstBest(hits, i) && hits[i] == hit
  }

  /** Exactly the entities with a hit, each once and in order of first appearance, with a hit of their
      own that no other of theirs outscores. */
  ghost predicate KeepsHits(hits: seq<Hit>, kept: Kept) {
    && (forall id :: id in kept.byEntity <==> id in kept.order)
    && Distinct(kept.order)
    && ByAppearance(hits, kept.order)
    && (forall h :: h in hits ==> h.entityId in kept.byEntity && h.score <= kept.byEntity[h.entityId].score)
    && (forall id :: id in kept.byEntity ==> kept.byEntity[id] in hits && kept.byEntity[id].entityId == id)
  }

  ghost predicate AllFirstBest(hits: seq<Hit>, kept: Kept) {
    forall id :: id in kept.byEntity ==> IsFirstBest(hits, kept.byEntity[id])
  }

  /** Per entity, the first hit with the greatest raw score, whatever lane it came from; entities in
      order of first appearance. */
  ghost predicate KeepsBest(hits: seq<Hit>, kept: Kept) {
    KeepsHits(hits, kept) && AllFirstBest(hits, kept)
  }

  lemma AppearanceSnoc(hits: seq<Hit>, kept: Kept, h: Hit)
    requires KeepsHits(hits, kept)
    ensures ByAppearance(hits + [h], if h.entityId in kept.byEntity then kept.order else kept.order + [h.entityId])
  {
    var order := if h.entityId in kept.byEntity then kept.order else kept.order + [h.entityId];
    var more := hits + [h];
    forall i, j, b | 0 <= i < j < |order| && 0 <= b < |more| && more[b].entityId == order[j]
      ensures Appears(more[..b], order[i])
    {
      assert order[i] == kept.order[i] && order[i] in kept.byEntity;
      if b < |hits| {
        assert more[..b] == hits[..b] && hits[b] in hits;
        assert order[j] == kept.order[j];
      } else {
        assert more[..b] == hits;
        var a :| 0 <= a < |hits| && hits[a] == kept.byEntity[order[i]];
      }
    }
  }

  /** A further hit is the best of its entity if it has none or only lower ones; otherwise the one before stays. */
  lemma BestSnoc(hits: seq<Hit>, best: Hit, h: Hit)
    requires IsFirstBest(hits, best)
    ensures h.entityId != best.entityId || h.score <= best.score ==> IsFirstBest(hits + [h], best)
    ensures h.entityId == best.entityId && h.score > best.score ==> IsFirstBest(hits + [h], h)
  {
    var i: nat :| FirstBest(hits, i) && hits[i] == best;
    var more := hits + [h];
    if h.entityId != best.entityId || h.score <= best.score {
      assert FirstBest(more, i) && more[i] == best;
    } else {
      assert FirstBest(more, |hits|) && more[|hits|] == h;
    }
  }

  lemma FirstOfEntity(hits: seq<Hit>, h: Hit)
    requires forall other :: other in hits ==> other.entityId != h.entityId
    ensures IsFirstBest(hits + [h], h)
  {
    assert FirstBest(hits + [h], |hits|) && (hits + [h])[|hits|] == h;
  }

  /** One more hit. */
  ghost function WithHit(kept: Kept, h: Hit): Kept {
    if h.entityId !in kept.byEntity then Kept(kept.order + [h.entityId], kept.byEntity[h.entityId := h])
    else if h.score > kept.byEntity[h.entityId].score then Kept(kept.order, kept.byEntity[h.entityId := h])
    else kept
  }

  lemma KeepsOneMore(hits: seq<Hit>, kept: Kept, h: Hit)
    requires KeepsHits(hits, kept)
    ensures KeepsHits(hits + [h], WithHit(kept, h))
  {
    AppearanceSnoc(hits, kept, h);
    hide ByAppearance;
  }

  lemma BestOneMore(hits: seq<Hit>, kept: Kept, h: Hit)
    requires KeepsHits(hits, kept) && AllFirstBest(hits, kept)
    ensures AllFirstBest(hits + [h], WithHit(kept, h))
  {
    hide IsFirstBest, ByAppearance, Distinct;
    if h.entityId !in kept.byEntity {
      FirstOfEntity(hits, h);
    }
    forall id | id in kept.byEntity
      ensures IsFirstBest(hits + [h], WithHit(kept, h).byEntity[id])
    {
      BestSnoc(hits, kept.byEntity[id], h);
    }
  }

  method KeepBest(hits: seq<Hit>) returns (kept: Kept)
    ensures KeepsBest(hits, kept)
  {
    kept := Kept([], map[]);
    assert KeepsHits(hits[..0], kept) && AllFirstBest(hits[..0], kept);
    hide KeepsHits, AllFirstBest;
    for i := 0 to |hits|
      invariant KeepsBest(hits[..i], kept)
    {
      var h := hits[i];
      assert hits[..i + 1] == hits[..i] + [h];
      KeepsOneMore(hits[..i], kept, h);
      BestOneMore(hits[..i], kept, h);
      if h.entityId !in kept.byEntity {
        kept := Kept(kept.order + [h.entityId], kept.byEntity[h.entityId := h]);
      } else if h.score > kept.byEntity[h.entityId].score {
        kept := Kept(kept.order, kept.byEntity[h.entityId := h]);
      }
    }
    assert hits[..|hits|] == hits;
  }

  function Rescored(hit: Hit, vectorNorm: map<Id, real>, fulltextNorm: map<Id, real>): Hit {
    hit.(score := FusedScore(hit, vectorNorm, fulltextNorm))
  }

  // ---- ranking ----

  ghost predicate Ranked(hits: seq<Hit>) {
    forall i, j :: 0 <= i < j < |hits| ==> hits[i].score >= hits[j].score
  }

  /** Puts a hit behind all that score at least as high, as a stable descending sort does. */
  function Insert(ranked: seq<Hit>, hit: Hit): (r: seq<Hit>)
    ensures |r| == |ranked| + 1
  {
    if ranked == [] then [hit]
    else if ranked[0].score < hit.score then [hit] + ranked
    else [ranked[0]] + Insert(ranked[1..], hit)
  }

  lemma {:induction false} InsertMembers(ranked: seq<Hit>, hit: Hit)
    ensures forall h :: h in Insert(ranked, hit) <==> h == hit || h in ranked
  {
    if ranked != [] {
      InsertMembers(ranked[1..], hit);
      assert ranked == [ranked[0]] + ranked[1..];
    }
  }

  ghost predicate DistinctIds(hits: seq<Hit>) {
    forall i, j :: 0 <= i < j < |hits| ==> hits[i].entityId != hits[j].entityId
  }

  lemma {:induction false} InsertRanks(ranked: seq<Hit>, hit: Hit)
    requires Ranked(ranked) && DistinctIds(ranked)
    requires forall h :: h in ranked ==> h.entityId != hit.entityId
    ensures Ranked(Insert(ranked, hit)) && DistinctIds(Insert(ranked, hit))
  {
    if ranked != [] && ranked[0].score >= hit.score {
      InsertRanks(ranked[1..], hit);
      InsertMembers(ranked[1..], hit);
      var rest := Insert(ranked[1..], hit);
      forall k | 0 <= k < |rest|
        ensures rest[k].score <= ranked[0].score && rest[k].entityId != ranked[0].entityId
      {
        assert rest[k] in rest;
        if rest[k] != hit {
          var i :| 0 <= i < |ranked[1..]| && ranked[1..][i] == rest[k];
          assert ranked[i + 1] == rest[k];
        }
      }
    }
  }

  /** The first position of an entity. */
  function Place(order: seq<Id>, id: Id): nat {
    if order == [] || order[0] == id then 0 else 1 + Place(order[1..], id)
  }

  lemma {:induction false} PlaceSnoc(order: seq<Id>, last: Id, id: Id)
    requires last !in order
    ensures id in order ==> Place(order + [last], id) == Place(order, id) < |order|
    ensures Place(order + [last], last) == |order|
  {
    if order != [] {
      assert (order + [last])[1..] == order[1..] + [last];
      PlaceSnoc(order[1..], last, id);
    }
  }

  /** Of two hits with one score the one whose entity comes first is ranked first. */
  ghost predicate Stable(order: seq<Id>, hits: seq<Hit>) {
    forall i, j :: 0 <= i < j < |hits| && hits[i].score == hits[j].score ==> Place(order, hits[i].entityId) < Place(order, hits[j].entityId)
  }

  lemma {:induction false} InsertStable(order: seq<Id>, ranked: seq<Hit>, hit: Hit)
    requires Ranked(ranked) && Stable(order, ranked)
    requires forall h :: h in ranked ==> Place(order, h.entityId) < Place(order, hit.entityId)
    ensures Stable(order, Insert(ranked, hit))
  {
    if ranked != [] && ranked[0].score >= hit.score {
      InsertStable(order, ranked[1..], hit);
      InsertMembers(ranked[1..], hit);
      var rest := Insert(ranked[1..], hit);
      hide Place;
      forall k | 0 <= k < |rest| && rest[k].score == ranked[0].score
        ensures Place(order, ranked[0].entityId) < Place(order, rest[k].entityId)
      {
        assert rest[k] in rest;
        if rest[k] != hit {
          var i :| 0 <= i < |ranked[1..]| && ranked[1..][i] == rest[k];
          assert ranked[i + 1] == rest[k];
        }
      }
    }
  }

  lemma StableSnoc(order: seq<Id>, last: Id, hits: seq<Hit>)
    requires last !in order && Stable(order, hits) && forall h :: h in hits ==> h.entityId in order
    ensures Stable(order + [last], hits)
    ensures forall h :: h in hits ==> Place(order + [last], h.entityId) < Place(order + [last], last)
  {
    forall h | h in hits
      ensures Place(order + [last], h.entityId) == Place(order, h.entityId) < Place(order + [last], last)
    {
      PlaceSnoc(order, last, h.entityId);
    }
    hide Place;
    assert forall i :: 0 <= i < |hits| ==> hits[i] in hits;
  }

  /** Every hit is filed under its own entity. */
  ghost predicate Filed(order: seq<Id>, scored: map<Id, Hit>) {
    forall id :: id in order ==> id in scored && scored[id].entityId == id
  }

  /** The scored hits of the listed entities, best first, equals in order. */
  ghost predicate RankingOf(order: seq<Id>, scored: map<Id, Hit>, ranked: seq<Hit>)
    requires Filed(order, scored)
  {
    && Ranked(ranked) && DistinctIds(ranked) && Stable(order, ranked)
    && |ranked| == |order|
    && (forall h :: h in ranked ==> h.entityId in order && h == scored[h.entityId])
    && (forall id :: id in order ==> scored[id] in ranked)
  }

  lemma RankOneMore(order: seq<Id>, scored: map<Id, Hit>, ranked: seq<Hit>, id: Id)
    requires Filed(order + [id], scored) && id !in order
    requires Filed(order, scored) && RankingOf(order, scored, ranked)
    ensures RankingOf(order + [id], scored, Insert(ranked, scored[id]))
  {
    assert id in order + [id];
    StableSnoc(order, id, ranked);
    InsertStable(order + [id], ranked, scored[id]);
    hide Stable;
    InsertRanks(ranked, scored[id]);
    InsertMembers(ranked, scored[id]);
  }

  /** Sorts the scored hits, best first, equals in order of appearance. */
  method Rank(order: seq<Id>, scored: map<Id, Hit>) returns (ranked: seq<Hit>)
    requires Filed(order, scored)
    requires Distinct(order)
    ensures RankingOf(order, scored, ranked)
  {
    ranked := [];
    for n := 0 to |order|
      invariant RankingOf(order[..n], scored, ranked)
    {
      assert order[..n + 1] == order[..n] + [order[n]];
      RankOneMore(order[..n], scored, ranked, order[n]);
      ranked := Insert(ranked, scored[order[n]]);
    }
    assert order[..|order|] == order;
  }

  /** The first `topK` of a ranking. */
  function Top(ranked: seq<Hit>, topK: nat): seq<Hit> {
    if |ranked| < topK then ranked else ranked[..topK]
  }

  /** Of two hits the higher score goes first, of equal ones the entity that is listed first. */
  ghost predicate Precedes(order: seq<Id>, a: Hit, b: Hit) {
    a.score > b.score || (a.score == b.score && Place(order, a.entityId) < Place(order, b.entityId))
  }

  /** What a fused search returns: distinct entities with their fused scores, best first and equals in
      order of appearance, and every entity left out goes behind all that are returned. */
  ghost predicate BestOf(order: seq<Id>, scored: map<Id, Hit>, topK: nat, result: seq<Hit>) {
    && Ranked(result) && DistinctIds(result) && Stable(order, result)
    && |result| == (if |scored| < topK then |scored| else topK)
    && (forall h :: h in result ==> h.entityId in scored && h == scored[h.entityId])
    && (forall id, h :: id in scored && scored[id] !in result && h in result ==> Precedes(order, h, scored[id]))
  }

  lemma OmittedGoesBehind(order: seq<Id>, ranked: seq<Hit>, topK: nat, out: Hit, h: Hit)
    requires Ranked(ranked) && Stable(order, ranked)
    requires out in ranked && out !in Top(ranked, topK)
    requires h in Top(ranked, topK)
    ensures Precedes(order, h, out)
  {
    hide Place;
  }

  lemma {:induction false} ListedOnce(order: seq<Id>, ids: set<Id>)
    requires Distinct(order)
    requires forall id :: id in order <==> id in ids
    ensures |order| == |ids|
  {
    if order != [] {
      var rest := order[..|order| - 1];
      var last := order[|order| - 1];
      forall id
        ensures id in rest <==> id in ids - {last}
      {
        if id in order && id != last {
          var i :| 0 <= i < |order| && order[i] == id;
          assert rest[i] == id;
        }
      }
      ListedOnce(rest, ids - {last});
    }
  }

  lemma TopOfRanking(order: seq<Id>, scored: map<Id, Hit>, topK: nat, ranked: seq<Hit>)
    requires Filed(order, scored)
    requires Distinct(order)
    requires forall id :: id in order <==> id in scored
    requires RankingOf(order, scored, ranked)
    ensures BestOf(order, scored, topK, Top(ranked, topK))
  {
    hide Place;
    ListedOnce(order, scored.Keys);
    assert |scored| == |scored.Keys|;
    var result := Top(ranked, topK);
    forall id, h | id in scored && scored[id] !in result && h in result
      ensures Precedes(order, h, scored[id])
    {
      OmittedGoesBehind(order, ranked, topK, scored[id], h);
    }
  }

  /** Gives every kept hit its fused score. */
  method Rescore(kept: Kept, vectorNorm: map<Id, real>, fulltextNorm: map<Id, real>) returns (scored: map<Id, Hit>)
    requires forall id :: id in kept.byEntity <==> id in kept.order
    ensures scored == map id | id in kept.byEntity :: Rescored(kept.byEntity[id], vectorNorm, fulltextNorm)
  {
    scored := kept.byEntity;
    for n := 0 to |kept.order|
      invariant scored.Keys == kept.byEntity.Keys
      invariant forall id :: id in scored ==>
                  scored[id] == if id in kept.order[..n] then Rescored(kept.byEntity[id], vectorNorm, fulltextNorm) else kept.byEntity[id]
    {
      var id := kept.order[n];
      assert kept.order[..n + 1] == kept.order[..n] + [id];
      scored := scored[id := Rescored(kept.byEntity[id], vectorNorm, fulltextNorm)];
    }
    assert kept.order[..|kept.order|] == kept.order;
  }

  /** `result` ranks the best hit of every entity by fused score. */
  ghost predicate FusedWith(fulltextRows: seq<Row>, vectorRows: seq<Row>, topK: nat, result: seq<Hit>,
                            kept: Kept, vectorNorm: map<Id, real>, fulltextNorm: map<Id, real>)
  {
    && IsNormalized(LaneScores(ToHits(vectorRows)), vectorNorm)
    && IsNormalized(LaneScores(ToHits(fulltextRows)), fulltextNorm)
    && KeepsBest(ToHits(fulltextRows) + ToHits(vectorRows), kept)
    && BestOf(kept.order, map id | id in kept.byEntity :: Rescored(kept.byEntity[id], vectorNorm, fulltextNorm), topK, result)
  }

  ghost predicate FusionOf(fulltextRows: seq<Row>, vectorRows: seq<Row>, topK: nat, result: seq<Hit>) {
    exists kept, vectorNorm, fulltextNorm :: FusedWith(fulltextRows, vectorRows, topK, result, kept, vectorNorm, fulltextNorm)
  }

  method FuseRows(fulltextRows: seq<Row>, vectorRows: seq<Row>, topK: nat) returns (result: seq<Hit>)
    ensures FusionOf(fulltextRows, vectorRows, topK, result)
  {
    hide IsNormalized, BestOf;
    var fulltextHits, vectorHits := ToHits(fulltextRows), ToHits(vectorRows);
    var fulltextNorm := NormalizeScores(LaneScores(fulltextHits));
    var vectorNorm := NormalizeScores(LaneScores(vectorHits));
    var kept := KeepBest(fulltextHits + vectorHits);
    var scored := Rescore(kept, vectorNorm, fulltextNorm);
    var ranked := Rank(kept.order, scored);
    TopOfRanking(kept.order, scored, topK, ranked);
    result := Top(ranked, topK);
    assert FusedWith(fulltextRows, vectorRows, topK, result, kept, vectorNorm, fulltextNorm);
  }

  lemma KeptUnderOwnId(hits: seq<Hit>, kept: Kept, id: Id)
    requires KeepsBest(hits, kept) && id in kept.byEntity
    ensures kept.byEntity[id].entityId == id
  {
    hide ByAppearance, AllFirstBest;
  }

  lemma ReturnedOrLower(order: seq<Id>, scored: map<Id, Hit>, topK: nat, result: seq<Hit>, h: Hit, id: Id)
    requires BestOf(order, scored, topK, result) && h in result && id in scored
    ensures h.entityId in scored && h == scored[h.entityId]
    ensures scored[id] in result || scored[id].score <= h.score
  {
    hide Ranked, DistinctIds, Stable, Place;
  }

  /** In a fused result, an entity that is at least as good as a returned one in every respect is
      returned too, or has the same score. */
  lemma BetterEntityNotDropped(fulltextRows: seq<Row>, vectorRows: seq<Row>, topK: nat, result: seq<Hit>,
                               kept: Kept, vectorNorm: map<Id, real>, fulltextNorm: map<Id, real>, h: Hit, id: Id)
    requires FusedWith(fulltextRows, vectorRows, topK, result, kept, vectorNorm, fulltextNorm)
    requires h in result && id in kept.byEntity
    requires AtLeast(LaneScores(ToHits(vectorRows)), id, h.entityId) && AtLeast(LaneScores(ToHits(fulltextRows)), id, h.entityId)
    requires h.importance <= kept.byEntity[id].importance
    requires h.memoryLayer == "long_term" ==> kept.byEntity[id].memoryLayer == "long_term"
    ensures var better := Rescored(kept.byEntity[id], vectorNorm, fulltextNorm);
            better in result || better.score == h.score
  {
    hide IsNormalized, LaneScores, ToHits, KeepsBest, BestOf;
    var scored := map e | e in kept.byEntity :: Rescored(kept.byEntity[e], vectorNorm, fulltextNorm);
    ReturnedOrLower(kept.order, scored, topK, result, h, id);
    KeptUnderOwnId(ToHits(fulltextRows) + ToHits(vectorRows), kept, id);
    KeptUnderOwnId(ToHits(fulltextRows) + ToHits(vectorRows), kept, h.entityId);
    FusionIsMonotone(kept.byEntity[id], kept.byEntity[h.entityId], LaneScores(ToHits(vectorRows)), LaneScores(ToHits(fulltextRows)),
                     vectorNorm, fulltextNorm);
    hide FusedScore;
    assert scored[id].score >= h.score;
  }
}
