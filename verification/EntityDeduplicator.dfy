// Merging the entities of one batch with each other. Entities are objects that several indices may
// share, so identity matters.

module EntityDeduplicator {
  import opened Options
  import opened Vectors
  import opened MemoryValues
  import opened EntityProfiles
  import opened RedirectChains

  class EntityNode {
    var id: Id
    var name: string
    const kind: string
    var description: string
    var embedding: Vector
    var importance: real
    var confidence: real
    var mentionCount: int
    var accessCount: int
    var lastAccessAt: Option<Time>
    var memoryLayer: string
    var coreFacts: seq<string>
    var traits: seq<string>

    constructor (id: Id, name: string, kind: string, p: Profile)
      ensures this.id == id && this.name == name && this.kind == kind && View() == p
    {
      this.id, this.name, this.kind := id, name, kind;
      description, embedding, importance, confidence := p.description, p.embedding, p.importance, p.confidence;
      mentionCount, accessCount, lastAccessAt, memoryLayer := p.mentionCount, p.accessCount, p.lastAccessAt, p.memoryLayer;
      coreFacts, traits := p.coreFacts, p.traits;
    }

    function View(): Profile
      reads this
    {
      Profile(description, embedding, importance, confidence, mentionCount, accessCount, lastAccessAt, memoryLayer, coreFacts, traits)
    }
  }

  /** `norm` strips and lower-cases a name; `nameSimilarity` is any measure on normalised names. */
  datatype Settings = Settings(
    norm: string -> string, nameSimilarity: (string, string) -> real, sqrt: real -> real,
    similarityThreshold: real, mergeConfidence: real, maxCandidates: nat)

  /** One answer of the model; no answer at all counts as the default, which never merges. */
  datatype Decision = Decision(sameEntity: bool, canonicalIdx: int, confidence: real)

  function ShouldMerge(cfg: Settings, d: Decision): bool {
    d.sameEntity && d.confidence >= cfg.mergeConfidence
  }

  function Key(cfg: Settings, e: EntityNode): (string, string)
    reads e
  {
    (cfg.norm(e.name), e.kind)
  }

  predicate Contains(outer: string, inner: string) {
    inner <= outer || (outer != [] && Contains(outer[1..], inner))
  }

  /** Same type, and similar by name, by embedding, or by one name containing the other. */
  predicate IsCandidate(cfg: Settings, left: EntityNode, right: EntityNode)
    reads left, right
  {
    var l, r := cfg.norm(left.name), cfg.norm(right.name);
    && left.kind == right.kind
    && (|| cfg.nameSimilarity(l, r) >= cfg.similarityThreshold
        || CosineSimilarity(cfg.sqrt, left.embedding, right.embedding) >= cfg.similarityThreshold
        || (l != "" && r != "" && (Contains(r, l) || Contains(l, r))))
  }

  // ---- single operations ----

  /** Counts and grades: mentions add up, everything else only rises. */
  method MergeStatistics(canonical: EntityNode, duplicate: EntityNode)
    modifies canonical`mentionCount, canonical`accessCount, canonical`importance, canonical`confidence, canonical`lastAccessAt
    ensures canonical.mentionCount == old(canonical.mentionCount) + old(duplicate.mentionCount)
    ensures canonical.accessCount == MaxInt(old(canonical.accessCount), old(duplicate.accessCount))
    ensures canonical.importance == MaxReal(old(canonical.importance), old(duplicate.importance))
    ensures canonical.confidence == MaxReal(old(canonical.confidence), old(duplicate.confidence))
    ensures canonical.lastAccessAt == Later(old(canonical.lastAccessAt), old(duplicate.lastAccessAt))
  {
    canonical.mentionCount := canonical.mentionCount + duplicate.mentionCount;
    canonical.accessCount := MaxInt(canonical.accessCount, duplicate.accessCount);
    canonical.importance := MaxReal(canonical.importance, duplicate.importance);
    canonical.confidence := MaxReal(canonical.confidence, duplicate.confidence);
    if duplicate.lastAccessAt.Some?
       && (canonical.lastAccessAt.None? || duplicate.lastAccessAt.value > canonical.lastAccessAt.value) {
      canonical.lastAccessAt := duplicate.lastAccessAt;
    }
  }

  /** Layer, description, embedding and lists. */
  method MergePortrait(canonical: EntityNode, duplicate: EntityNode)
    modifies canonical`memoryLayer, canonical`description, canonical`embedding, canonical`coreFacts, canonical`traits
    ensures canonical.memoryLayer == if old(duplicate.memoryLayer) == LONG_TERM then LONG_TERM else old(canonical.memoryLayer)
    ensures canonical.description ==
            if |old(duplicate.description)| > |old(canonical.description)| then old(duplicate.description) else old(canonical.description)
    ensures canonical.embedding ==
            if old(canonical.embedding) == [] && old(duplicate.embedding) != [] then old(duplicate.embedding) else old(canonical.embedding)
    ensures canonical.coreFacts == MergeUniqueStrings(old(canonical.coreFacts), old(duplicate.coreFacts))
    ensures canonical.traits == MergeUniqueStrings(old(canonical.traits), old(duplicate.traits))
  {
    hide MergeUniqueStrings;
    if duplicate.memoryLayer == LONG_TERM {
      canonical.memoryLayer := LONG_TERM;
    }
    if |duplicate.description| > |canonical.description| {
      canonical.description := duplicate.description;
    }
    if canonical.embedding == [] && duplicate.embedding != [] {
      canonical.embedding := duplicate.embedding;
    }
    canonical.coreFacts := MergeUnique(canonical.coreFacts, duplicate.coreFacts);
    canonical.traits := MergeUnique(canonical.traits, duplicate.traits);
  }

  /** Merges a duplicate into a canonical entity, in place. */
  method MergeInto(canonical: EntityNode, duplicate: EntityNode)
    modifies canonical
    ensures canonical.View() == Merged(old(canonical.View()), old(duplicate.View()))
    ensures canonical.id == old(canonical.id) && canonical.name == old(canonical.name)
  {
    hide MergeUniqueStrings, MaxReal, MaxInt, Later;
    MergeStatistics(canonical, duplicate);
    MergePortrait(canonical, duplicate);
  }

  method ReuseStatistics(entity: EntityNode, existing: EntityNode)
    requires entity != existing
    modifies entity`mentionCount, entity`accessCount, entity`lastAccessAt, entity`importance, entity`confidence
    ensures entity.mentionCount == existing.mentionCount + old(entity.mentionCount)
    ensures entity.accessCount == existing.accessCount && entity.lastAccessAt == existing.lastAccessAt
    ensures entity.importance == MaxReal(old(entity.importance), existing.importance)
    ensures entity.confidence == MaxReal(old(entity.confidence), existing.confidence)
  {
    entity.mentionCount := existing.mentionCount + entity.mentionCount;
    entity.accessCount, entity.lastAccessAt := existing.accessCount, existing.lastAccessAt;
    entity.importance := MaxReal(entity.importance, existing.importance);
    entity.confidence := MaxReal(entity.confidence, existing.confidence);
  }

  method ReusePortrait(entity: EntityNode, existing: EntityNode)
    requires entity != existing
    modifies entity`memoryLayer, entity`description, entity`embedding, entity`coreFacts, entity`traits
    ensures entity.memoryLayer ==
            if existing.memoryLayer == LONG_TERM || old(entity.memoryLayer) == LONG_TERM then LONG_TERM else existing.memoryLayer
    ensures entity.description ==
            if |old(entity.description)| > |existing.description| then old(entity.description) else existing.description
    ensures entity.embedding == if existing.embedding != [] then existing.embedding else old(entity.embedding)
    ensures entity.coreFacts == MergeUniqueStrings(existing.coreFacts, old(entity.coreFacts))
    ensures entity.traits == MergeUniqueStrings(existing.traits, old(entity.traits))
  {
    hide MergeUniqueStrings;
    var oldDescription, oldEmbedding := entity.description, entity.embedding;
    entity.description := existing.description;
    entity.embedding := if existing.embedding != [] then existing.embedding else oldEmbedding;
    entity.memoryLayer := if existing.memoryLayer == LONG_TERM || entity.memoryLayer == LONG_TERM then LONG_TERM
                          else existing.memoryLayer;
    entity.coreFacts := MergeUnique(existing.coreFacts, entity.coreFacts);
    entity.traits := MergeUnique(existing.traits, entity.traits);
    if |oldDescription| > |entity.description| {
      entity.description := oldDescription;
    }
  }

  /** Lets an incoming entity continue a stored one, in place. */
  method ReuseExisting(entity: EntityNode, existing: EntityNode)
    requires entity != existing
    modifies entity
    ensures entity.View() == Reused(old(entity.View()), existing.View())
    ensures entity.id == existing.id && entity.name == existing.name
  {
    hide MergeUniqueStrings, MaxReal, MaxInt;
    entity.id := existing.id;
    entity.name := existing.name;
    ReuseStatistics(entity, existing);
    ReusePortrait(entity, existing);
  }

  /** The position of the first candidate with the entity's key. */
  method FindExact(cfg: Settings, entity: EntityNode, candidates: seq<EntityNode>) returns (found: Option<nat>)
    ensures match found
            case Some(i) => i < |candidates| && Key(cfg, candidates[i]) == Key(cfg, entity)
                            && forall j :: 0 <= j < i ==> Key(cfg, candidates[j]) != Key(cfg, entity)
            case None => forall c :: c in candidates ==> Key(cfg, c) != Key(cfg, entity)
  {
    for i := 0 to |candidates|
      invariant forall j :: 0 <= j < i ==> Key(cfg, candidates[j]) != Key(cfg, entity)
    {
      if candidates[i].kind == entity.kind && cfg.norm(candidates[i].name) == cfg.norm(entity.name) {
        return Some(i);
      }
    }
    return None;
  }

  /** The positions of all items that are similar enough to ask about, in order. */
  function Candidates(cfg: Settings, entity: EntityNode, items: seq<EntityNode>): (positions: seq<nat>)
    reads entity, items
    ensures forall p :: p in positions ==> p < |items| && IsCandidate(cfg, items[p], entity)
  {
    if items == [] then []
    else
      var last := |items| - 1;
      Candidates(cfg, entity, items[..last]) + if IsCandidate(cfg, items[last], entity) then [last] else []
  }

  /** The positions that are asked about: the first few candidates. */
  function Askable(cfg: Settings, entity: EntityNode, items: seq<EntityNode>): (positions: seq<nat>)
    reads entity, items
    ensures |positions| <= cfg.maxCandidates
    ensures forall i :: 0 <= i < |positions| ==> positions[i] < |items| && IsCandidate(cfg, items[positions[i]], entity)
  {
    var all := Candidates(cfg, entity, items);
    assert forall i :: 0 <= i < |all| ==> all[i] in all;
    if |all| <= cfg.maxCandidates then all else all[..cfg.maxCandidates]
  }

  /** Collects the candidates to ask about. */
  method CandidatePositions(cfg: Settings, entity: EntityNode, items: seq<EntityNode>) returns (positions: seq<nat>)
    ensures positions == Askable(cfg, entity, items)
  {
    hide IsCandidate;
    positions := [];
    for i := 0 to |items|
      invariant positions == Candidates(cfg, entity, items[..i])
    {
      assert items[..i + 1][..i] == items[..i];
      if IsCandidate(cfg, items[i], entity) {
        positions := positions + [i];
      }
    }
    assert items[..|items|] == items;
    if |positions| > cfg.maxCandidates {
      positions := positions[..cfg.maxCandidates];
    }
  }

  /** Puts a new canonical entity in the place of an old one, in the list and under every index. */
  method ReplaceCanonical(items: seq<EntityNode>, indices: seq<int>, byIdx: seq<EntityNode>, was: EntityNode, newIdx: int, next: EntityNode,
                          ghost at: nat)
    returns (items': seq<EntityNode>, indices': seq<int>, byIdx': seq<EntityNode>)
    requires |indices| == |items|
    requires Distinct(items) && at < |items| && items[at] == was
    ensures items' == items[at := next] && indices' == indices[at := newIdx]
    ensures byIdx' == Relabeled(byIdx, was, next)
  {
    items', indices', byIdx' := items, indices, byIdx;
    for i := 0 to |items|
      invariant i <= at && items' == items && indices' == indices
    {
      if items[i] == was {
        items', indices' := items[i := next], indices[i := newIdx];
        break;
      }
    }
    for i := 0 to |byIdx|
      invariant |byIdx'| == |byIdx|
      invariant forall j :: 0 <= j < |byIdx| ==> byIdx'[j] == if j < i && byIdx[j] == was then next else byIdx[j]
    {
      if byIdx[i] == was {
        byIdx' := byIdx'[i := next];
      }
    }
  }

  // ---- the state of a batch ----

  type Keys = map<EntityNode, (string, string)>
  type Views = map<EntityNode, Profile>

  ghost predicate DistinctKeys(canon: seq<EntityNode>, keyOf: Keys) {
    && (forall c :: c in canon ==> c in keyOf)
    && forall a, b :: 0 <= a < b < |canon| ==> keyOf[canon[a]] != keyOf[canon[b]]
  }

  /** Every position seen so far has a canonical representative of its type. */
  ghost predicate Represented(batch: seq<EntityNode>, canon: seq<EntityNode>, rep: seq<EntityNode>) {
    |rep| <= |batch| && forall i :: 0 <= i < |rep| ==> rep[i] in canon && rep[i].kind == batch[i].kind
  }

  /** Every canonical entity sums up its group. */
  ghost predicate SummedUp(canon: seq<EntityNode>, rep: seq<EntityNode>, initial: seq<Profile>, views: Views) {
    |rep| <= |initial| && forall c :: c in canon ==> c in views && Summarizes(rep, initial[..|rep|], c, views[c])
  }

  /** Canonical entities are distinct objects out of the part of the batch already seen. */
  ghost predicate Chosen(batch: seq<EntityNode>, canon: seq<EntityNode>, k: nat) {
    k <= |batch| && Distinct(canon) && forall c :: c in canon ==> c in batch[..k]
  }

  /** What the loop over a batch has established after `|rep|` entities. */
  ghost predicate BatchState(batch: seq<EntityNode>, keyOf: Keys, canon: seq<EntityNode>, rep: seq<EntityNode>, initial: seq<Profile>, views: Views) {
    && |batch| == |initial| && Distinct(batch)
    && Chosen(batch, canon, |rep|)
    && DistinctKeys(canon, keyOf)
    && Represented(batch, canon, rep)
    && SummedUp(canon, rep, initial, views)
  }

  lemma NextIsNew(batch: seq<EntityNode>, canon: seq<EntityNode>, rep: seq<EntityNode>)
    requires |rep| < |batch| && Distinct(batch)
    requires Chosen(batch, canon, |rep|) && Represented(batch, canon, rep)
    ensures batch[|rep|] !in canon && batch[|rep|] !in rep
  {
  }

  lemma ChosenLater(batch: seq<EntityNode>, canon: seq<EntityNode>, k: nat)
    requires Chosen(batch, canon, k) && k < |batch|
    ensures Chosen(batch, canon, k + 1)
  {
  }

  /** The next entity was merged into the canonical entity `c`. */
  lemma GroupGrows(canon: seq<EntityNode>, rep: seq<EntityNode>, initial: seq<Profile>, views: Views, c: EntityNode)
    requires |rep| < |initial|
    requires SummedUp(canon, rep, initial, views)
    requires c in canon && c in views
    ensures SummedUp(canon, rep + [c], initial, views[c := Merged(views[c], initial[|rep|])])
  {
    var joined := Merged(views[c], initial[|rep|]);
    assert initial[..|rep| + 1] == initial[..|rep|] + [initial[|rep|]];
    hide Summarizes, Merged;
    forall d | d in canon
      ensures Summarizes(rep + [c], initial[..|rep| + 1], d, views[c := joined][d])
    {
      if d == c {
        SummarizesJoin(rep, initial[..|rep|], c, initial[|rep|], views[c], joined);
      } else {
        SummarizesOther(rep, initial[..|rep|], d, c, initial[|rep|], views[d]);
      }
    }
  }

  lemma RepresentedGrows(batch: seq<EntityNode>, canon: seq<EntityNode>, rep: seq<EntityNode>, c: EntityNode)
    requires |rep| < |batch| && c in canon
    requires Represented(batch, canon, rep) && c.kind == batch[|rep|].kind
    ensures Represented(batch, canon, rep + [c])
  {
  }

  lemma StateGrows(batch: seq<EntityNode>, keyOf: Keys, canon: seq<EntityNode>, rep: seq<EntityNode>, initial: seq<Profile>, views: Views,
                   c: EntityNode, views': Views)
    requires BatchState(batch, keyOf, canon, rep, initial, views)
    requires |rep| < |batch| && c in canon && c in views
    requires c.kind == batch[|rep|].kind
    requires views' == views[c := Merged(views[c], initial[|rep|])]
    ensures BatchState(batch, keyOf, canon, rep + [c], initial, views')
  {
    hide SummedUp, Chosen, DistinctKeys, Distinct, Represented;
    GroupGrows(canon, rep, initial, views, c);
    ChosenLater(batch, canon, |rep|);
    RepresentedGrows(batch, canon, rep, c);
  }

  lemma GroupStarts(canon: seq<EntityNode>, rep: seq<EntityNode>, initial: seq<Profile>, views: Views, e: EntityNode)
    requires |rep| < |initial| && e !in canon && e !in rep
    requires SummedUp(canon, rep, initial, views)
    ensures SummedUp(canon + [e], rep + [e], initial, views[e := initial[|rep|]])
  {
    assert initial[..|rep| + 1] == initial[..|rep|] + [initial[|rep|]];
    hide Summarizes;
    forall d | d in canon + [e]
      ensures Summarizes(rep + [e], initial[..|rep| + 1], d, views[e := initial[|rep|]][d])
    {
      if d == e {
        SummarizesAlone(rep, initial[..|rep|], e, initial[|rep|]);
      } else {
        SummarizesOther(rep, initial[..|rep|], d, e, initial[|rep|], views[d]);
      }
    }
  }

  lemma CanonStarts(batch: seq<EntityNode>, keyOf: Keys, canon: seq<EntityNode>, rep: seq<EntityNode>)
    requires |rep| < |batch| && batch[|rep|] in keyOf && batch[|rep|] !in canon
    requires Chosen(batch, canon, |rep|) && DistinctKeys(canon, keyOf) && Represented(batch, canon, rep)
    requires forall c :: c in canon ==> keyOf[c] != keyOf[batch[|rep|]]
    ensures var e := batch[|rep|];
            Chosen(batch, canon + [e], |rep| + 1) && DistinctKeys(canon + [e], keyOf) && Represented(batch, canon + [e], rep + [e])
  {
  }

  /** The next entity stays on its own. */
  lemma StateStarts(batch: seq<EntityNode>, keyOf: Keys, canon: seq<EntityNode>, rep: seq<EntityNode>, initial: seq<Profile>, views: Views)
    requires BatchState(batch, keyOf, canon, rep, initial, views)
    requires |rep| < |batch| && batch[|rep|] in keyOf
    requires forall c :: c in canon ==> keyOf[c] != keyOf[batch[|rep|]]
    ensures var e := batch[|rep|];
            BatchState(batch, keyOf, canon + [e], rep + [e], initial, views[e := initial[|rep|]])
  {
    hide SummedUp, Chosen, DistinctKeys, Distinct, Represented;
    NextIsNew(batch, canon, rep);
    GroupStarts(canon, rep, initial, views, batch[|rep|]);
    CanonStarts(batch, keyOf, canon, rep);
  }

  lemma SwappedGroups(canon: seq<EntityNode>, rep: seq<EntityNode>, initial: seq<Profile>, views: Views, at: nat, e: EntityNode, joined: Profile)
    requires |rep| < |initial|
    requires SummedUp(canon, rep, initial, views)
    requires Distinct(canon) && at < |canon| && e !in canon && e !in rep
    requires canon[at] in views && joined == Merged(initial[|rep|], views[canon[at]])
    ensures SummedUp(canon[at := e], Relabeled(rep, canon[at], e) + [e], initial, views[e := joined])
  {
    var was := canon[at];
    var relabeled, canon' := Relabeled(rep, was, e), canon[at := e];
    assert initial[..|rep| + 1] == initial[..|rep|] + [initial[|rep|]];
    hide Summarizes, Merged;
    forall d | d in canon'
      ensures d in views[e := joined] && Summarizes(relabeled + [e], initial[..|rep| + 1], d, views[e := joined][d])
    {
      if d == e {
        SummarizesRelabel(rep, initial[..|rep|], was, relabeled, e, views[was]);
        SummarizesJoin(relabeled, initial[..|rep|], e, initial[|rep|], views[was], joined);
      } else {
        assert d in canon && d != was;
        SummarizesRelabel(rep, initial[..|rep|], d, relabeled, d, views[d]);
        SummarizesOther(relabeled, initial[..|rep|], d, e, initial[|rep|], views[d]);
      }
    }
  }

  lemma KeysSwapped(canon: seq<EntityNode>, keyOf: Keys, at: nat, e: EntityNode)
    requires DistinctKeys(canon, keyOf) && at < |canon| && e in keyOf
    requires forall c :: c in canon ==> keyOf[c] != keyOf[e]
    ensures DistinctKeys(canon[at := e], keyOf)
  {
  }

  lemma ChosenDistinct(batch: seq<EntityNode>, canon: seq<EntityNode>, k: nat)
    requires Chosen(batch, canon, k)
    ensures Distinct(canon)
  {
  }

  lemma ChosenSwapped(batch: seq<EntityNode>, canon: seq<EntityNode>, k: nat, at: nat)
    requires k < |batch| && at < |canon|
    requires Chosen(batch, canon, k) && batch[k] !in canon
    ensures Chosen(batch, canon[at := batch[k]], k + 1)
  {
    assert batch[..k + 1] == batch[..k] + [batch[k]];
  }

  lemma RepresentedSwapped(batch: seq<EntityNode>, canon: seq<EntityNode>, rep: seq<EntityNode>, at: nat)
    requires |rep| < |batch| && at < |canon|
    requires Represented(batch, canon, rep) && canon[at].kind == batch[|rep|].kind
    ensures Represented(batch, canon[at := batch[|rep|]], Relabeled(rep, canon[at], batch[|rep|]) + [batch[|rep|]])
  {
    var e, was := batch[|rep|], canon[at];
    var canon', rep' := canon[at := e], Relabeled(rep, was, e) + [e];
    forall i | 0 <= i < |rep'|
      ensures rep'[i] in canon' && rep'[i].kind == batch[i].kind
    {
      if i < |rep| && rep[i] != was {
        var j :| 0 <= j < |canon| && canon[j] == rep[i];
        assert canon'[j] == rep[i];
      } else {
        assert canon'[at] == e;
      }
    }
  }

  /** The next entity took over from a canonical one that it merged in. */
  lemma StateSwaps(batch: seq<EntityNode>, keyOf: Keys, canon: seq<EntityNode>, rep: seq<EntityNode>, initial: seq<Profile>, views: Views,
                   at: nat, e: EntityNode, joined: Profile)
    requires BatchState(batch, keyOf, canon, rep, initial, views)
    requires |rep| < |batch| && e == batch[|rep|] && e in keyOf
    requires DistinctKeys(canon, keyOf) && forall c :: c in canon ==> keyOf[c] != keyOf[e]
    requires at < |canon| && canon[at].kind == e.kind
    requires canon[at] in views && joined == Merged(initial[|rep|], views[canon[at]])
    ensures BatchState(batch, keyOf, canon[at := e], Relabeled(rep, canon[at], e) + [e], initial, views[e := joined])
  {
    hide SummedUp, Chosen, DistinctKeys, Distinct, Represented;
    NextIsNew(batch, canon, rep);
    ChosenDistinct(batch, canon, |rep|);
    SwappedGroups(canon, rep, initial, views, at, e, joined);
    RepresentedSwapped(batch, canon, rep, at);
    ChosenSwapped(batch, canon, |rep|, at);
    KeysSwapped(canon, keyOf, at, e);
  }

  // ---- deduplicating a batch ----

  type Ids = map<EntityNode, Id>

  /** The recorded keys and ids are those of the live objects. */
  ghost predicate NamesTracked(cfg: Settings, batch: seq<EntityNode>, keyOf: Keys, idOf: Ids)
    reads batch
  {
    forall e :: e in batch ==> e in keyOf && keyOf[e] == Key(cfg, e) && e in idOf && idOf[e] == e.id
  }

  /** The recorded values of canonical entities are the live ones. */
  ghost predicate ViewsTracked(canon: seq<EntityNode>, views: Views)
    reads canon
  {
    forall c :: c in canon ==> c in views && views[c] == c.View()
  }

  /** Entities not reached yet are as they were. */
  ghost predicate RestUntouched(batch: seq<EntityNode>, k: nat, initial: seq<Profile>)
    reads batch
  {
    |initial| == |batch| && forall j :: k <= j < |batch| ==> batch[j].View() == initial[j]
  }

  ghost predicate Tracks(cfg: Settings, batch: seq<EntityNode>, canon: seq<EntityNode>, k: nat, keyOf: Keys, idOf: Ids,
                         initial: seq<Profile>, views: Views)
    reads batch, canon
  {
    && NamesTracked(cfg, batch, keyOf, idOf)
    && ViewsTracked(canon, views)
    && RestUntouched(batch, k, initial)
  }

  /** Recorded ids that agree belong to recorded keys that agree. */
  ghost predicate IdsMatchKeys(batch: seq<EntityNode>, keyOf: Keys, idOf: Ids) {
    && (forall e :: e in batch ==> e in keyOf)
    && forall a, b :: a in batch && b in batch && IdIn(idOf, a) == IdIn(idOf, b) ==> keyOf[a] == keyOf[b]
  }

  /** The redirects so far, where ids are made from keys. */
  ghost predicate ChainsRight(batch: seq<EntityNode>, keyOf: Keys, canon: seq<EntityNode>, rep: seq<EntityNode>, idOf: Ids, redirects: map<Id, Id>) {
    IdsMatchKeys(batch, keyOf, idOf) && Chains(batch, canon, rep, idOf, redirects)
  }

  lemma KeyIsUnique(canon: seq<EntityNode>, keyOf: Keys, c: EntityNode, d: EntityNode)
    requires DistinctKeys(canon, keyOf) && c in canon && d in canon && keyOf[c] == keyOf[d]
    ensures c == d
  {
    var i :| 0 <= i < |canon| && canon[i] == c;
    var j :| 0 <= j < |canon| && canon[j] == d;
    assert !(i < j) && !(j < i);
  }

  lemma AllMembersOfBatch(batch: seq<EntityNode>, canon: seq<EntityNode>, k: nat)
    requires Chosen(batch, canon, k)
    ensures forall c :: c in canon ==> c in batch
  {
  }

  /** Canonical entities have distinct keys, hence distinct ids. */
  lemma StateIsGrouped(batch: seq<EntityNode>, keyOf: Keys, canon: seq<EntityNode>, rep: seq<EntityNode>, initial: seq<Profile>, views: Views, idOf: Ids)
    requires BatchState(batch, keyOf, canon, rep, initial, views) && IdsMatchKeys(batch, keyOf, idOf)
    ensures Grouped(batch, canon, rep, idOf)
  {
    hide SummedUp;
    AllMembersOfBatch(batch, canon, |rep|);
    forall c, d | c in canon && d in canon && IdIn(idOf, c) == IdIn(idOf, d)
      ensures c == d
    {
      KeyIsUnique(canon, keyOf, c, d);
    }
  }

  lemma RedirectsJoin(batch: seq<EntityNode>, keyOf: Keys, canon: seq<EntityNode>, rep: seq<EntityNode>, initial: seq<Profile>, views: Views,
                      idOf: Ids, redirects: map<Id, Id>, c: EntityNode)
    requires BatchState(batch, keyOf, canon, rep, initial, views) && ChainsRight(batch, keyOf, canon, rep, idOf, redirects)
    requires |rep| < |batch| && c in canon
    requires forall d :: d in canon && keyOf[d] == keyOf[batch[|rep|]] ==> keyOf[c] == keyOf[d]
    ensures var id, to := IdIn(idOf, batch[|rep|]), IdIn(idOf, c);
            ChainsRight(batch, keyOf, canon, rep + [c], idOf, if id != to then redirects[id := to] else redirects)
  {
    hide SummedUp, Represented, Distinct, Chains, Grouped;
    StateIsGrouped(batch, keyOf, canon, rep, initial, views, idOf);
    AllMembersOfBatch(batch, canon, |rep|);
    forall d | d in canon && IdIn(idOf, d) == IdIn(idOf, batch[|rep|])
      ensures d == c
    {
      KeyIsUnique(canon, keyOf, d, c);
    }
    ChainsJoin(batch, canon, rep, idOf, redirects, c);
  }

  lemma RedirectsStart(batch: seq<EntityNode>, keyOf: Keys, canon: seq<EntityNode>, rep: seq<EntityNode>, initial: seq<Profile>, views: Views,
                       idOf: Ids, redirects: map<Id, Id>)
    requires BatchState(batch, keyOf, canon, rep, initial, views) && ChainsRight(batch, keyOf, canon, rep, idOf, redirects)
    requires |rep| < |batch|
    ensures ChainsRight(batch, keyOf, canon + [batch[|rep|]], rep + [batch[|rep|]], idOf, redirects)
  {
    hide BatchState, Chains, Grouped;
    StateIsGrouped(batch, keyOf, canon, rep, initial, views, idOf);
    ChainsStart(batch, canon, rep, idOf, redirects);
  }

  lemma RedirectsSwap(batch: seq<EntityNode>, keyOf: Keys, canon: seq<EntityNode>, rep: seq<EntityNode>, initial: seq<Profile>, views: Views,
                      idOf: Ids, redirects: map<Id, Id>, at: nat)
    requires BatchState(batch, keyOf, canon, rep, initial, views) && ChainsRight(batch, keyOf, canon, rep, idOf, redirects)
    requires |rep| < |batch| && at < |canon| && forall c :: c in canon ==> c in keyOf && keyOf[c] != keyOf[batch[|rep|]]
    ensures var e := batch[|rep|];
            ChainsRight(batch, keyOf, canon[at := e], Relabeled(rep, canon[at], e) + [e], idOf, redirects[IdIn(idOf, canon[at]) := IdIn(idOf, e)])
  {
    hide SummedUp, Represented, Distinct, DistinctKeys, Chains, Grouped;
    StateIsGrouped(batch, keyOf, canon, rep, initial, views, idOf);
    AllMembersOfBatch(batch, canon, |rep|);
    ChainsSwap(batch, canon, rep, idOf, redirects, at);
  }

  lemma MembersOfBatch(batch: seq<EntityNode>, canon: seq<EntityNode>, k: nat, c: EntityNode)
    requires Chosen(batch, canon, k) && c in canon
    ensures c in batch
  {
  }

  lemma LaterIsNotCanonical(batch: seq<EntityNode>, canon: seq<EntityNode>, k: nat, c: EntityNode)
    requires Distinct(batch) && Chosen(batch, canon, k) && c in canon
    ensures forall j :: k <= j < |batch| ==> batch[j] != c
  {
  }

  /** Merging into one object leaves the records of all others right. */
  method MergeTracked(cfg: Settings, canonical: EntityNode, duplicate: EntityNode, ghost batch: seq<EntityNode>, ghost watched: seq<EntityNode>,
                      ghost k: nat, ghost keyOf: Keys, ghost idOf: Ids, ghost initial: seq<Profile>, ghost views: Views, ghost joined: Profile)
    requires NamesTracked(cfg, batch, keyOf, idOf) && ViewsTracked(watched, views) && RestUntouched(batch, k, initial)
    requires joined == Merged(canonical.View(), duplicate.View())
    requires forall j :: k <= j < |batch| ==> batch[j] != canonical
    modifies canonical
    ensures NamesTracked(cfg, batch, keyOf, idOf) && RestUntouched(batch, k, initial)
    ensures ViewsTracked(watched, views[canonical := joined])
    ensures canonical.View() == joined && canonical.id == old(canonical.id)
  {
    hide Merged;
    MergeInto(canonical, duplicate);
  }

  lemma RestShrinks(batch: seq<EntityNode>, k: nat, initial: seq<Profile>)
    requires RestUntouched(batch, k, initial)
    ensures RestUntouched(batch, k + 1, initial)
  {
  }

  /** What is done with one entity of a batch. */
  datatype Choice = Alone | Join(at: nat) | Swap(at: nat)

  /** What a choice does to the canonical entities, the representatives and the redirects. */
  ghost predicate Applied(choice: Choice, entity: EntityNode, idOf: Ids, canon: seq<EntityNode>, rep: seq<EntityNode>, redirects: map<Id, Id>, views: Views,
                          one: Profile, canon': seq<EntityNode>, rep': seq<EntityNode>, redirects': map<Id, Id>, views': Views)
  {
    match choice
    case Alone => canon' == canon + [entity] && rep' == rep + [entity] && redirects' == redirects && views' == views[entity := one]
    case Join(at) =>
      && at < |canon| && canon[at] in views && canon' == canon && rep' == rep + [canon[at]]
      && views' == views[canon[at] := Merged(views[canon[at]], one)]
      && redirects' == if IdIn(idOf, entity) != IdIn(idOf, canon[at]) then redirects[IdIn(idOf, entity) := IdIn(idOf, canon[at])] else redirects
    case Swap(at) =>
      && at < |canon| && canon[at] in views && canon' == canon[at := entity] && rep' == Relabeled(rep, canon[at], entity) + [entity]
      && views' == views[entity := Merged(one, views[canon[at]])]
      && redirects' == redirects[IdIn(idOf, canon[at]) := IdIn(idOf, entity)]
  }

  /** The next entity is merged into a canonical one. */
  method JoinCanonical(cfg: Settings, batch: seq<EntityNode>, canon: seq<EntityNode>, rep: seq<EntityNode>, redirects: map<Id, Id>, at: nat,
                       ghost keyOf: Keys, ghost idOf: Ids, ghost initial: seq<Profile>, ghost views: Views)
    returns (rep': seq<EntityNode>, redirects': map<Id, Id>, ghost views': Views)
    requires BatchState(batch, keyOf, canon, rep, initial, views) && |rep| < |batch|
    requires Tracks(cfg, batch, canon, |rep|, keyOf, idOf, initial, views)
    requires ChainsRight(batch, keyOf, canon, rep, idOf, redirects)
    requires at < |canon| && canon[at].kind == batch[|rep|].kind
    requires forall d :: d in canon && keyOf[d] == keyOf[batch[|rep|]] ==> keyOf[canon[at]] == keyOf[d]
    modifies canon[at]
    ensures |rep'| == |rep| + 1
    ensures BatchState(batch, keyOf, canon, rep', initial, views')
    ensures Tracks(cfg, batch, canon, |rep'|, keyOf, idOf, initial, views')
    ensures ChainsRight(batch, keyOf, canon, rep', idOf, redirects')
    ensures Applied(Join(at), batch[|rep|], idOf, canon, rep, redirects, views, initial[|rep|], canon, rep', redirects', views')
  {
    hide SummedUp, Chosen, DistinctKeys, Distinct, Represented, ChainsRight, Merged;
    var c, entity := canon[at], batch[|rep|];
    ghost var joined := Merged(c.View(), entity.View());
    MembersOfBatch(batch, canon, |rep|, c);
    LaterIsNotCanonical(batch, canon, |rep|, c);
    assert views[c] == c.View() && initial[|rep|] == entity.View() && idOf[c] == c.id && idOf[entity] == entity.id;
    RedirectsJoin(batch, keyOf, canon, rep, initial, views, idOf, redirects, c);
    StateGrows(batch, keyOf, canon, rep, initial, views, c, views[c := joined]);
    RestShrinks(batch, |rep|, initial);
    redirects' := if entity.id != c.id then redirects[entity.id := c.id] else redirects;
    hide BatchState, NamesTracked, ViewsTracked, RestUntouched;
    rep', views' := rep + [c], views[c := joined];
    MergeTracked(cfg, c, entity, batch, canon, |rep| + 1, keyOf, idOf, initial, views, joined);
  }

  lemma NextIsLast(batch: seq<EntityNode>, k: nat)
    requires Distinct(batch) && k < |batch|
    ensures forall j :: k + 1 <= j < |batch| ==> batch[j] != batch[k]
  {
  }

  /** The next entity takes over from a canonical one, which it merges in. */
  method SwapCanonical(cfg: Settings, batch: seq<EntityNode>, canon: seq<EntityNode>, canonIdx: seq<int>, rep: seq<EntityNode>,
                       redirects: map<Id, Id>, at: nat, idx: int,
                       ghost keyOf: Keys, ghost idOf: Ids, ghost initial: seq<Profile>, ghost views: Views)
    returns (canon': seq<EntityNode>, canonIdx': seq<int>, rep': seq<EntityNode>, redirects': map<Id, Id>,
             ghost views': Views)
    requires BatchState(batch, keyOf, canon, rep, initial, views) && |rep| < |batch| && |canonIdx| == |canon|
    requires Tracks(cfg, batch, canon, |rep|, keyOf, idOf, initial, views)
    requires ChainsRight(batch, keyOf, canon, rep, idOf, redirects)
    requires at < |canon| && canon[at].kind == batch[|rep|].kind
    requires forall c :: c in canon ==> keyOf[c] != keyOf[batch[|rep|]]
    modifies batch[|rep|]
    ensures |rep'| == |rep| + 1 && |canonIdx'| == |canon'|
    ensures BatchState(batch, keyOf, canon', rep', initial, views')
    ensures Tracks(cfg, batch, canon', |rep'|, keyOf, idOf, initial, views')
    ensures ChainsRight(batch, keyOf, canon', rep', idOf, redirects')
    ensures Applied(Swap(at), batch[|rep|], idOf, canon, rep, redirects, views, initial[|rep|], canon', rep', redirects', views')
  {
    hide SummedUp, Chosen, Distinct, Represented, ChainsRight, Merged;
    var was, entity := canon[at], batch[|rep|];
    ghost var joined := Merged(entity.View(), was.View());
    MembersOfBatch(batch, canon, |rep|, was);
    AllMembersOfBatch(batch, canon, |rep|);
    NextIsLast(batch, |rep|);
    ChosenDistinct(batch, canon, |rep|);
    assert views[was] == was.View() && initial[|rep|] == entity.View() && idOf[was] == was.id && idOf[entity] == entity.id;
    RedirectsSwap(batch, keyOf, canon, rep, initial, views, idOf, redirects, at);
    StateSwaps(batch, keyOf, canon, rep, initial, views, at, entity, joined);
    RestShrinks(batch, |rep|, initial);
    var oldId := was.id;
    hide BatchState, NamesTracked, RestUntouched;
    MergeTracked(cfg, entity, was, batch, canon, |rep| + 1, keyOf, idOf, initial, views, joined);
    var byIdx;
    canon', canonIdx', byIdx := ReplaceCanonical(canon, canonIdx, rep, was, idx, entity, at);
    redirects' := redirects[oldId := entity.id];
    rep', views' := byIdx + [entity], views[entity := joined];
  }

  /** The model says that the entities are the same, and is sure enough. */
  ghost predicate Agreed(cfg: Settings, d: Decision) {
    d.sameEntity && d.confidence >= cfg.mergeConfidence
  }

  /** None of the answers from `from` to before `to` agreed. */
  ghost predicate NoneAgreed(cfg: Settings, answers: nat -> Decision, from: nat, to: nat) {
    forall n: nat :: from <= n < to ==> !Agreed(cfg, answers(n))
  }

  /** How many of the first `n` answers agreed. */
  ghost function Agreements(cfg: Settings, answers: nat -> Decision, n: nat): nat {
    if n == 0 then 0 else Agreements(cfg, answers, n - 1) + if Agreed(cfg, answers(n - 1)) then 1 else 0
  }

  lemma {:induction false} NoAgreementsBetween(cfg: Settings, answers: nat -> Decision, from: nat, to: nat)
    requires from <= to && NoneAgreed(cfg, answers, from, to)
    ensures Agreements(cfg, answers, to) == Agreements(cfg, answers, from)
  {
    if from < to {
      NoAgreementsBetween(cfg, answers, from, to - 1);
    }
  }

  /** How many of the next `n` answers come before the first that agrees. */
  ghost function Refusals(cfg: Settings, answers: nat -> Decision, asked: nat, n: nat): (k: nat)
    ensures k <= n
    ensures forall i :: asked <= i < asked + k ==> !Agreed(cfg, answers(i))
    ensures k < n ==> Agreed(cfg, answers(asked + k))
    decreases n
  {
    if n == 0 || Agreed(cfg, answers(asked)) then 0 else 1 + Refusals(cfg, answers, asked + 1, n - 1)
  }

  /** The candidates are asked about in order; the first one to merge with decides. */
  method FindMerge(cfg: Settings, entity: EntityNode, idx: int, canon: seq<EntityNode>, answers: nat -> Decision, asked: nat)
    returns (at: Option<nat>, swap: bool, asked': nat)
    ensures at.Some? ==> at.value < |canon| && canon[at.value].kind == entity.kind
    ensures var positions := Askable(cfg, entity, canon);
            var k := Refusals(cfg, answers, asked, |positions|);
            if k < |positions| then at == Some(positions[k]) && asked' == asked + k + 1 && (swap <==> answers(asked + k).canonicalIdx == idx)
            else at == None && asked' == asked + k && !swap
  {
    at, swap, asked' := None, false, asked;
    var positions := CandidatePositions(cfg, entity, canon);
    for i := 0 to |positions|
      invariant asked' == asked + i
      invariant forall n :: asked <= n < asked + i ==> !Agreed(cfg, answers(n))
    {
      var decision := answers(asked');
      asked' := asked' + 1;
      if ShouldMerge(cfg, decision) {
        assert Refusals(cfg, answers, asked, |positions|) == i;
        return Some(positions[i]), decision.canonicalIdx == idx, asked';
      }
    }
  }

  /** An entity joins the first canonical one with its key; failing that, the first candidate that
      the model agrees on, which it replaces if the model says so; failing that, it stays alone. */
  ghost predicate RightChoice(cfg: Settings, entity: EntityNode, idx: int, canon: seq<EntityNode>, answers: nat -> Decision, asked: nat,
                              choice: Choice, asked': nat)
    reads entity, canon
  {
    if exists c :: c in canon && Key(cfg, c) == Key(cfg, entity)
    then
      && asked' == asked && choice.Join? && choice.at < |canon| && Key(cfg, canon[choice.at]) == Key(cfg, entity)
      && forall j :: 0 <= j < choice.at ==> Key(cfg, canon[j]) != Key(cfg, entity)
    else
      var positions := Askable(cfg, entity, canon);
      var k := Refusals(cfg, answers, asked, |positions|);
      if k == |positions| then choice == Alone && asked' == asked + k
      else asked' == asked + k + 1 && choice == if answers(asked + k).canonicalIdx == idx then Swap(positions[k]) else Join(positions[k])
  }

  /** Makes the choice for one entity. */
  method Choose(cfg: Settings, entity: EntityNode, idx: int, canon: seq<EntityNode>, answers: nat -> Decision, asked: nat)
    returns (choice: Choice, asked': nat)
    ensures RightChoice(cfg, entity, idx, canon, answers, asked, choice, asked')
    ensures !choice.Alone? ==> choice.at < |canon| && canon[choice.at].kind == entity.kind
    ensures forall c :: c in canon && Key(cfg, c) == Key(cfg, entity) ==> choice.Join? && Key(cfg, canon[choice.at]) == Key(cfg, c)
  {
    hide IsCandidate, Candidates;
    var exact := FindExact(cfg, entity, canon);
    if exact.Some? {
      assert canon[exact.value] in canon;
      return Join(exact.value), asked;
    }
    var at, swap;
    at, swap, asked' := FindMerge(cfg, entity, idx, canon, answers, asked);
    choice := if at.None? then Alone else if swap then Swap(at.value) else Join(at.value);
  }

  /** The positions of candidates are exactly those of similar items, in order. */
  lemma {:induction false} CandidatesAre(cfg: Settings, entity: EntityNode, items: seq<EntityNode>)
    ensures var positions := Candidates(cfg, entity, items);
            && (forall p: nat :: p in positions <==> p < |items| && IsCandidate(cfg, items[p], entity))
            && forall i, j :: 0 <= i < j < |positions| ==> positions[i] < positions[j]
  {
    hide IsCandidate;
    if items != [] {
      CandidatesAre(cfg, entity, items[..|items| - 1]);
      var early := Candidates(cfg, entity, items[..|items| - 1]);
      assert forall i :: 0 <= i < |early| ==> early[i] in early;
    }
  }

  lemma FirstAskable(cfg: Settings, entity: EntityNode, items: seq<EntityNode>, p: nat)
    requires p < |items| && IsCandidate(cfg, items[p], entity) && forall j :: 0 <= j < p ==> !IsCandidate(cfg, items[j], entity)
    requires cfg.maxCandidates > 0
    ensures var positions := Askable(cfg, entity, items); positions != [] && positions[0] == p
  {
    CandidatesAre(cfg, entity, items);
    hide IsCandidate, Candidates;
    var positions := Candidates(cfg, entity, items);
    var i :| 0 <= i < |positions| && positions[i] == p;
    assert positions[0] in positions;
  }

  /** An entity without an equal key is merged with the first similar canonical one as soon as the
      model agrees on that one, and in the direction that it names. */
  lemma FirstAgreementJoins(cfg: Settings, entity: EntityNode, idx: int, canon: seq<EntityNode>, answers: nat -> Decision, asked: nat,
                            choice: Choice, asked': nat, p: nat)
    requires RightChoice(cfg, entity, idx, canon, answers, asked, choice, asked')
    requires forall c :: c in canon ==> Key(cfg, c) != Key(cfg, entity)
    requires p < |canon| && IsCandidate(cfg, canon[p], entity) && forall j :: 0 <= j < p ==> !IsCandidate(cfg, canon[j], entity)
    requires cfg.maxCandidates > 0 && answers(asked).sameEntity && answers(asked).confidence >= cfg.mergeConfidence
    ensures asked' == asked + 1 && choice == if answers(asked).canonicalIdx == idx then Swap(p) else Join(p)
  {
    FirstAskable(cfg, entity, canon, p);
    hide IsCandidate, Candidates, Key, Askable;
    var positions := Askable(cfg, entity, canon);
    assert Refusals(cfg, answers, asked, |positions|) == 0;
  }

  ghost predicate PartAt(inner: string, outer: string, p: int) {
    0 <= p && p + |inner| <= |outer| && outer[p..p + |inner|] == inner
  }

  /** `inner` is a part of `outer`. */
  ghost predicate Inside(inner: string, outer: string) {
    exists p :: PartAt(inner, outer, p)
  }

  lemma PartMoves(inner: string, outer: string, p: nat)
    requires outer != []
    ensures PartAt(inner, outer[1..], p) <==> PartAt(inner, outer, p + 1)
  {
    if p + 1 + |inner| <= |outer| {
      assert outer[1..][p..p + |inner|] == outer[p + 1..p + 1 + |inner|];
    }
  }

  lemma InsideRest(inner: string, outer: string)
    requires outer != [] && !(inner <= outer)
    ensures Inside(inner, outer) <==> Inside(inner, outer[1..])
  {
    assert !PartAt(inner, outer, 0);
    forall p: nat
      ensures PartAt(inner, outer[1..], p) <==> PartAt(inner, outer, p + 1)
    {
      PartMoves(inner, outer, p);
    }
    assert forall p :: PartAt(inner, outer, p) ==> PartAt(inner, outer[1..], p - 1);
  }

  lemma {:induction false} ContainsIff(outer: string, inner: string)
    ensures Contains(outer, inner) <==> Inside(inner, outer)
  {
    if inner <= outer {
      assert PartAt(inner, outer, 0);
    } else if outer != [] {
      ContainsIff(outer[1..], inner);
      InsideRest(inner, outer);
      hide Inside;
    }
  }

  /** The angle between two embeddings reaches a threshold; without a direction it counts as a right angle. */
  ghost predicate Aligned(sqrt: real -> real, left: Vector, right: Vector, threshold: real) {
    if Degenerate(left, right) then 0.0 >= threshold
    else Dot(left, right) >= Times(threshold, Times(sqrt(Dot(left, left)), sqrt(Dot(right, right))))
  }

  lemma AlignedIff(sqrt: real -> real, left: Vector, right: Vector, threshold: real)
    requires NormsExact(sqrt, left, right)
    ensures CosineSimilarity(sqrt, left, right) >= threshold <==> Aligned(sqrt, left, right, threshold)
  {
    CosineTimesNorms(sqrt, left, right);
    if !Degenerate(left, right) {
      hide CosineSimilarity, Dot, IsSquareRoot;
      TimesOrder(CosineSimilarity(sqrt, left, right), threshold, Times(sqrt(Dot(left, left)), sqrt(Dot(right, right))));
      hide Times;
    }
  }

  /** Whom the model is asked about: entities of one type that are alike in name, in embedding, or by one
      name being part of the other. */
  lemma CandidateIff(cfg: Settings, left: EntityNode, right: EntityNode)
    requires NormsExact(cfg.sqrt, left.embedding, right.embedding)
    ensures var l, r := cfg.norm(left.name), cfg.norm(right.name);
            IsCandidate(cfg, left, right) <==>
            left.kind == right.kind
            && (|| cfg.nameSimilarity(l, r) >= cfg.similarityThreshold
                || Aligned(cfg.sqrt, left.embedding, right.embedding, cfg.similarityThreshold)
                || (l != "" && r != "" && (Inside(l, r) || Inside(r, l))))
  {
    AlignedIff(cfg.sqrt, left.embedding, right.embedding, cfg.similarityThreshold);
    ContainsIff(cfg.norm(left.name), cfg.norm(right.name));
    ContainsIff(cfg.norm(right.name), cfg.norm(left.name));
    hide CosineSimilarity, Aligned, Contains, Inside, NormsExact;
  }

  /** How the choice rests on keys and on the answers that were used for it: an equal key decides without
      any answer; an entity stays alone after answers of which none agreed; and it is merged otherwise
      because the last answer agreed, and only that. */
  ghost predicate Decided(cfg: Settings, keyOf: Keys, canon: seq<EntityNode>, entity: EntityNode, answers: nat -> Decision, asked: nat,
                          choice: Choice, asked': nat)
    requires entity in keyOf && forall c :: c in canon ==> c in keyOf
  {
    && (!choice.Alone? ==> choice.at < |canon|)
    && if exists c :: c in canon && keyOf[c] == keyOf[entity]
       then asked' == asked && choice.Join? && choice.at < |canon| && canon[choice.at] in canon && keyOf[canon[choice.at]] == keyOf[entity]
       else if choice.Alone? then asked <= asked' && NoneAgreed(cfg, answers, asked, asked')
       else asked < asked' && Agreed(cfg, answers(asked' - 1)) && NoneAgreed(cfg, answers, asked, asked' - 1)
  }

  /** The right choice is decided by keys and answers alone. */
  lemma ChoiceIsDecided(cfg: Settings, keyOf: Keys, canon: seq<EntityNode>, entity: EntityNode, idx: int, answers: nat -> Decision, asked: nat,
                        choice: Choice, asked': nat)
    requires RightChoice(cfg, entity, idx, canon, answers, asked, choice, asked')
    requires entity in keyOf && keyOf[entity] == Key(cfg, entity)
    requires forall c :: c in canon ==> c in keyOf && keyOf[c] == Key(cfg, c)
    ensures Decided(cfg, keyOf, canon, entity, answers, asked, choice, asked')
  {
    hide IsCandidate, Candidates;
    var positions := Askable(cfg, entity, canon);
    var k := Refusals(cfg, answers, asked, |positions|);
    hide Refusals, Key;
  }

  /** Positions are represented under their own keys, and redirects lead from their ids to those of their
      representatives. */
  ghost predicate GroupedByKey(batch: seq<EntityNode>, keyOf: Keys, idOf: Ids, rep: seq<EntityNode>, redirects: map<Id, Id>) {
    && |rep| <= |batch| && (forall e :: e in batch ==> e in keyOf)
    && (forall i :: 0 <= i < |rep| ==> batch[i] in batch && rep[i] in keyOf && keyOf[rep[i]] == keyOf[batch[i]])
    && (forall id :: id in redirects ==> exists i :: 0 <= i < |rep| && IdIn(idOf, batch[i]) == id && IdIn(idOf, rep[i]) == redirects[id])
  }

  /** The keys of the first `k` positions. */
  ghost function KeysUpTo(batch: seq<EntityNode>, keyOf: Keys, k: nat): set<(string, string)>
    requires k <= |batch| && forall e :: e in batch ==> e in keyOf
  {
    set i | 0 <= i < k :: assert batch[i] in batch; keyOf[batch[i]]
  }

  /** What the answers account for: without agreement groups are keys, and each agreement saves at most
      one survivor. */
  ghost predicate Accounted(cfg: Settings, batch: seq<EntityNode>, keyOf: Keys, idOf: Ids, canon: seq<EntityNode>, rep: seq<EntityNode>,
                            redirects: map<Id, Id>, answers: nat -> Decision, asked: nat)
  {
    && |rep| <= |batch| && (forall e :: e in batch ==> e in keyOf)
    && (NoneAgreed(cfg, answers, 0, asked) ==> GroupedByKey(batch, keyOf, idOf, rep, redirects))
    && |KeysUpTo(batch, keyOf, |rep|)| <= |canon| + Agreements(cfg, answers, asked)
  }

  lemma NextKey(batch: seq<EntityNode>, keyOf: Keys, k: nat)
    requires k < |batch| && forall e :: e in batch ==> e in keyOf
    ensures batch[k] in batch && KeysUpTo(batch, keyOf, k + 1) == KeysUpTo(batch, keyOf, k) + {keyOf[batch[k]]}
    ensures forall c :: c in batch[..k] ==> c in keyOf && keyOf[c] in KeysUpTo(batch, keyOf, k)
  {
    forall c | c in batch[..k]
      ensures c in keyOf && keyOf[c] in KeysUpTo(batch, keyOf, k)
    {
      var i :| 0 <= i < k && batch[i] == c;
    }
  }

  lemma StillGroupedByKey(batch: seq<EntityNode>, keyOf: Keys, idOf: Ids, rep: seq<EntityNode>, redirects: map<Id, Id>, c: EntityNode, redirects': map<Id, Id>)
    requires GroupedByKey(batch, keyOf, idOf, rep, redirects) && |rep| < |batch|
    requires c in keyOf && keyOf[c] == keyOf[batch[|rep|]]
    requires redirects' == redirects || redirects' == redirects[IdIn(idOf, batch[|rep|]) := IdIn(idOf, c)]
    ensures GroupedByKey(batch, keyOf, idOf, rep + [c], redirects')
  {
    var rep' := rep + [c];
    forall id | id in redirects'
      ensures exists i :: 0 <= i < |rep'| && IdIn(idOf, batch[i]) == id && IdIn(idOf, rep'[i]) == redirects'[id]
    {
      if redirects' != redirects && id == IdIn(idOf, batch[|rep|]) {
        assert rep'[|rep|] == c;
      } else {
        var i :| 0 <= i < |rep| && IdIn(idOf, batch[i]) == id && IdIn(idOf, rep[i]) == redirects[id];
        assert rep'[i] == rep[i];
      }
    }
  }

  lemma AccountedByKey(cfg: Settings, batch: seq<EntityNode>, keyOf: Keys, idOf: Ids, canon: seq<EntityNode>, rep: seq<EntityNode>,
                       redirects: map<Id, Id>, answers: nat -> Decision, asked: nat, c: EntityNode, redirects': map<Id, Id>)
    requires Accounted(cfg, batch, keyOf, idOf, canon, rep, redirects, answers, asked) && |rep| < |batch|
    requires Chosen(batch, canon, |rep|) && c in canon && c in keyOf && batch[|rep|] in keyOf && keyOf[c] == keyOf[batch[|rep|]]
    requires redirects' == redirects || redirects' == redirects[IdIn(idOf, batch[|rep|]) := IdIn(idOf, c)]
    ensures Accounted(cfg, batch, keyOf, idOf, canon, rep + [c], redirects', answers, asked)
  {
    NextKey(batch, keyOf, |rep|);
    hide GroupedByKey, KeysUpTo, NoneAgreed, Agreements;
    assert c in batch[..|rep|];
    assert KeysUpTo(batch, keyOf, |rep|) + {keyOf[c]} == KeysUpTo(batch, keyOf, |rep|);
    if NoneAgreed(cfg, answers, 0, asked) {
      StillGroupedByKey(batch, keyOf, idOf, rep, redirects, c, redirects');
    }
  }

  lemma AccountedAlone(cfg: Settings, batch: seq<EntityNode>, keyOf: Keys, idOf: Ids, canon: seq<EntityNode>, rep: seq<EntityNode>,
                       redirects: map<Id, Id>, answers: nat -> Decision, asked: nat, asked': nat)
    requires Accounted(cfg, batch, keyOf, idOf, canon, rep, redirects, answers, asked) && |rep| < |batch|
    requires asked <= asked' && NoneAgreed(cfg, answers, asked, asked')
    ensures Accounted(cfg, batch, keyOf, idOf, canon + [batch[|rep|]], rep + [batch[|rep|]], redirects, answers, asked')
  {
    var e := batch[|rep|];
    NextKey(batch, keyOf, |rep|);
    NoAgreementsBetween(cfg, answers, asked, asked');
    assert NoneAgreed(cfg, answers, 0, asked') ==> NoneAgreed(cfg, answers, 0, asked);
    hide GroupedByKey, KeysUpTo, NoneAgreed, Agreements;
    assert |KeysUpTo(batch, keyOf, |rep|) + {keyOf[e]}| <= |KeysUpTo(batch, keyOf, |rep|)| + 1;
    if NoneAgreed(cfg, answers, 0, asked') {
      StillGroupedByKey(batch, keyOf, idOf, rep, redirects, e, redirects);
    }
  }

  lemma AccountedByAgreement(cfg: Settings, batch: seq<EntityNode>, keyOf: Keys, idOf: Ids, canon: seq<EntityNode>, rep: seq<EntityNode>,
                             redirects: map<Id, Id>, answers: nat -> Decision, asked: nat, asked': nat,
                             canon': seq<EntityNode>, rep': seq<EntityNode>, redirects': map<Id, Id>)
    requires Accounted(cfg, batch, keyOf, idOf, canon, rep, redirects, answers, asked) && |rep| < |batch|
    requires asked < asked' && Agreed(cfg, answers(asked' - 1)) && NoneAgreed(cfg, answers, asked, asked' - 1)
    requires |canon'| == |canon| && |rep'| == |rep| + 1
    ensures Accounted(cfg, batch, keyOf, idOf, canon', rep', redirects', answers, asked')
  {
    NextKey(batch, keyOf, |rep|);
    NoAgreementsBetween(cfg, answers, asked, asked' - 1);
    assert !NoneAgreed(cfg, answers, 0, asked');
    hide GroupedByKey, KeysUpTo, NoneAgreed;
    assert |KeysUpTo(batch, keyOf, |rep|) + {keyOf[batch[|rep|]]}| <= |KeysUpTo(batch, keyOf, |rep|)| + 1;
  }

  lemma AccountedNext(cfg: Settings, batch: seq<EntityNode>, keyOf: Keys, idOf: Ids, canon: seq<EntityNode>, rep: seq<EntityNode>,
                      redirects: map<Id, Id>, views: Views, one: Profile, answers: nat -> Decision, asked: nat, choice: Choice, asked': nat,
                      canon': seq<EntityNode>, rep': seq<EntityNode>, redirects': map<Id, Id>, views': Views)
    requires Accounted(cfg, batch, keyOf, idOf, canon, rep, redirects, answers, asked) && |rep| < |batch|
    requires batch[|rep|] in keyOf && Chosen(batch, canon, |rep|) && forall c :: c in canon ==> c in keyOf
    requires Decided(cfg, keyOf, canon, batch[|rep|], answers, asked, choice, asked')
    requires Applied(choice, batch[|rep|], idOf, canon, rep, redirects, views, one, canon', rep', redirects', views')
    requires |rep'| == |rep| + 1
    ensures Accounted(cfg, batch, keyOf, idOf, canon', rep', redirects', answers, asked')
  {
    hide Accounted, Chosen, NoneAgreed, Agreed, Merged, Relabeled;
    if exists c :: c in canon && keyOf[c] == keyOf[batch[|rep|]] {
      AccountedByKey(cfg, batch, keyOf, idOf, canon, rep, redirects, answers, asked, canon[choice.at], redirects');
    } else if choice.Alone? {
      AccountedAlone(cfg, batch, keyOf, idOf, canon, rep, redirects, answers, asked, asked');
    } else {
      AccountedByAgreement(cfg, batch, keyOf, idOf, canon, rep, redirects, answers, asked, asked', canon', rep', redirects');
    }
  }

  /** One entity of a batch: merged by key, merged by decision in either direction, or kept. */
  method DedupOne(cfg: Settings, batch: seq<EntityNode>, idx: int, canon: seq<EntityNode>, canonIdx: seq<int>, rep: seq<EntityNode>,
                  redirects: map<Id, Id>, answers: nat -> Decision, asked: nat,
                  ghost keyOf: Keys, ghost idOf: Ids, ghost initial: seq<Profile>, ghost views: Views)
    returns (canon': seq<EntityNode>, canonIdx': seq<int>, rep': seq<EntityNode>, redirects': map<Id, Id>, asked': nat,
             ghost views': Views, ghost choice: Choice)
    requires BatchState(batch, keyOf, canon, rep, initial, views) && |rep| < |batch| && |canonIdx| == |canon|
    requires Tracks(cfg, batch, canon, |rep|, keyOf, idOf, initial, views)
    requires ChainsRight(batch, keyOf, canon, rep, idOf, redirects)
    modifies batch
    ensures |rep'| == |rep| + 1 && |canonIdx'| == |canon'|
    ensures BatchState(batch, keyOf, canon', rep', initial, views')
    ensures Tracks(cfg, batch, canon', |rep'|, keyOf, idOf, initial, views')
    ensures ChainsRight(batch, keyOf, canon', rep', idOf, redirects')
    ensures old(RightChoice(cfg, batch[|rep|], idx, canon, answers, asked, choice, asked'))
    ensures batch[|rep|] in keyOf && (forall c :: c in canon ==> c in keyOf)
    ensures Decided(cfg, keyOf, canon, batch[|rep|], answers, asked, choice, asked')
    ensures Applied(choice, batch[|rep|], idOf, canon, rep, redirects, views, initial[|rep|], canon', rep', redirects', views')
  {
    hide SummedUp, Represented, ChainsRight, Merged, Distinct, RightChoice;
    var entity := batch[|rep|];
    canon', canonIdx', asked' := canon, canonIdx, asked;
    AllMembersOfBatch(batch, canon, |rep|);
    hide Chosen;
    var chosen;
    chosen, asked' := Choose(cfg, entity, idx, canon, answers, asked);
    choice := chosen;
    ChoiceIsDecided(cfg, keyOf, canon, entity, idx, answers, asked, choice, asked');
    hide Decided;
    assert !choice.Join? ==> forall c :: c in canon ==> keyOf[c] != keyOf[entity];
    assert choice.Join? ==> forall c :: c in canon && keyOf[c] == keyOf[entity] ==> keyOf[canon[choice.at]] == keyOf[c];
    match chosen
    case Alone =>
      StateStarts(batch, keyOf, canon, rep, initial, views);
      RedirectsStart(batch, keyOf, canon, rep, initial, views, idOf, redirects);
      RestShrinks(batch, |rep|, initial);
      canon', canonIdx', rep', redirects' := canon + [entity], canonIdx + [idx], rep + [entity], redirects;
      views' := views[entity := initial[|rep|]];
    case Swap(at) =>
      canon', canonIdx', rep', redirects', views' :=
        SwapCanonical(cfg, batch, canon, canonIdx, rep, redirects, at, idx, keyOf, idOf, initial, views);
    case Join(at) =>
      assert canon[at] in canon;
      rep', redirects', views' := JoinCanonical(cfg, batch, canon, rep, redirects, at, keyOf, idOf, initial, views);
  }

  // ---- closing a result: one object per id ----

  /** The first listed object with an id. */
  function FirstWith(objects: seq<EntityNode>, idOf: Ids, id: Id): Option<EntityNode> {
    if objects == [] then None
    else
      var earlier := FirstWith(objects[..|objects| - 1], idOf, id);
      if earlier.Some? then earlier
      else if IdIn(idOf, objects[|objects| - 1]) == id then Some(objects[|objects| - 1])
      else None
  }

  /** What `first` carries once every other listed object with its id was merged in, once for each
      time it is listed. */
  function Absorbed(objects: seq<EntityNode>, idOf: Ids, was: Views, first: EntityNode): Profile
    requires first in was && forall o :: o in objects ==> o in was
  {
    if objects == [] then was[first]
    else
      var before := Absorbed(objects[..|objects| - 1], idOf, was, first);
      var last := objects[|objects| - 1];
      if last != first && IdIn(idOf, last) == IdIn(idOf, first) then Merged(before, was[last]) else before
  }

  /** The mentions of all listings of other objects with the id of `first`. */
  function ListedMentions(objects: seq<EntityNode>, idOf: Ids, was: Views, first: EntityNode): int
    requires forall o :: o in objects ==> o in was
  {
    if objects == [] then 0
    else
      var last := objects[|objects| - 1];
      ListedMentions(objects[..|objects| - 1], idOf, was, first)
      + if last != first && IdIn(idOf, last) == IdIn(idOf, first) then was[last].mentionCount else 0
  }

  lemma {:induction false} AbsorbedMentions(objects: seq<EntityNode>, idOf: Ids, was: Views, first: EntityNode)
    requires first in was && forall o :: o in objects ==> o in was
    ensures Absorbed(objects, idOf, was, first).mentionCount == was[first].mentionCount + ListedMentions(objects, idOf, was, first)
  {
    if objects != [] {
      AbsorbedMentions(objects[..|objects| - 1], idOf, was, first);
    }
  }

  lemma {:induction false} FirstWithId(objects: seq<EntityNode>, idOf: Ids, id: Id)
    ensures match FirstWith(objects, idOf, id)
            case Some(o) => o in objects && IdIn(idOf, o) == id
            case None => forall o :: o in objects ==> IdIn(idOf, o) != id
  {
    if objects != [] {
      FirstWithId(objects[..|objects| - 1], idOf, id);
    }
  }

  lemma {:induction false} NothingAbsorbed(objects: seq<EntityNode>, idOf: Ids, was: Views, first: EntityNode)
    requires first in was && forall o :: o in objects ==> o in was
    requires forall o :: o in objects && o != first ==> IdIn(idOf, o) != IdIn(idOf, first)
    ensures Absorbed(objects, idOf, was, first) == was[first]
  {
    if objects != [] {
      NothingAbsorbed(objects[..|objects| - 1], idOf, was, first);
    }
  }

  /** The value of an object once the first `n` objects are closed. */
  ghost function ViewAfter(objects: seq<EntityNode>, n: nat, idOf: Ids, was: Views, o: EntityNode): Profile
    requires n <= |objects| && o in objects && forall o :: o in objects ==> o in was
  {
    if FirstWith(objects[..n], idOf, IdIn(idOf, o)) == Some(o) then Absorbed(objects[..n], idOf, was, o) else was[o]
  }

  /** The live values while a result is being closed. */
  ghost predicate Closing(objects: seq<EntityNode>, n: nat, idOf: Ids, was: Views)
    requires n <= |objects|
    reads objects
  {
    && (forall o :: o in objects ==> o in was && o in idOf && o.id == idOf[o])
    && (forall o :: o in objects ==> o.View() == ViewAfter(objects, n, idOf, was, o))
  }

  /** The objects kept so far, by id and in order. */
  ghost predicate Kept(objects: seq<EntityNode>, idOf: Ids, unique: map<Id, EntityNode>, entities: seq<EntityNode>) {
    && (forall id :: id in unique <==> FirstWith(objects, idOf, id).Some?)
    && (forall id :: id in unique ==> FirstWith(objects, idOf, id) == Some(unique[id]))
    && Distinct(entities)
    && (forall e :: e in entities ==> e in objects && FirstWith(objects, idOf, IdIn(idOf, e)) == Some(e))
    && (forall e :: e in objects && FirstWith(objects, idOf, IdIn(idOf, e)) == Some(e) ==> e in entities)
  }

  lemma FirstWithStep(objects: seq<EntityNode>, n: nat, idOf: Ids, id: Id)
    requires n < |objects|
    ensures FirstWith(objects[..n + 1], idOf, id) ==
            if FirstWith(objects[..n], idOf, id).Some? then FirstWith(objects[..n], idOf, id)
            else if IdIn(idOf, objects[n]) == id then Some(objects[n]) else None
  {
    assert objects[..n + 1][..n] == objects[..n];
  }

  lemma AbsorbedStep(objects: seq<EntityNode>, n: nat, idOf: Ids, was: Views, first: EntityNode)
    requires n < |objects|
    requires first in was && forall o :: o in objects ==> o in was
    ensures Absorbed(objects[..n + 1], idOf, was, first) ==
            if objects[n] != first && IdIn(idOf, objects[n]) == IdIn(idOf, first)
            then Merged(Absorbed(objects[..n], idOf, was, first), was[objects[n]])
            else Absorbed(objects[..n], idOf, was, first)
  {
    assert objects[..n + 1][..n] == objects[..n];
  }

  lemma KeptStep(objects: seq<EntityNode>, n: nat, idOf: Ids, unique: map<Id, EntityNode>, entities: seq<EntityNode>)
    requires n < |objects|
    requires Kept(objects[..n], idOf, unique, entities)
    ensures var o, id := objects[n], IdIn(idOf, objects[n]);
            if id in unique then Kept(objects[..n + 1], idOf, unique, entities)
            else Kept(objects[..n + 1], idOf, unique[id := o], entities + [o])
  {
    var o, id := objects[n], IdIn(idOf, objects[n]);
    assert objects[..n + 1] == objects[..n] + [o];
    forall x
      ensures FirstWith(objects[..n + 1], idOf, x) ==
              if FirstWith(objects[..n], idOf, x).Some? then FirstWith(objects[..n], idOf, x)
              else if id == x then Some(o) else None
    {
      FirstWithStep(objects, n, idOf, x);
    }
    FirstWithId(objects[..n], idOf, id);
    hide FirstWith;
    if id !in unique {
      assert o !in objects[..n];
    }
  }

  lemma CloseStepOf(objects: seq<EntityNode>, n: nat, idOf: Ids, was: Views, p: EntityNode)
    requires n < |objects| && p in objects && forall o :: o in objects ==> o in was
    ensures var o, first := objects[n], FirstWith(objects[..n], idOf, IdIn(idOf, objects[n]));
            ViewAfter(objects, n + 1, idOf, was, p) ==
              if first.Some? && first.value != o && p == first.value
              then Merged(ViewAfter(objects, n, idOf, was, p), ViewAfter(objects, n, idOf, was, o))
              else ViewAfter(objects, n, idOf, was, p)
  {
    var o := objects[n];
    FirstWithStep(objects, n, idOf, IdIn(idOf, p));
    AbsorbedStep(objects, n, idOf, was, p);
    FirstWithId(objects[..n], idOf, IdIn(idOf, p));
    FirstWithId(objects[..n], idOf, IdIn(idOf, o));
    if IdIn(idOf, p) == IdIn(idOf, o) && FirstWith(objects[..n], idOf, IdIn(idOf, p)).None? {
      NothingAbsorbed(objects[..n], idOf, was, p);
    }
  }

  /** Closing the next object changes only the first object with its id, by merging. */
  lemma CloseStep(objects: seq<EntityNode>, n: nat, idOf: Ids, was: Views, unique: map<Id, EntityNode>, entities: seq<EntityNode>)
    requires n < |objects| && forall o :: o in objects ==> o in was
    requires Kept(objects[..n], idOf, unique, entities)
    ensures var o, id := objects[n], IdIn(idOf, objects[n]);
            && (id in unique ==> unique[id] in objects)
            && forall p :: p in objects ==>
                 ViewAfter(objects, n + 1, idOf, was, p) ==
                   if id in unique && unique[id] != o && p == unique[id]
                   then Merged(ViewAfter(objects, n, idOf, was, p), ViewAfter(objects, n, idOf, was, o))
                   else ViewAfter(objects, n, idOf, was, p)
  {
    var o, id := objects[n], IdIn(idOf, objects[n]);
    FirstWithId(objects[..n], idOf, id);
    hide Merged;
    forall p | p in objects
      ensures ViewAfter(objects, n + 1, idOf, was, p) ==
                if id in unique && unique[id] != o && p == unique[id]
                then Merged(ViewAfter(objects, n, idOf, was, p), ViewAfter(objects, n, idOf, was, o))
                else ViewAfter(objects, n, idOf, was, p)
    {
      CloseStepOf(objects, n, idOf, was, p);
    }
  }

  /** Handles one listed object: keep it, or merge it into the kept object with its id. */
  method CloseOne(objects: seq<EntityNode>, n: nat, unique: map<Id, EntityNode>, ghost entities: seq<EntityNode>, ghost idOf: Ids, ghost was: Views,
                  ghost frame: seq<EntityNode>)
    returns (isNew: bool)
    requires n < |objects| && forall o :: o in objects ==> o in frame
    requires Closing(objects, n, idOf, was)
    requires Kept(objects[..n], idOf, unique, entities)
    modifies frame
    ensures Closing(objects, n + 1, idOf, was)
    ensures forall p :: p in frame ==> p.id == old(p.id) && p.name == old(p.name)
    ensures isNew <==> idOf[objects[n]] !in unique
  {
    var o := objects[n];
    assert o in objects;
    isNew := o.id !in unique;
    CloseStep(objects, n, idOf, was, unique, entities);
    hide Kept, ViewAfter, Merged;
    if !isNew {
      if unique[o.id] != o {
        MergeInto(unique[o.id], o);
      }
    }
  }

  /** The result of closing: one object per id, each index mapped to the object with its id. */
  ghost predicate Closed(objects: seq<EntityNode>, idOf: Ids, was: Views, entities: seq<EntityNode>, byIdx: seq<EntityNode>)
    requires forall o :: o in objects ==> o in was
    reads entities
  {
    && Distinct(entities)
    && (forall e :: e in entities ==>
          e in objects && e.id == IdIn(idOf, e) && FirstWith(objects, idOf, e.id) == Some(e) && e.View() == Absorbed(objects, idOf, was, e))
    && |byIdx| == |objects|
    && (forall i :: 0 <= i < |objects| ==> byIdx[i] in entities && FirstWith(objects, idOf, IdIn(idOf, objects[i])) == Some(byIdx[i]))
  }

  /** Keeps the first object of each id and merges the others into it. */
  method CloseAll(final: seq<EntityNode>, ghost idOf: Ids, ghost was: Views, ghost frame: seq<EntityNode>)
    returns (unique: map<Id, EntityNode>, entities: seq<EntityNode>)
    requires forall o :: o in final ==> o in frame
    requires Closing(final, 0, idOf, was)
    modifies frame
    ensures Closing(final, |final|, idOf, was)
    ensures Kept(final, idOf, unique, entities)
    ensures forall o :: o in frame ==> o.id == old(o.id) && o.name == old(o.name)
  {
    unique, entities := map[], [];
    for n := 0 to |final|
      invariant Closing(final, n, idOf, was)
      invariant Kept(final[..n], idOf, unique, entities)
      invariant forall o :: o in frame ==> o.id == old(o.id) && o.name == old(o.name)
    {
      KeptStep(final, n, idOf, unique, entities);
      hide Kept, FirstWith, Absorbed;
      var o := final[n];
      assert o in final && o.id == idOf[o];
      hide Closing;
      var isNew := CloseOne(final, n, unique, entities, idOf, was, frame);
      if isNew {
        unique, entities := unique[o.id := o], entities + [o];
      }
    }
    assert final[..|final|] == final;
  }

  lemma FirstIsKept(objects: seq<EntityNode>, idOf: Ids, unique: map<Id, EntityNode>, entities: seq<EntityNode>, o: EntityNode)
    requires Kept(objects, idOf, unique, entities) && o in objects
    ensures var id := IdIn(idOf, o);
            id in unique && unique[id] in entities && FirstWith(objects, idOf, id) == Some(unique[id])
  {
    FirstWithId(objects, idOf, IdIn(idOf, o));
  }

  /** Maps every position to the kept object with its id. */
  method MapToKept(final: seq<EntityNode>, ghost idOf: Ids, unique: map<Id, EntityNode>, ghost entities: seq<EntityNode>)
    returns (byIdx: seq<EntityNode>)
    requires Kept(final, idOf, unique, entities)
    requires forall o :: o in final ==> o.id == IdIn(idOf, o)
    ensures |byIdx| == |final|
    ensures forall i :: 0 <= i < |final| ==> byIdx[i] in entities && FirstWith(final, idOf, IdIn(idOf, final[i])) == Some(byIdx[i])
  {
    hide Kept, FirstWith;
    byIdx := [];
    for n := 0 to |final|
      invariant |byIdx| == n
      invariant forall i :: 0 <= i < n ==> byIdx[i] in entities && FirstWith(final, idOf, IdIn(idOf, final[i])) == Some(byIdx[i])
    {
      var o := final[n];
      assert o in final;
      FirstIsKept(final, idOf, unique, entities, o);
      byIdx := byIdx + [unique[o.id]];
    }
  }

  lemma StartsClosing(final: seq<EntityNode>, idOf: Ids, was: Views)
    requires forall o :: o in final ==> o in was && was[o] == o.View() && o in idOf && idOf[o] == o.id
    ensures Closing(final, 0, idOf, was)
  {
  }

  lemma ClosingEnds(final: seq<EntityNode>, idOf: Ids, was: Views, unique: map<Id, EntityNode>, entities: seq<EntityNode>, byIdx: seq<EntityNode>)
    requires Closing(final, |final|, idOf, was) && Kept(final, idOf, unique, entities)
    requires |byIdx| == |final|
    requires forall i :: 0 <= i < |final| ==> byIdx[i] in entities && FirstWith(final, idOf, IdIn(idOf, final[i])) == Some(byIdx[i])
    ensures Closed(final, idOf, was, entities, byIdx)
  {
    assert final[..|final|] == final;
    hide FirstWith, Absorbed;
  }

  lemma ClosedNames(objects: seq<EntityNode>, idOf: Ids, was: Views)
    requires Closing(objects, |objects|, idOf, was)
    ensures forall o :: o in objects ==> o in was && o in idOf && o.id == IdIn(idOf, o) == idOf[o]
  {
  }

  /** Keeps one object per id, and maps every index to it. */
  method Result(final: seq<EntityNode>, ghost idOf: Ids, ghost was: Views, ghost frame: seq<EntityNode>)
    returns (entities: seq<EntityNode>, byIdx: seq<EntityNode>)
    requires forall o :: o in final ==> o in frame
    requires forall o :: o in final ==> o in was && was[o] == o.View() && o in idOf && idOf[o] == o.id
    modifies frame
    ensures Closed(final, idOf, was, entities, byIdx)
    ensures forall o :: o in frame ==> o.id == old(o.id) && o.name == old(o.name)
  {
    StartsClosing(final, idOf, was);
    var unique;
    unique, entities := CloseAll(final, idOf, was, frame);
    ClosedNames(final, idOf, was);
    byIdx := MapToKept(final, idOf, unique, entities);
    ClosingEnds(final, idOf, was, unique, entities, byIdx);
  }

  /** The ids of a result are distinct. */
  lemma ClosedIdsDistinct(objects: seq<EntityNode>, idOf: Ids, was: Views, entities: seq<EntityNode>, byIdx: seq<EntityNode>)
    requires forall o :: o in objects ==> o in was
    requires Closed(objects, idOf, was, entities, byIdx)
    ensures forall a, b :: 0 <= a < b < |entities| ==> entities[a].id != entities[b].id
  {
  }

  /** When no two objects share an id, closing changes nothing. */
  lemma ClosingDistinctIds(objects: seq<EntityNode>, idOf: Ids, was: Views, entities: seq<EntityNode>, byIdx: seq<EntityNode>)
    requires forall o :: o in objects ==> o in was
    requires Closed(objects, idOf, was, entities, byIdx)
    requires forall o, p :: o in objects && p in objects && o != p ==> IdIn(idOf, o) != IdIn(idOf, p)
    ensures byIdx == objects
    ensures forall e :: e in entities <==> e in objects
    ensures forall e :: e in entities ==> e.View() == was[e]
  {
    forall i | 0 <= i < |objects|
      ensures byIdx[i] == objects[i]
    {
      assert objects[i] in objects;
      FirstWithId(objects, idOf, IdIn(idOf, objects[i]));
    }
    forall e | e in entities
      ensures e.View() == was[e]
    {
      NothingAbsorbed(objects, idOf, was, e);
    }
  }

  // ---- a whole batch ----

  /** Entities of the batch that share an id share their key: ids are made from keys. */
  ghost predicate IdsFromKeys(cfg: Settings, batch: seq<EntityNode>)
    reads batch
  {
    forall a, b :: a in batch && b in batch && a.id == b.id ==> Key(cfg, a) == Key(cfg, b)
  }

  lemma RepsShareNoId(batch: seq<EntityNode>, keyOf: Keys, idOf: Ids, canon: seq<EntityNode>, rep: seq<EntityNode>)
    requires IdsMatchKeys(batch, keyOf, idOf)
    requires Chosen(batch, canon, |batch|) && DistinctKeys(canon, keyOf)
    requires Represented(batch, canon, rep)
    ensures forall o, p :: o in rep && p in rep && o != p ==> IdIn(idOf, o) != IdIn(idOf, p)
    ensures forall o :: o in rep ==> o in batch && o in canon
  {
  }

  lemma CanonicalIsRepresentative(canon: seq<EntityNode>, rep: seq<EntityNode>, initial: seq<Profile>, views: Views, c: EntityNode)
    requires SummedUp(canon, rep, initial, views) && c in canon
    ensures c in rep
  {
    assert SomeMemberShares(rep, initial[..|rep|], c, OfLayer, views[c]);
  }

  /** What deduplicating a batch promises: `initial` are the values before, `byIdx` the
      representatives of the batch's positions. */
  ghost predicate BatchResult(batch: seq<EntityNode>, keyOf: Keys, initial: seq<Profile>, entities: seq<EntityNode>, byIdx: seq<EntityNode>)
    reads entities
  {
    && |byIdx| == |batch| == |initial|
    && (forall i :: 0 <= i < |batch| ==> byIdx[i] in entities && byIdx[i].kind == batch[i].kind)
    && Distinct(entities) && DistinctKeys(entities, keyOf)
    && (forall e :: e in entities ==> e in batch && Summarizes(byIdx, initial, e, e.View()))
  }

  /** The values of the objects, in their order. */
  function Profiles(objects: seq<EntityNode>): (p: seq<Profile>)
    reads objects
    ensures |p| == |objects| && forall i :: 0 <= i < |objects| ==> p[i] == objects[i].View()
  {
    seq(|objects|, i requires 0 <= i < |objects| reads objects => objects[i].View())
  }

  lemma {:induction false} SurvivorMentions(byIdx: seq<EntityNode>, initial: seq<Profile>, entities: seq<EntityNode>)
    requires |byIdx| == |initial|
    requires forall e :: e in entities ==> Summarizes(byIdx, initial, e, e.View())
    ensures TotalMentions(Profiles(entities)) == MentionsOfAll(byIdx, initial, entities)
  {
    if entities != [] {
      var early := entities[..|entities| - 1];
      SurvivorMentions(byIdx, initial, early);
      assert Profiles(entities)[..|early|] == Profiles(early);
      assert entities[|early|] in entities;
    }
  }

  /** Survivors conserve the mentions of the batch. */
  lemma BatchConservesMentions(batch: seq<EntityNode>, keyOf: Keys, initial: seq<Profile>, entities: seq<EntityNode>, byIdx: seq<EntityNode>)
    requires BatchResult(batch, keyOf, initial, entities, byIdx)
    ensures TotalMentions(Profiles(entities)) == TotalMentions(initial)
  {
    MentionsConserved(byIdx, initial, entities);
    SurvivorMentions(byIdx, initial, entities);
  }

  /** Records the values, keys and ids of a batch. */
  ghost method RecordBatch(cfg: Settings, batch: seq<EntityNode>) returns (initial: seq<Profile>, keyOf: Keys, idOf: Ids)
    requires IdsFromKeys(cfg, batch)
    ensures initial == Profiles(batch)
    ensures forall e :: e in batch ==> e in keyOf && keyOf[e] == Key(cfg, e) && e in idOf && idOf[e] == e.id
    ensures NamesTracked(cfg, batch, keyOf, idOf) && RestUntouched(batch, 0, initial)
    ensures IdsMatchKeys(batch, keyOf, idOf)
  {
    initial := Profiles(batch);
    keyOf := map e | e in batch :: Key(cfg, e);
    idOf := map e | e in batch :: e.id;
    hide Key, EntityNode.View;
  }

  /** Following redirects from the id of each position ends at the id of its representative. */
  ghost predicate RedirectsResolve(batch: seq<EntityNode>, redirects: map<Id, Id>, byIdx: seq<EntityNode>)
    requires |byIdx| == |batch|
    reads batch, byIdx
  {
    forall i :: 0 <= i < |batch| ==> Resolves(redirects, batch[i].id, byIdx[i].id)
  }

  ghost predicate NoneRedirected(entities: seq<EntityNode>, redirects: map<Id, Id>)
    reads entities
  {
    forall e :: e in entities ==> e.id !in redirects
  }

  /** Entities with one id have one representative. */
  ghost predicate OneGroupPerId(batch: seq<EntityNode>, byIdx: seq<EntityNode>)
    requires |byIdx| == |batch|
    reads batch
  {
    forall i, j :: 0 <= i < |batch| && 0 <= j < |batch| && batch[i].id == batch[j].id ==> byIdx[i] == byIdx[j]
  }

  lemma NamesTrackedOf(cfg: Settings, batch: seq<EntityNode>, keyOf: Keys, idOf: Ids)
    requires NamesTracked(cfg, batch, keyOf, idOf)
    ensures forall e :: e in batch ==> e in keyOf && keyOf[e] == Key(cfg, e) && e in idOf && idOf[e] == e.id
  {
  }

  lemma CanonicalsAreRepresentatives(canon: seq<EntityNode>, rep: seq<EntityNode>, initial: seq<Profile>, views: Views)
    requires SummedUp(canon, rep, initial, views)
    ensures forall c :: c in canon ==> c in rep
  {
    forall c | c in canon
      ensures c in rep
    {
      CanonicalIsRepresentative(canon, rep, initial, views, c);
    }
  }

  lemma FinishedGroups(batch: seq<EntityNode>, keyOf: Keys, canon: seq<EntityNode>, rep: seq<EntityNode>, initial: seq<Profile>, views: Views,
                       idOf: Ids, redirects: map<Id, Id>)
    requires BatchState(batch, keyOf, canon, rep, initial, views) && ChainsRight(batch, keyOf, canon, rep, idOf, redirects)
    ensures Chains(batch, canon, rep, idOf, redirects) && IdsMatchKeys(batch, keyOf, idOf)
    ensures (forall c :: c in canon ==> c in rep && c in batch) && forall r :: r in rep ==> r in batch
  {
    hide Summarizes, DistinctKeys, Chains;
    CanonicalsAreRepresentatives(canon, rep, initial, views);
    AllMembersOfBatch(batch, canon, |rep|);
  }

  function IdList(objects: seq<EntityNode>): (ids: seq<Id>)
    reads objects
    ensures |ids| == |objects| && forall i :: 0 <= i < |objects| ==> ids[i] == objects[i].id
  {
    seq(|objects|, i requires 0 <= i < |objects| reads objects => objects[i].id)
  }

  /** `idOf` records the ids of the listed objects. */
  ghost predicate IdsAre(objects: seq<EntityNode>, idOf: Ids)
    reads objects
  {
    forall i :: 0 <= i < |objects| ==> IdIn(idOf, objects[i]) == objects[i].id
  }

  lemma RecordedIds(batch: seq<EntityNode>, objects: seq<EntityNode>, idOf: Ids)
    requires forall e :: e in batch ==> e in idOf && idOf[e] == e.id
    requires forall e :: e in objects ==> e in batch
    ensures IdsAre(objects, idOf)
  {
    forall i | 0 <= i < |objects|
      ensures IdIn(idOf, objects[i]) == objects[i].id
    {
      assert objects[i] in objects;
    }
  }

  lemma SameIdLists(batch: seq<EntityNode>, idOf: Ids)
    requires IdsAre(batch, idOf)
    ensures IdList(batch) == IdsIn(idOf, batch)
  {
    hide IdIn;
  }

  lemma ResolveAlike(batch: seq<EntityNode>, rep: seq<EntityNode>, idOf: Ids, redirects: map<Id, Id>)
    requires |rep| == |batch| && IdsAre(batch, idOf) && IdsAre(rep, idOf)
    ensures RedirectsResolve(batch, redirects, rep) <==> AllResolve(batch, rep, idOf, redirects)
  {
    hide Resolves, IdIn;
  }

  lemma RedirectedAlike(idOf: Ids, redirects: map<Id, Id>, canon: seq<EntityNode>, entities: seq<EntityNode>)
    requires IdsAre(canon, idOf) && forall e :: e in entities <==> e in canon
    ensures NoneRedirected(entities, redirects) <==> forall c :: c in canon ==> IdIn(idOf, c) !in redirects
  {
    hide IdIn;
    forall c | c in canon
      ensures IdIn(idOf, c) == c.id
    {
      var i :| 0 <= i < |canon| && canon[i] == c;
    }
  }

  lemma GroupedAlike(batch: seq<EntityNode>, rep: seq<EntityNode>, idOf: Ids)
    requires |rep| == |batch| && IdsAre(batch, idOf)
    ensures OneGroupPerId(batch, rep) <==> OneRepPerId(IdsIn(idOf, batch), rep)
  {
    hide IdIn;
  }

  /** The laws of redirects, of live ids. */
  lemma LiveIds(batch: seq<EntityNode>, rep: seq<EntityNode>, idOf: Ids, redirects: map<Id, Id>, canon: seq<EntityNode>, entities: seq<EntityNode>)
    requires |rep| == |batch| && (forall r :: r in rep ==> r in batch) && (forall c :: c in canon ==> c in batch)
    requires forall e :: e in entities <==> e in canon
    requires forall e :: e in batch ==> e in idOf && idOf[e] == e.id
    ensures IdList(batch) == IdsIn(idOf, batch)
    ensures RedirectsResolve(batch, redirects, rep) <==> AllResolve(batch, rep, idOf, redirects)
    ensures NoneRedirected(entities, redirects) <==> forall c :: c in canon ==> IdIn(idOf, c) !in redirects
    ensures OneGroupPerId(batch, rep) <==> OneRepPerId(IdsIn(idOf, batch), rep)
  {
    hide *;
    RecordedIds(batch, batch, idOf);
    RecordedIds(batch, rep, idOf);
    RecordedIds(batch, canon, idOf);
    SameIdLists(batch, idOf);
    ResolveAlike(batch, rep, idOf, redirects);
    RedirectedAlike(idOf, redirects, canon, entities);
    GroupedAlike(batch, rep, idOf);
  }

  /** When redirects lead right, and that they do for distinct ids. */
  lemma ChainsEnd(cfg: Settings, batch: seq<EntityNode>, keyOf: Keys, canon: seq<EntityNode>, rep: seq<EntityNode>, initial: seq<Profile>, views: Views,
                  idOf: Ids, redirects: map<Id, Id>, entities: seq<EntityNode>)
    requires BatchState(batch, keyOf, canon, rep, initial, views) && ChainsRight(batch, keyOf, canon, rep, idOf, redirects)
    requires |rep| == |batch| && forall e :: e in entities <==> e in canon
    requires forall e :: e in batch ==> e in idOf && idOf[e] == e.id
    ensures RedirectsResolve(batch, redirects, rep) <==> NoneRedirected(entities, redirects) && OneGroupPerId(batch, rep)
    ensures Distinct(IdList(batch)) ==> RedirectsResolve(batch, redirects, rep)
  {
    hide *;
    FinishedGroups(batch, keyOf, canon, rep, initial, views, idOf, redirects);
    StateIsGrouped(batch, keyOf, canon, rep, initial, views, idOf);
    AllResolveIff(batch, canon, rep, idOf, redirects);
    LiveIds(batch, rep, idOf, redirects, canon, entities);
    if Distinct(IdList(batch)) {
      DistinctIdsResolve(batch, canon, rep, idOf, redirects);
    }
  }

  lemma EmptyBatch(batch: seq<EntityNode>, keyOf: Keys, idOf: Ids, initial: seq<Profile>)
    requires |batch| == |initial| && Distinct(batch)
    ensures BatchState(batch, keyOf, [], [], initial, map[])
    ensures Chains(batch, [], [], idOf, map[])
  {
  }

  lemma NothingAccounted(cfg: Settings, batch: seq<EntityNode>, keyOf: Keys, idOf: Ids, answers: nat -> Decision)
    requires forall e :: e in batch ==> e in keyOf
    ensures Accounted(cfg, batch, keyOf, idOf, [], [], map[], answers, 0)
  {
    assert KeysUpTo(batch, keyOf, 0) == {};
  }

  lemma StateIsChosen(batch: seq<EntityNode>, keyOf: Keys, canon: seq<EntityNode>, rep: seq<EntityNode>, initial: seq<Profile>, views: Views)
    requires BatchState(batch, keyOf, canon, rep, initial, views)
    ensures Chosen(batch, canon, |rep|) && |batch| == |initial|
  {
  }

  /** The loop over the batch. */
  method DedupAll(cfg: Settings, indices: seq<int>, batch: seq<EntityNode>, answers: nat -> Decision,
                  ghost keyOf: Keys, ghost idOf: Ids, ghost initial: seq<Profile>)
    returns (rep: seq<EntityNode>, redirects: map<Id, Id>, ghost canon': seq<EntityNode>, ghost views: Views, ghost used: nat)
    requires |indices| == |batch| && Distinct(batch)
    requires NamesTracked(cfg, batch, keyOf, idOf) && RestUntouched(batch, 0, initial) && IdsMatchKeys(batch, keyOf, idOf)
    modifies batch
    ensures |rep| == |batch|
    ensures BatchState(batch, keyOf, canon', rep, initial, views)
    ensures Tracks(cfg, batch, canon', |rep|, keyOf, idOf, initial, views)
    ensures ChainsRight(batch, keyOf, canon', rep, idOf, redirects)
    ensures Accounted(cfg, batch, keyOf, idOf, canon', rep, redirects, answers, used)
  {
    EmptyBatch(batch, keyOf, idOf, initial);
    NothingAccounted(cfg, batch, keyOf, idOf, answers);
    hide BatchState, ChainsRight;
    var canon: seq<EntityNode>, canonIdx: seq<int> := [], [];
    rep, views, redirects := [], map[], map[];
    var asked := 0;
    for k := 0 to |batch|
      invariant |rep| == k && |canonIdx| == |canon|
      invariant BatchState(batch, keyOf, canon, rep, initial, views)
      invariant Tracks(cfg, batch, canon, k, keyOf, idOf, initial, views)
      invariant ChainsRight(batch, keyOf, canon, rep, idOf, redirects)
      invariant Accounted(cfg, batch, keyOf, idOf, canon, rep, redirects, answers, asked)
    {
      hide *;
      ghost var choice;
      ghost var canonWas, repWas, redirectsWas, askedWas, viewsWas := canon, rep, redirects, asked, views;
      StateIsChosen(batch, keyOf, canon, rep, initial, views);
      canon, canonIdx, rep, redirects, asked, views, choice :=
        DedupOne(cfg, batch, indices[k], canon, canonIdx, rep, redirects, answers, asked, keyOf, idOf, initial, views);
      AccountedNext(cfg, batch, keyOf, idOf, canonWas, repWas, redirectsWas, viewsWas, initial[k], answers, askedWas, choice, asked,
                    canon, rep, redirects, views);
    }
    canon', used := canon, asked;
  }

  /** Closing keeps the records of names and ids right. */
  method ResultOfBatch(cfg: Settings, batch: seq<EntityNode>, ghost keyOf: Keys, ghost idOf: Ids, rep: seq<EntityNode>, ghost was: Views)
    returns (entities: seq<EntityNode>, byIdx: seq<EntityNode>)
    requires NamesTracked(cfg, batch, keyOf, idOf)
    requires forall o :: o in rep ==> o in batch && o in was && was[o] == o.View() && o in idOf && idOf[o] == o.id
    modifies batch
    ensures Closed(rep, idOf, was, entities, byIdx)
    ensures NamesTracked(cfg, batch, keyOf, idOf)
    ensures forall e :: e in batch ==> e.id == old(e.id) && e.name == old(e.name)
  {
    hide Closed, EntityNode.View;
    entities, byIdx := Result(rep, idOf, was, batch);
  }

  lemma TrackedNames(cfg: Settings, batch: seq<EntityNode>, canon: seq<EntityNode>, k: nat, keyOf: Keys, idOf: Ids,
                     initial: seq<Profile>, views: Views)
    requires Tracks(cfg, batch, canon, k, keyOf, idOf, initial, views)
    ensures NamesTracked(cfg, batch, keyOf, idOf)
  {
  }

  /** The representatives of a finished batch are its canonical entities, and share no id. */
  ghost predicate ReadyToClose(idOf: Ids, canon: seq<EntityNode>, rep: seq<EntityNode>, views: Views, was: Views) {
    && (forall o :: o in rep ==> o in canon && o in was)
    && (forall c :: c in canon ==> c in rep && c in views && was[c] == views[c])
    && (forall o, p :: o in rep && p in rep && o != p ==> IdIn(idOf, o) != IdIn(idOf, p))
  }

  lemma BeforeClosing(cfg: Settings, batch: seq<EntityNode>, keyOf: Keys, idOf: Ids, canon: seq<EntityNode>,
                      rep: seq<EntityNode>, initial: seq<Profile>, views: Views, was: Views)
    requires BatchState(batch, keyOf, canon, rep, initial, views) && |rep| == |batch|
    requires Tracks(cfg, batch, canon, |rep|, keyOf, idOf, initial, views)
    requires IdsMatchKeys(batch, keyOf, idOf)
    requires was == map o | o in rep :: o.View()
    ensures ReadyToClose(idOf, canon, rep, views, was)
    ensures forall o :: o in rep ==> o in batch && o in was && was[o] == o.View() && o in idOf && idOf[o] == o.id
  {
    hide SummedUp, Chosen, DistinctKeys, Distinct, Represented, Key;
    RepsShareNoId(batch, keyOf, idOf, canon, rep);
    hide IdsMatchKeys;
    CanonicalsAreRepresentatives(canon, rep, initial, views);
  }

  lemma SurvivorsAreResult(batch: seq<EntityNode>, keyOf: Keys, canon: seq<EntityNode>, rep: seq<EntityNode>, initial: seq<Profile>,
                           views: Views, was: Views, entities: seq<EntityNode>)
    requires BatchState(batch, keyOf, canon, rep, initial, views) && |rep| == |batch|
    requires Distinct(entities)
    requires forall c :: c in canon ==> c in rep && c in was && was[c] == views[c]
    requires forall e :: e in entities ==> e in rep && e in canon && e in was && e.View() == was[e]
    requires forall e :: e in rep ==> e in entities
    ensures BatchResult(batch, keyOf, initial, entities, rep)
  {
    hide Summarizes;
    assert initial[..|rep|] == initial;
    forall a, b | 0 <= a < b < |entities|
      ensures keyOf[entities[a]] != keyOf[entities[b]]
    {
      assert entities[a] in entities && entities[b] in entities;
      var i :| 0 <= i < |canon| && canon[i] == entities[a];
      var j :| 0 <= j < |canon| && canon[j] == entities[b];
      assert i < j || j < i;
    }
    forall i | 0 <= i < |batch|
      ensures rep[i] in entities
    {
      assert rep[i] in rep;
    }
  }

  lemma AfterClosing(batch: seq<EntityNode>, keyOf: Keys, idOf: Ids, canon: seq<EntityNode>, rep: seq<EntityNode>,
                     initial: seq<Profile>, views: Views, was: Views, entities: seq<EntityNode>, byIdx: seq<EntityNode>)
    requires BatchState(batch, keyOf, canon, rep, initial, views) && |rep| == |batch|
    requires ReadyToClose(idOf, canon, rep, views, was)
    requires Closed(rep, idOf, was, entities, byIdx)
    ensures byIdx == rep && forall e :: e in entities <==> e in canon
    ensures BatchResult(batch, keyOf, initial, entities, byIdx)
  {
    ClosingDistinctIds(rep, idOf, was, entities, byIdx);
    hide BatchState;
    SurvivorsAreResult(batch, keyOf, canon, rep, initial, views, was, entities);
  }

  /** Closes a finished batch, whose representatives share no id. */
  method FinishBatch(cfg: Settings, batch: seq<EntityNode>, ghost keyOf: Keys, ghost idOf: Ids, ghost canon: seq<EntityNode>,
                     rep: seq<EntityNode>, ghost initial: seq<Profile>, ghost views: Views)
    returns (entities: seq<EntityNode>, byIdx: seq<EntityNode>)
    requires BatchState(batch, keyOf, canon, rep, initial, views) && |rep| == |batch|
    requires Tracks(cfg, batch, canon, |rep|, keyOf, idOf, initial, views)
    requires IdsMatchKeys(batch, keyOf, idOf)
    modifies batch
    ensures byIdx == rep && forall e :: e in entities <==> e in canon
    ensures BatchResult(batch, keyOf, initial, entities, byIdx)
    ensures NamesTracked(cfg, batch, keyOf, idOf) && forall r :: r in rep ==> r in batch
    ensures forall e :: e in batch ==> e.id == old(e.id) && e.name == old(e.name)
  {
    hide *;
    ghost var was := map o | o in rep :: o.View();
    BeforeClosing(cfg, batch, keyOf, idOf, canon, rep, initial, views, was);
    TrackedNames(cfg, batch, canon, |rep|, keyOf, idOf, initial, views);
    entities, byIdx := ResultOfBatch(cfg, batch, keyOf, idOf, rep, was);
    AfterClosing(batch, keyOf, idOf, canon, rep, initial, views, was, entities, byIdx);
  }

  predicate SameKey(keyOf: Keys, a: EntityNode, b: EntityNode) {
    a in keyOf && b in keyOf && keyOf[a] == keyOf[b]
  }

  /** Two positions share a representative exactly if they share a key. */
  ghost predicate SharedByKey(batch: seq<EntityNode>, keyOf: Keys, rep: seq<EntityNode>)
    requires |rep| == |batch|
  {
    forall i, j :: 0 <= i < |batch| && 0 <= j < |batch| ==> (rep[i] == rep[j] <==> SameKey(keyOf, batch[i], batch[j]))
  }

  /** Two positions share a representative exactly if they share a key, and redirects lead from an
      entity to one with its key. */
  ghost predicate ByKeyAlone(batch: seq<EntityNode>, keyOf: Keys, byIdx: seq<EntityNode>, redirects: map<Id, Id>)
    requires |byIdx| == |batch|
    reads batch, byIdx
  {
    && SharedByKey(batch, keyOf, byIdx)
    && (forall i :: 0 <= i < |batch| ==> SameKey(keyOf, batch[i], byIdx[i]))
    && (forall id :: id in redirects ==> exists i :: 0 <= i < |batch| && batch[i].id == id && byIdx[i].id == redirects[id])
  }

  /** There are at most as many keys as survivors and agreed answers together. */
  ghost predicate KeysCovered(cfg: Settings, batch: seq<EntityNode>, keyOf: Keys, survivors: seq<EntityNode>,
                              answers: nat -> Decision, used: nat)
  {
    (forall e :: e in batch ==> e in keyOf) && |KeysUpTo(batch, keyOf, |batch|)| <= |survivors| + Agreements(cfg, answers, used)
  }

  lemma BatchAccounts(cfg: Settings, batch: seq<EntityNode>, keyOf: Keys, idOf: Ids, canon: seq<EntityNode>, rep: seq<EntityNode>,
                      initial: seq<Profile>, views: Views, redirects: map<Id, Id>, answers: nat -> Decision, used: nat)
    requires Accounted(cfg, batch, keyOf, idOf, canon, rep, redirects, answers, used)
    requires BatchState(batch, keyOf, canon, rep, initial, views) && |rep| == |batch|
    ensures NoneAgreed(cfg, answers, 0, used) ==>
              && GroupedByKey(batch, keyOf, idOf, rep, redirects)
              && SharedByKey(batch, keyOf, rep)
    ensures KeysCovered(cfg, batch, keyOf, canon, answers, used) && Distinct(canon)
  {
    hide SummedUp, NoneAgreed, KeysUpTo;
    if NoneAgreed(cfg, answers, 0, used) {
      forall i, j | 0 <= i < |batch| && 0 <= j < |batch|
        ensures rep[i] == rep[j] <==> SameKey(keyOf, batch[i], batch[j])
      {
        if keyOf[rep[i]] == keyOf[rep[j]] {
          KeyIsUnique(canon, keyOf, rep[i], rep[j]);
        }
      }
    }
  }

  lemma LiveKeys(batch: seq<EntityNode>, keyOf: Keys, idOf: Ids, rep: seq<EntityNode>, redirects: map<Id, Id>)
    requires |rep| == |batch| && (forall r :: r in rep ==> r in batch)
    requires forall e :: e in batch ==> e in idOf && idOf[e] == e.id
    ensures GroupedByKey(batch, keyOf, idOf, rep, redirects)
            && SharedByKey(batch, keyOf, rep) ==>
              ByKeyAlone(batch, keyOf, rep, redirects)
  {
    if GroupedByKey(batch, keyOf, idOf, rep, redirects) {
      forall id | id in redirects
        ensures exists i :: 0 <= i < |batch| && batch[i].id == id && rep[i].id == redirects[id]
      {
        var i :| 0 <= i < |rep| && IdIn(idOf, batch[i]) == id && IdIn(idOf, rep[i]) == redirects[id];
        assert rep[i] in rep;
      }
    }
  }

  /** Entities with different keys share a representative only if an answer that was used says that two are
      the same, and is confident enough. */
  ghost predicate OthersShareByAnswer(cfg: Settings, batch: seq<EntityNode>, keyOf: Keys, byIdx: seq<EntityNode>,
                                      answers: nat -> Decision, used: nat)
    requires |byIdx| == |batch|
  {
    (exists i, j :: 0 <= i < |batch| && 0 <= j < |batch| && byIdx[i] == byIdx[j] && !SameKey(keyOf, batch[i], batch[j])) ==>
      exists n: nat :: n < used && answers(n).sameEntity && answers(n).confidence >= cfg.mergeConfidence
  }

  lemma OtherwiseAgreed(cfg: Settings, batch: seq<EntityNode>, keyOf: Keys, byIdx: seq<EntityNode>, redirects: map<Id, Id>,
                        answers: nat -> Decision, used: nat)
    requires |byIdx| == |batch|
    requires NoneAgreed(cfg, answers, 0, used) ==> ByKeyAlone(batch, keyOf, byIdx, redirects)
    ensures OthersShareByAnswer(cfg, batch, keyOf, byIdx, answers, used)
  {
    hide SameKey;
  }

  lemma BatchIsClean(batch: seq<EntityNode>, keyOf: Keys, initial: seq<Profile>, entities: seq<EntityNode>, byIdx: seq<EntityNode>)
    requires BatchResult(batch, keyOf, initial, entities, byIdx)
    ensures Distinct(entities) && |byIdx| == |batch|
  {
  }

  lemma {:induction false} DistinctSize(a: seq<EntityNode>, members: set<EntityNode>)
    requires Distinct(a) && forall e :: e in a <==> e in members
    ensures |a| == |members|
  {
    if a == [] {
      assert members == {};
    } else {
      var early, last := a[..|a| - 1], a[|a| - 1];
      assert a == early + [last];
      DistinctSize(early, members - {last});
    }
  }

  lemma {:induction false} SameSize(a: seq<EntityNode>, b: seq<EntityNode>)
    requires Distinct(a) && Distinct(b) && forall e :: e in a <==> e in b
    ensures |a| == |b|
  {
    DistinctSize(a, set e | e in a);
    DistinctSize(b, set e | e in a);
  }

  lemma StillCovered(cfg: Settings, batch: seq<EntityNode>, keyOf: Keys, canon: seq<EntityNode>, entities: seq<EntityNode>,
                     answers: nat -> Decision, used: nat)
    requires KeysCovered(cfg, batch, keyOf, canon, answers, used)
    requires Distinct(entities) && Distinct(canon) && forall e :: e in entities <==> e in canon
    ensures KeysCovered(cfg, batch, keyOf, entities, answers, used)
  {
    SameSize(entities, canon);
    hide KeysUpTo;
  }

  /** Merges the entities of a batch, whatever the model answers. Every position gets a surviving
      representative of its type; survivors have distinct keys and each sums up its group. Redirects
      lead every id to that of its representative exactly when no survivor's id was redirected and
      entities with one id ended in one group, as they do when ids are distinct. If none of the
      answers that were used agreed, groups are keys and so are redirects; each that agreed saves at
      most one survivor. */
  method DedupBatch(cfg: Settings, indices: seq<int>, batch: seq<EntityNode>, answers: nat -> Decision)
    returns (entities: seq<EntityNode>, byIdx: seq<EntityNode>, redirects: map<Id, Id>, ghost keyOf: Keys, ghost initial: seq<Profile>,
             ghost used: nat)
    requires |indices| == |batch| && Distinct(batch) && IdsFromKeys(cfg, batch)
    modifies batch
    ensures initial == old(Profiles(batch))
    ensures forall e :: e in batch ==> e.id == old(e.id) && e in keyOf && keyOf[e] == Key(cfg, e) == old(Key(cfg, e))
    ensures BatchResult(batch, keyOf, initial, entities, byIdx)
    ensures RedirectsResolve(batch, redirects, byIdx) <==> NoneRedirected(entities, redirects) && OneGroupPerId(batch, byIdx)
    ensures Distinct(IdList(batch)) ==> RedirectsResolve(batch, redirects, byIdx)
    ensures OthersShareByAnswer(cfg, batch, keyOf, byIdx, answers, used)
    ensures NoneAgreed(cfg, answers, 0, used) ==> ByKeyAlone(batch, keyOf, byIdx, redirects)
    ensures KeysCovered(cfg, batch, keyOf, entities, answers, used)
  {
    hide *;
    ghost var idOf;
    initial, keyOf, idOf := RecordBatch(cfg, batch);
    ghost var canon, views;
    var rep;
    rep, redirects, canon, views, used := DedupAll(cfg, indices, batch, answers, keyOf, idOf, initial);
    BatchAccounts(cfg, batch, keyOf, idOf, canon, rep, initial, views, redirects, answers, used);
    entities, byIdx := FinishBatch(cfg, batch, keyOf, idOf, canon, rep, initial, views);
    NamesTrackedOf(cfg, batch, keyOf, idOf);
    ChainsEnd(cfg, batch, keyOf, canon, rep, initial, views, idOf, redirects, entities);
    LiveKeys(batch, keyOf, idOf, rep, redirects);
    OtherwiseAgreed(cfg, batch, keyOf, byIdx, redirects, answers, used);
    BatchIsClean(batch, keyOf, initial, entities, byIdx);
    StillCovered(cfg, batch, keyOf, canon, entities, answers, used);
  }

  // ---- a batch whose redirects run in a circle ----

  /** A model that finds every candidate the same and always prefers the newer one. */
  const NEWER_WINS: nat -> Decision := n => Decision(true, n + 1, 1.0)

  const ALL_ALIKE := Settings(name => name, (a, b) => 1.0, x => x, 0.5, 0.5, 1)

  lemma AloneIsForced(entity: EntityNode)
    ensures forall choice, asked' :: RightChoice(ALL_ALIKE, entity, 0, [], NEWER_WINS, 0, choice, asked') ==> choice == Alone
  {
  }

  lemma SwapIsForced(entity: EntityNode, k: nat, canon: seq<EntityNode>, asked: nat)
    requires |canon| == 1 && k == asked + 1 && canon[0].kind == entity.kind && canon[0].name != entity.name
    ensures forall choice, asked' :: RightChoice(ALL_ALIKE, entity, k, canon, NEWER_WINS, asked, choice, asked') ==> choice == Swap(0)
  {
    assert IsCandidate(ALL_ALIKE, canon[0], entity);
    assert canon[..0] == [];
    assert Candidates(ALL_ALIKE, entity, canon[..0]) == [];
    assert Candidates(ALL_ALIKE, entity, canon) == [0];
    assert Refusals(ALL_ALIKE, NEWER_WINS, asked, 1) == 0;
  }

  /** All that holds between two entities of a batch. */
  ghost predicate MidBatch(cfg: Settings, batch: seq<EntityNode>, canon: seq<EntityNode>, rep: seq<EntityNode>, redirects: map<Id, Id>,
                           keyOf: Keys, idOf: Ids, initial: seq<Profile>, views: Views)
    reads batch, canon
  {
    && BatchState(batch, keyOf, canon, rep, initial, views)
    && Tracks(cfg, batch, canon, |rep|, keyOf, idOf, initial, views)
    && ChainsRight(batch, keyOf, canon, rep, idOf, redirects)
  }

  method FirstStaysAlone(batch: seq<EntityNode>, ghost keyOf: Keys, ghost idOf: Ids, ghost initial: seq<Profile>)
    returns (canon: seq<EntityNode>, canonIdx: seq<int>, rep: seq<EntityNode>, redirects: map<Id, Id>, ghost views: Views)
    requires batch != [] && MidBatch(ALL_ALIKE, batch, [], [], map[], keyOf, idOf, initial, map[])
    modifies batch
    ensures MidBatch(ALL_ALIKE, batch, canon, rep, redirects, keyOf, idOf, initial, views)
    ensures canon == [batch[0]] && |canonIdx| == |rep| == 1 && redirects == map[]
  {
    hide BatchState, ChainsRight, Tracks, RightChoice, Merged;
    var asked;
    ghost var choice;
    AloneIsForced(batch[0]);
    canon, canonIdx, rep, redirects, asked, views, choice :=
      DedupOne(ALL_ALIKE, batch, 0, [], [], [], map[], NEWER_WINS, 0, keyOf, idOf, initial, map[]);
  }

  method NextTakesOver(batch: seq<EntityNode>, canon: seq<EntityNode>, canonIdx: seq<int>, rep: seq<EntityNode>, redirects: map<Id, Id>,
                       ghost keyOf: Keys, ghost idOf: Ids, ghost initial: seq<Profile>, ghost views: Views)
    returns (canon': seq<EntityNode>, canonIdx': seq<int>, rep': seq<EntityNode>, redirects': map<Id, Id>, ghost views': Views)
    requires 0 < |rep| < |batch| && |canon| == |canonIdx| == 1
    requires MidBatch(ALL_ALIKE, batch, canon, rep, redirects, keyOf, idOf, initial, views)
    requires canon[0].kind == batch[|rep|].kind && canon[0].name != batch[|rep|].name
    modifies batch
    ensures MidBatch(ALL_ALIKE, batch, canon', rep', redirects', keyOf, idOf, initial, views')
    ensures canon' == [batch[|rep|]] && |canonIdx'| == 1 && |rep'| == |rep| + 1
    ensures redirects' == redirects[IdIn(idOf, canon[0]) := IdIn(idOf, batch[|rep|])]
  {
    hide BatchState, ChainsRight, Tracks, RightChoice, Merged;
    var k := |rep|;
    var asked;
    ghost var choice;
    SwapIsForced(batch[k], k, canon, k - 1);
    canon', canonIdx', rep', redirects', asked, views', choice :=
      DedupOne(ALL_ALIKE, batch, k, canon, canonIdx, rep, redirects, NEWER_WINS, k - 1, keyOf, idOf, initial, views);
  }

  /** Three entities, the third with the id and the name of the first. */
  ghost predicate Circular(batch: seq<EntityNode>)
    reads batch
  {
    && |batch| == 3 && Distinct(batch)
    && batch[0].id == "1" && batch[1].id == "2" && batch[2].id == "1"
    && batch[0].name == "A" && batch[1].name == "B" && batch[2].name == "A"
    && batch[0].kind == batch[1].kind == batch[2].kind
  }

  /** Names stay those of the recorded keys. */
  lemma SameNames(batch: seq<EntityNode>, canon: seq<EntityNode>, rep: seq<EntityNode>, redirects: map<Id, Id>,
                  keyOf: Keys, idOf: Ids, initial: seq<Profile>, views: Views)
    requires MidBatch(ALL_ALIKE, batch, canon, rep, redirects, keyOf, idOf, initial, views)
    ensures forall e :: e in batch ==> e in keyOf && keyOf[e] == (e.name, e.kind)
  {
    hide BatchState, ChainsRight;
  }

  method SecondTakesOver(batch: seq<EntityNode>, ghost keyOf: Keys, ghost idOf: Ids, ghost initial: seq<Profile>)
    returns (canon: seq<EntityNode>, canonIdx: seq<int>, rep: seq<EntityNode>, redirects: map<Id, Id>, ghost views: Views)
    requires |batch| == 3 && batch[0].kind == batch[1].kind && MidBatch(ALL_ALIKE, batch, [], [], map[], keyOf, idOf, initial, map[])
    requires forall i :: 0 <= i < 3 ==> batch[i] in keyOf && keyOf[batch[i]].0 == if i == 1 then "B" else "A"
    modifies batch
    ensures MidBatch(ALL_ALIKE, batch, canon, rep, redirects, keyOf, idOf, initial, views)
    ensures canon == [batch[1]] && |canonIdx| == 1 && |rep| == 2 && batch[1].name == "B" && batch[2].name == "A"
    ensures redirects == map[][IdIn(idOf, batch[0]) := IdIn(idOf, batch[1])]
  {
    hide *;
    canon, canonIdx, rep, redirects, views := FirstStaysAlone(batch, keyOf, idOf, initial);
    SameNames(batch, canon, rep, redirects, keyOf, idOf, initial, views);
    assert canon[0].name == "A" && batch[1].name == "B";
    canon, canonIdx, rep, redirects, views := NextTakesOver(batch, canon, canonIdx, rep, redirects, keyOf, idOf, initial, views);
    SameNames(batch, canon, rep, redirects, keyOf, idOf, initial, views);
  }

  lemma CircularIds(batch: seq<EntityNode>)
    requires Circular(batch)
    ensures IdsFromKeys(ALL_ALIKE, batch) && Distinct(batch) && |batch| == 3 && batch[0].kind == batch[1].kind == batch[2].kind
  {
  }

  lemma CircularNames(batch: seq<EntityNode>, keyOf: Keys, idOf: Ids)
    requires Circular(batch) && NamesTracked(ALL_ALIKE, batch, keyOf, idOf)
    ensures |batch| == 3
    ensures forall i :: 0 <= i < 3 ==> batch[i] in keyOf && keyOf[batch[i]].0 == if i == 1 then "B" else "A"
    ensures forall i :: 0 <= i < 3 ==> IdIn(idOf, batch[i]) == if i == 1 then "2" else "1"
  {
    assert forall i :: 0 <= i < 3 ==> batch[i] in batch;
  }

  lemma StartsBatch(cfg: Settings, batch: seq<EntityNode>, keyOf: Keys, idOf: Ids, initial: seq<Profile>)
    requires BatchState(batch, keyOf, [], [], initial, map[]) && Chains(batch, [], [], idOf, map[])
    requires NamesTracked(cfg, batch, keyOf, idOf) && RestUntouched(batch, 0, initial) && IdsMatchKeys(batch, keyOf, idOf)
    ensures MidBatch(cfg, batch, [], [], map[], keyOf, idOf, initial, map[])
  {
    hide BatchState, Chains, NamesTracked, RestUntouched, IdsMatchKeys;
  }

  ghost method StartCircle(batch: seq<EntityNode>) returns (keyOf: Keys, idOf: Ids, initial: seq<Profile>)
    requires Circular(batch)
    ensures |batch| == 3 && batch[0].kind == batch[1].kind == batch[2].kind
    ensures MidBatch(ALL_ALIKE, batch, [], [], map[], keyOf, idOf, initial, map[])
    ensures forall i :: 0 <= i < 3 ==> batch[i] in keyOf && keyOf[batch[i]].0 == if i == 1 then "B" else "A"
    ensures forall i :: 0 <= i < 3 ==> IdIn(idOf, batch[i]) == if i == 1 then "2" else "1"
  {
    hide *;
    CircularIds(batch);
    initial, keyOf, idOf := RecordBatch(ALL_ALIKE, batch);
    EmptyBatch(batch, keyOf, idOf, initial);
    CircularNames(batch, keyOf, idOf);
    StartsBatch(ALL_ALIKE, batch, keyOf, idOf, initial);
  }

  /** The second entity takes over from the first, and the third from the second: the redirects of
      the two ids lead to each other, hence nowhere. */
  method RedirectsInACircle(batch: seq<EntityNode>) returns (redirects: map<Id, Id>)
    requires Circular(batch)
    modifies batch
    ensures redirects == map[]["1" := "2"]["2" := "1"]
  {
    hide *;
    ghost var keyOf, idOf, initial := StartCircle(batch);
    var canon, canonIdx, rep;
    ghost var views;
    canon, canonIdx, rep, redirects, views := SecondTakesOver(batch, keyOf, idOf, initial);
    canon, canonIdx, rep, redirects, views := NextTakesOver(batch, canon, canonIdx, rep, redirects, keyOf, idOf, initial, views);
  }
}
