// Fusing the entities of one extraction with the stored ones. Several indices may share an object,
// which must be fused once only.

module GraphFusion {
  import opened Options
  import opened Vectors
  import opened MemoryValues
  import opened EntityProfiles
  import opened RedirectChains
  import opened EntityDeduplicator

  /** All that changes in an entity. */
  datatype Record = Record(id: Id, name: string, view: Profile)

  type Records = map<EntityNode, Record>

  function RecordOf(e: EntityNode): Record
    reads e
  {
    Record(e.id, e.name, e.View())
  }

  function RecordKey(cfg: Settings, r: Record, kind: string): (string, string) {
    (cfg.norm(r.name), kind)
  }

  /** An incoming entity takes the id and name of the stored one it continues. */
  function FusedRecord(r: Record, stored: Record): Record {
    Record(stored.id, stored.name, Reused(r.view, stored.view))
  }

  /** `records` are the live values of the objects. */
  ghost predicate Live(objects: seq<EntityNode>, records: Records)
    reads objects
  {
    forall e :: e in objects ==> e in records && records[e] == RecordOf(e)
  }

  /** `found` is a right choice among `stored`: one with the entity's key if there is any, otherwise
      one of its type or none. */
  ghost predicate RightMatch(cfg: Settings, kind: string, r: Record, found: Option<EntityNode>, stored: seq<EntityNode>, known: Records)
    requires forall x :: x in stored ==> x in known
  {
    match found
    case Some(x) =>
      && x in stored && x.kind == kind
      && ((exists y :: y in stored && RecordKey(cfg, known[y], y.kind) == RecordKey(cfg, r, kind))
          ==> RecordKey(cfg, known[x], kind) == RecordKey(cfg, r, kind))
    case None => forall y :: y in stored ==> RecordKey(cfg, known[y], y.kind) != RecordKey(cfg, r, kind)
  }

  /** How a match rests on keys and on the answers that were used for it: an equal key decides without
      any answer; otherwise nothing is matched after answers of which none agreed, or something because
      the last one did. */
  ghost predicate MatchDecided(cfg: Settings, kind: string, r: Record, found: Option<EntityNode>, stored: seq<EntityNode>, known: Records,
                               answers: nat -> Decision, asked: nat, asked': nat)
    requires forall x :: x in stored ==> x in known
  {
    if exists y :: y in stored && RecordKey(cfg, known[y], y.kind) == RecordKey(cfg, r, kind)
    then asked' == asked && found.Some? && found.value in stored && RecordKey(cfg, known[found.value], found.value.kind) == RecordKey(cfg, r, kind)
    else if found.None? then asked <= asked' && NoneAgreed(cfg, answers, asked, asked')
    else asked < asked' && found.value in stored && Agreed(cfg, answers(asked' - 1)) && NoneAgreed(cfg, answers, asked, asked' - 1)
  }

  /** The stored entity to continue: the first with the same key, or else the first similar one that
      the model says is the same. */
  ghost predicate StoredChoice(cfg: Settings, entity: EntityNode, stored: seq<EntityNode>, answers: nat -> Decision, asked: nat,
                               found: Option<EntityNode>, asked': nat)
    reads entity, stored
  {
    var positions := Askable(cfg, entity, stored);
    var k := Refusals(cfg, answers, asked, |positions|);
    if exists x :: x in stored && Key(cfg, x) == Key(cfg, entity)
    then asked' == asked && exists i :: 0 <= i < |stored| && found == Some(stored[i]) && Key(cfg, stored[i]) == Key(cfg, entity)
                                        && forall j :: 0 <= j < i ==> Key(cfg, stored[j]) != Key(cfg, entity)
    else if k == |positions| then asked' == asked + k && found == None
    else asked' == asked + k + 1 && found == Some(stored[positions[k]])
  }

  lemma KeyIsRecorded(cfg: Settings, stored: seq<EntityNode>, known: Records, entity: EntityNode)
    requires Live(stored, known)
    ensures RecordKey(cfg, RecordOf(entity), entity.kind) == Key(cfg, entity)
    ensures forall x :: x in stored ==> x in known && RecordKey(cfg, known[x], x.kind) == Key(cfg, x)
  {
  }

  lemma ChoiceMatches(cfg: Settings, entity: EntityNode, stored: seq<EntityNode>, answers: nat -> Decision, asked: nat,
                      found: Option<EntityNode>, asked': nat, known: Records)
    requires Live(stored, known) && StoredChoice(cfg, entity, stored, answers, asked, found, asked')
    ensures forall x :: x in stored ==> x in known
    ensures RightMatch(cfg, entity.kind, RecordOf(entity), found, stored, known)
    ensures MatchDecided(cfg, entity.kind, RecordOf(entity), found, stored, known, answers, asked, asked')
  {
    KeyIsRecorded(cfg, stored, known, entity);
    hide Live, RecordOf, RecordKey, Key, Agreed, EntityNode.View;
    var positions := Askable(cfg, entity, stored);
    var k := Refusals(cfg, answers, asked, |positions|);
    if k < |positions| {
      assert stored[positions[k]] in stored && IsCandidate(cfg, stored[positions[k]], entity);
    }
    hide Askable, Refusals;
  }

  /** Where no stored entity has the key, the first similar one is continued as soon as the model agrees
      on it. */
  lemma FirstAgreementMatches(cfg: Settings, entity: EntityNode, stored: seq<EntityNode>, answers: nat -> Decision, asked: nat,
                              found: Option<EntityNode>, asked': nat, p: nat)
    requires StoredChoice(cfg, entity, stored, answers, asked, found, asked')
    requires forall x :: x in stored ==> Key(cfg, x) != Key(cfg, entity)
    requires p < |stored| && IsCandidate(cfg, stored[p], entity) && forall j :: 0 <= j < p ==> !IsCandidate(cfg, stored[j], entity)
    requires cfg.maxCandidates > 0 && answers(asked).sameEntity && answers(asked).confidence >= cfg.mergeConfidence
    ensures asked' == asked + 1 && found == Some(stored[p])
  {
    FirstAskable(cfg, entity, stored, p);
    hide IsCandidate, Candidates, Key, Askable;
    assert Refusals(cfg, answers, asked, |Askable(cfg, entity, stored)|) == 0;
  }

  /** Looks for an equal key first and asks the model otherwise. */
  method MatchStored(cfg: Settings, entity: EntityNode, stored: seq<EntityNode>, answers: nat -> Decision, asked: nat, ghost known: Records)
    returns (found: Option<EntityNode>, asked': nat)
    requires Live(stored, known)
    ensures StoredChoice(cfg, entity, stored, answers, asked, found, asked')
    ensures forall x :: x in stored ==> x in known
    ensures RightMatch(cfg, entity.kind, RecordOf(entity), found, stored, known)
    ensures MatchDecided(cfg, entity.kind, RecordOf(entity), found, stored, known, answers, asked, asked')
  {
    hide Live, RightMatch, MatchDecided, RecordOf, Key, Askable, Refusals, IsCandidate, EntityNode.View;
    var exact := FindExact(cfg, entity, stored);
    if exact.Some? {
      found, asked' := Some(stored[exact.value]), asked;
      assert stored[exact.value] in stored;
    } else {
      var at, swap;
      at, swap, asked' := FindMerge(cfg, entity, 0, stored, answers, asked);
      found := if at.Some? then Some(stored[at.value]) else None;
    }
    ChoiceMatches(cfg, entity, stored, answers, asked, found, asked', known);
  }

  lemma RightMatchListed(cfg: Settings, kind: string, r: Record, found: Option<EntityNode>, stored: seq<EntityNode>, known: Records)
    requires forall x :: x in stored ==> x in known
    requires RightMatch(cfg, kind, r, found, stored, known)
    ensures found.Some? ==> found.value in stored
  {
  }

  /** Fuses one entity with the stored ones of its type. */
  method FuseOne(cfg: Settings, entity: EntityNode, stored: seq<EntityNode>, answers: nat -> Decision, asked: nat, redirects: map<Id, Id>,
                 ghost objects: seq<EntityNode>, ghost now: Records, ghost all: seq<EntityNode>, ghost known: Records)
    returns (asked': nat, redirects': map<Id, Id>, ghost found: Option<EntityNode>, ghost now': Records)
    requires entity in objects && Live(objects, now)
    requires Live(all, known) && entity !in all && forall x :: x in stored ==> x in all
    modifies entity
    ensures MatchDecided(cfg, entity.kind, now[entity], found, stored, known, answers, asked, asked')
    ensures RightMatch(cfg, entity.kind, now[entity], found, stored, known)
    ensures now' == if found.Some? then now[entity := FusedRecord(now[entity], known[found.value])] else now
    ensures redirects' == if now'[entity].id != now[entity].id then redirects[now[entity].id := now'[entity].id] else redirects
    ensures Live(objects, now') && Live(all, known)
  {
    hide Reused, RightMatch, MatchDecided, StoredChoice, Key, RecordKey, Askable, Refusals, IsCandidate, Agreed, NoneAgreed;
    redirects', now' := redirects, now;
    assert Live(stored, known);
    var matched;
    matched, asked' := MatchStored(cfg, entity, stored, answers, asked, known);
    found := matched;
    RightMatchListed(cfg, entity.kind, now[entity], found, stored, known);
    if matched.Some? {
      var oldId := entity.id;
      now' := now[entity := FusedRecord(now[entity], known[found.value])];
      ReuseExisting(entity, matched.value);
      if oldId != entity.id {
        redirects' := redirects[oldId := entity.id];
      }
    }
  }

  /** The distinct objects among the entities, in the order in which they first appear. */
  method UniqueEntities(byIdx: seq<EntityNode>) returns (unique: seq<EntityNode>)
    ensures Distinct(unique)
    ensures forall e :: e in unique <==> e in byIdx
  {
    unique := [];
    var seen: set<EntityNode> := {};
    for i := 0 to |byIdx|
      invariant Distinct(unique)
      invariant forall e :: e in seen <==> e in unique
      invariant forall e :: e in unique <==> e in byIdx[..i]
    {
      assert byIdx[..i + 1] == byIdx[..i] + [byIdx[i]];
      if byIdx[i] !in seen {
        seen, unique := seen + {byIdx[i]}, unique + [byIdx[i]];
      }
    }
    assert byIdx[..|byIdx|] == byIdx;
  }

  type Matches = map<EntityNode, Option<EntityNode>>

  function StoredOf(stored: map<string, seq<EntityNode>>, kind: string): seq<EntityNode> {
    if kind in stored then stored[kind] else []
  }

  /** Each of the objects was fused once, from its record before, with a right match. */
  ghost predicate FusedOnce(cfg: Settings, objects: seq<EntityNode>, before: Records, after: Records, found: Matches,
                            stored: map<string, seq<EntityNode>>, known: Records)
    requires forall kind, x :: kind in stored && x in stored[kind] ==> x in known
  {
    forall e :: e in objects ==>
                  && e in before && e in after && e in found
                  && RightMatch(cfg, e.kind, before[e], found[e], StoredOf(stored, e.kind), known)
                  && (found[e].Some? ==> found[e].value in known)
                  && after[e] == if found[e].Some? then FusedRecord(before[e], known[found[e].value]) else before[e]
  }

  /** Redirects lead from old ids to new ones, and none is missing. */
  ghost predicate RedirectsChanges(objects: seq<EntityNode>, before: Records, after: Records, redirects: map<Id, Id>) {
    && (forall e :: e in objects && e in before && e in after && before[e].id != after[e].id ==> before[e].id in redirects)
    && (forall id :: id in redirects ==>
          exists e :: e in objects && e in before && e in after && before[e].id == id && after[e].id == redirects[id] != id)
  }

  lemma FusedOneMore(cfg: Settings, unique: seq<EntityNode>, k: nat, before: Records, now: Records, found: Matches,
                     stored: map<string, seq<EntityNode>>, known: Records, one: Option<EntityNode>, now': Records)
    requires forall kind, x :: kind in stored && x in stored[kind] ==> x in known
    requires k < |unique| && Distinct(unique)
    requires FusedOnce(cfg, unique[..k], before, now, found, stored, known)
    requires unique[k] in before && unique[k] in now && now[unique[k]] == before[unique[k]]
    requires RightMatch(cfg, unique[k].kind, now[unique[k]], one, StoredOf(stored, unique[k].kind), known)
    requires one.Some? ==> one.value in known
    requires now' == if one.Some? then now[unique[k] := FusedRecord(now[unique[k]], known[one.value])] else now
    ensures FusedOnce(cfg, unique[..k + 1], before, now', found[unique[k] := one], stored, known)
  {
  }

  lemma RedirectOneMore(unique: seq<EntityNode>, k: nat, before: Records, now: Records, now': Records, redirects: map<Id, Id>)
    requires k < |unique| && Distinct(unique)
    requires unique[k] in before && unique[k] in now && now[unique[k]] == before[unique[k]] && unique[k] in now'
    requires now' == now[unique[k] := now'[unique[k]]]
    requires RedirectsChanges(unique[..k], before, now, redirects)
    ensures var e := unique[k];
            RedirectsChanges(unique[..k + 1], before, now', if now'[e].id != now[e].id then redirects[now[e].id := now'[e].id] else redirects)
  {
  }

  /** `e` continues a stored entity with another key. */
  ghost predicate MatchedByAnswer(cfg: Settings, e: EntityNode, before: Records, found: Matches, known: Records) {
    && e in before && e in found && found[e].Some? && found[e].value in known
    && RecordKey(cfg, known[found[e].value], found[e].value.kind) != RecordKey(cfg, before[e], e.kind)
  }

  /** The entities that continue a stored one with another key each have an answer of their own that
      agreed, and no other answer did. */
  ghost predicate Explained(cfg: Settings, objects: seq<EntityNode>, before: Records, found: Matches, known: Records,
                            answers: nat -> Decision, asked: nat, decidedBy: map<EntityNode, nat>)
  {
    && (forall e :: e in decidedBy ==> e in objects && MatchedByAnswer(cfg, e, before, found, known))
    && (forall e :: e in objects && MatchedByAnswer(cfg, e, before, found, known) ==> e in decidedBy)
    && (forall e :: e in decidedBy ==> decidedBy[e] < asked && Agreed(cfg, answers(decidedBy[e])))
    && (forall e, f :: e in decidedBy && f in decidedBy && e != f ==> decidedBy[e] != decidedBy[f])
    && |decidedBy| == Agreements(cfg, answers, asked)
  }

  lemma OthersMatchedAlike(cfg: Settings, e: EntityNode, one: Option<EntityNode>, before: Records, found: Matches, known: Records, f: EntityNode)
    requires f != e
    ensures MatchedByAnswer(cfg, f, before, found[e := one], known) <==> MatchedByAnswer(cfg, f, before, found, known)
  {
  }

  lemma ExplainedSame(cfg: Settings, objects: seq<EntityNode>, e: EntityNode, one: Option<EntityNode>, before: Records, found: Matches, known: Records,
                      answers: nat -> Decision, asked: nat, asked': nat, decidedBy: map<EntityNode, nat>)
    requires e !in objects && Explained(cfg, objects, before, found, known, answers, asked, decidedBy)
    requires !MatchedByAnswer(cfg, e, before, found[e := one], known)
    requires asked <= asked' && Agreements(cfg, answers, asked') == Agreements(cfg, answers, asked)
    ensures Explained(cfg, objects + [e], before, found[e := one], known, answers, asked', decidedBy)
  {
    hide MatchedByAnswer, Agreed, Agreements;
    forall f | f in objects
      ensures MatchedByAnswer(cfg, f, before, found[e := one], known) <==> MatchedByAnswer(cfg, f, before, found, known)
    {
      OthersMatchedAlike(cfg, e, one, before, found, known, f);
    }
  }

  lemma ExplainedMore(cfg: Settings, objects: seq<EntityNode>, e: EntityNode, one: Option<EntityNode>, before: Records, found: Matches, known: Records,
                      answers: nat -> Decision, asked: nat, asked': nat, decidedBy: map<EntityNode, nat>)
    requires e !in objects && Explained(cfg, objects, before, found, known, answers, asked, decidedBy)
    requires MatchedByAnswer(cfg, e, before, found[e := one], known)
    requires asked < asked' && Agreed(cfg, answers(asked' - 1)) && Agreements(cfg, answers, asked') == Agreements(cfg, answers, asked) + 1
    ensures Explained(cfg, objects + [e], before, found[e := one], known, answers, asked', decidedBy[e := asked' - 1])
  {
    hide MatchedByAnswer, Agreed, Agreements;
    forall f | f in objects
      ensures MatchedByAnswer(cfg, f, before, found[e := one], known) <==> MatchedByAnswer(cfg, f, before, found, known)
    {
      OthersMatchedAlike(cfg, e, one, before, found, known, f);
    }
    assert e !in decidedBy;
  }

  lemma ExplainedNext(cfg: Settings, unique: seq<EntityNode>, k: nat, before: Records, now: Records, found: Matches,
                      stored: seq<EntityNode>, known: Records, one: Option<EntityNode>, answers: nat -> Decision, asked: nat, asked': nat,
                      decidedBy: map<EntityNode, nat>)
    requires k < |unique| && Distinct(unique) && Explained(cfg, unique[..k], before, found, known, answers, asked, decidedBy)
    requires unique[k] in before && unique[k] in now && now[unique[k]] == before[unique[k]]
    requires (forall x :: x in stored ==> x in known)
    requires MatchDecided(cfg, unique[k].kind, now[unique[k]], one, stored, known, answers, asked, asked')
    ensures var byAnswer := one.Some? && one.value in known
                            && RecordKey(cfg, known[one.value], one.value.kind) != RecordKey(cfg, before[unique[k]], unique[k].kind);
            Explained(cfg, unique[..k + 1], before, found[unique[k] := one], known, answers, asked',
                      if byAnswer && asked' > 0 then decidedBy[unique[k] := asked' - 1] else decidedBy)
  {
    var e := unique[k];
    assert unique[..k + 1] == unique[..k] + [e] && e !in unique[..k];
    hide Explained, RecordKey, Agreed, NoneAgreed, Distinct;
    var byAnswer := one.Some? && one.value in known && RecordKey(cfg, known[one.value], one.value.kind) != RecordKey(cfg, before[e], e.kind);
    if byAnswer {
      NoAgreementsBetween(cfg, answers, asked, asked' - 1);
      ExplainedMore(cfg, unique[..k], e, one, before, found, known, answers, asked, asked', decidedBy);
    } else {
      NoAgreementsBetween(cfg, answers, asked, asked');
      ExplainedSame(cfg, unique[..k], e, one, before, found, known, answers, asked, asked', decidedBy);
    }
  }

  /** The first `k` distinct objects are fused, the others as before. */
  ghost predicate FusedFirst(cfg: Settings, unique: seq<EntityNode>, k: nat, before: Records, now: Records, found: Matches,
                             stored: map<string, seq<EntityNode>>, known: Records, redirects: map<Id, Id>)
    requires forall kind, x :: kind in stored && x in stored[kind] ==> x in known
  {
    && k <= |unique| && Distinct(unique)
    && (forall j :: k <= j < |unique| ==> unique[j] in before && unique[j] in now && now[unique[j]] == before[unique[j]])
    && FusedOnce(cfg, unique[..k], before, now, found, stored, known)
    && RedirectsChanges(unique[..k], before, now, redirects)
  }

  lemma FusedNext(cfg: Settings, unique: seq<EntityNode>, k: nat, before: Records, now: Records, found: Matches,
                  stored: map<string, seq<EntityNode>>, known: Records, redirects: map<Id, Id>, one: Option<EntityNode>, now': Records)
    requires forall kind, x :: kind in stored && x in stored[kind] ==> x in known
    requires FusedFirst(cfg, unique, k, before, now, found, stored, known, redirects) && k < |unique|
    requires unique[k] in now && RightMatch(cfg, unique[k].kind, now[unique[k]], one, StoredOf(stored, unique[k].kind), known)
    requires one.Some? ==> one.value in known
    requires now' == if one.Some? then now[unique[k] := FusedRecord(now[unique[k]], known[one.value])] else now
    ensures var e := unique[k];
            FusedFirst(cfg, unique, k + 1, before, now', found[e := one], stored, known,
                       if now'[e].id != now[e].id then redirects[now[e].id := now'[e].id] else redirects)
  {
    hide RightMatch, FusedRecord, RecordKey, FusedOnce, RedirectsChanges;
    assert now' == now[unique[k] := now'[unique[k]]];
    FusedOneMore(cfg, unique, k, before, now, found, stored, known, one, now');
    RedirectOneMore(unique, k, before, now, now', redirects);
  }

  lemma NextOf(cfg: Settings, unique: seq<EntityNode>, k: nat, before: Records, now: Records, found: Matches,
               stored: map<string, seq<EntityNode>>, known: Records, redirects: map<Id, Id>)
    requires forall kind, x :: kind in stored && x in stored[kind] ==> x in known
    requires FusedFirst(cfg, unique, k, before, now, found, stored, known, redirects) && k < |unique|
    ensures Distinct(unique) && unique[k] in before && unique[k] in now && now[unique[k]] == before[unique[k]]
  {
  }

  lemma StoredAmong(stored: map<string, seq<EntityNode>>, those: set<EntityNode>, kind: string)
    requires forall kind, x :: kind in stored && x in stored[kind] ==> x in those
    ensures forall x :: x in StoredOf(stored, kind) ==> x in those
  {
  }

  lemma NextFused(cfg: Settings, unique: seq<EntityNode>, k: nat, before: Records, now: Records, found: Matches,
                  stored: map<string, seq<EntityNode>>, known: Records, redirects: map<Id, Id>, one: Option<EntityNode>, now': Records,
                  answers: nat -> Decision, asked: nat, asked': nat, decidedBy: map<EntityNode, nat>)
    returns (found': Matches, decidedBy': map<EntityNode, nat>)
    requires forall kind, x :: kind in stored && x in stored[kind] ==> x in known
    requires FusedFirst(cfg, unique, k, before, now, found, stored, known, redirects) && k < |unique| && unique[k] in now
    requires Explained(cfg, unique[..k], before, found, known, answers, asked, decidedBy)
    requires MatchDecided(cfg, unique[k].kind, now[unique[k]], one, StoredOf(stored, unique[k].kind), known, answers, asked, asked')
    requires RightMatch(cfg, unique[k].kind, now[unique[k]], one, StoredOf(stored, unique[k].kind), known)
    requires one.Some? ==> one.value in known
    requires now' == if one.Some? then now[unique[k] := FusedRecord(now[unique[k]], known[one.value])] else now
    ensures var e := unique[k];
            FusedFirst(cfg, unique, k + 1, before, now', found', stored, known,
                       if now'[e].id != now[e].id then redirects[now[e].id := now'[e].id] else redirects)
    ensures Explained(cfg, unique[..k + 1], before, found', known, answers, asked', decidedBy')
  {
    var e := unique[k];
    NextOf(cfg, unique, k, before, now, found, stored, known, redirects);
    hide *;
    StoredAmong(stored, known.Keys, e.kind);
    FusedNext(cfg, unique, k, before, now, found, stored, known, redirects, one, now');
    ExplainedNext(cfg, unique, k, before, now, found, StoredOf(stored, e.kind), known, one, answers, asked, asked', decidedBy);
    found' := found[e := one];
    decidedBy' := if one.Some? && one.value in known
                     && RecordKey(cfg, known[one.value], one.value.kind) != RecordKey(cfg, before[e], e.kind) && asked' > 0
                  then decidedBy[e := asked' - 1] else decidedBy;
  }

  /** Fuses the next distinct object. */
  method FuseNext(cfg: Settings, unique: seq<EntityNode>, k: nat, stored: map<string, seq<EntityNode>>, answers: nat -> Decision, asked: nat,
                  redirects: map<Id, Id>, ghost byIdx: seq<EntityNode>, ghost before: Records, ghost now: Records, ghost found: Matches,
                  ghost all: seq<EntityNode>, ghost known: Records, ghost decidedBy: map<EntityNode, nat>)
    returns (asked': nat, redirects': map<Id, Id>, ghost now': Records, ghost found': Matches, ghost decidedBy': map<EntityNode, nat>)
    requires k < |unique| && unique[k] in byIdx && unique[k] !in all
    requires Live(byIdx, now) && Live(all, known)
    requires forall kind, x :: kind in stored && x in stored[kind] ==> x in all && x in known
    requires FusedFirst(cfg, unique, k, before, now, found, stored, known, redirects)
    requires Explained(cfg, unique[..k], before, found, known, answers, asked, decidedBy)
    modifies unique[k]
    ensures Explained(cfg, unique[..k + 1], before, found', known, answers, asked', decidedBy')
    ensures Live(byIdx, now') && Live(all, known)
    ensures FusedFirst(cfg, unique, k + 1, before, now', found', stored, known, redirects')
  {
    hide *;
    var entity := unique[k];
    var candidates := StoredOf(stored, entity.kind);
    StoredAmong(stored, (set x | x in all) * known.Keys, entity.kind);
    NextOf(cfg, unique, k, before, now, found, stored, known, redirects);
    ghost var one;
    asked', redirects', one, now' := FuseOne(cfg, entity, candidates, answers, asked, redirects, byIdx, now, all, known);
    RightMatchListed(cfg, entity.kind, now[entity], one, candidates, known);
    found', decidedBy' := NextFused(cfg, unique, k, before, now, found, stored, known, redirects, one, now', answers, asked, asked', decidedBy);
  }

  lemma NothingFusedYet(cfg: Settings, unique: seq<EntityNode>, byIdx: seq<EntityNode>, before: Records,
                        stored: map<string, seq<EntityNode>>, known: Records, answers: nat -> Decision)
    requires Distinct(unique) && forall e :: e in unique ==> e in byIdx
    requires forall kind, x :: kind in stored && x in stored[kind] ==> x in known
    requires Live(byIdx, before)
    ensures FusedFirst(cfg, unique, 0, before, before, map[], stored, known, map[])
    ensures Explained(cfg, unique[..0], before, map[], known, answers, 0, map[])
  {
  }

  lemma SameMembers(cfg: Settings, unique: seq<EntityNode>, byIdx: seq<EntityNode>, before: Records, after: Records, found: Matches,
                    stored: map<string, seq<EntityNode>>, known: Records, redirects: map<Id, Id>)
    requires forall e :: e in unique <==> e in byIdx
    requires forall kind, x :: kind in stored && x in stored[kind] ==> x in known
    requires FusedFirst(cfg, unique, |unique|, before, after, found, stored, known, redirects)
    ensures FusedOnce(cfg, byIdx, before, after, found, stored, known)
    ensures RedirectsChanges(byIdx, before, after, redirects)
  {
  }

  lemma SameExplained(cfg: Settings, unique: seq<EntityNode>, byIdx: seq<EntityNode>, before: Records, found: Matches, known: Records,
                      answers: nat -> Decision, used: nat, decidedBy: map<EntityNode, nat>)
    requires forall e :: e in unique <==> e in byIdx
    requires Explained(cfg, unique, before, found, known, answers, used, decidedBy)
    ensures Explained(cfg, byIdx, before, found, known, answers, used, decidedBy)
  {
  }

  /** Fuses every distinct object once. */
  method FuseAll(cfg: Settings, byIdx: seq<EntityNode>, stored: map<string, seq<EntityNode>>, answers: nat -> Decision,
                 ghost before: Records, ghost all: seq<EntityNode>, ghost known: Records, ghost frame: seq<EntityNode>)
    returns (redirects: map<Id, Id>, ghost after: Records, ghost found: Matches, ghost used: nat, ghost decidedBy: map<EntityNode, nat>)
    requires Live(byIdx, before) && Live(all, known)
    requires forall x :: x in all ==> x !in frame
    requires forall kind, x :: kind in stored && x in stored[kind] ==> x in all && x in known
    requires forall e :: e in byIdx ==> e in frame
    modifies frame
    ensures Live(all, known)
    ensures Live(byIdx, after)
    ensures FusedOnce(cfg, byIdx, before, after, found, stored, known)
    ensures RedirectsChanges(byIdx, before, after, redirects)
    ensures Explained(cfg, byIdx, before, found, known, answers, used, decidedBy)
  {
    hide *;
    var unique := UniqueEntities(byIdx);
    redirects, after, found, decidedBy := map[], before, map[], map[];
    var asked := 0;
    NothingFusedYet(cfg, unique, byIdx, before, stored, known, answers);
    for k := 0 to |unique|
      invariant Live(byIdx, after) && Live(all, known)
      invariant FusedFirst(cfg, unique, k, before, after, found, stored, known, redirects)
      invariant Explained(cfg, unique[..k], before, found, known, answers, asked, decidedBy)
    {
      assert unique[k] in unique;
      asked, redirects, after, found, decidedBy :=
        FuseNext(cfg, unique, k, stored, answers, asked, redirects, byIdx, before, after, found, all, known, decidedBy);
    }
    used := asked;
    assert unique[..|unique|] == unique;
    SameMembers(cfg, unique, byIdx, before, after, found, stored, known, redirects);
    SameExplained(cfg, unique, byIdx, before, found, known, answers, used, decidedBy);
  }

  // ---- the result ----

  function IdsOf(records: Records): Ids {
    map e | e in records :: records[e].id
  }

  function ViewsOf(records: Records): Views {
    map e | e in records :: records[e].view
  }

  lemma LiveNow(objects: seq<EntityNode>, records: Records)
    requires Live(objects, records)
    ensures forall e :: e in objects ==>
                          && e in IdsOf(records) && IdsOf(records)[e] == e.id == records[e].id
                          && e in ViewsOf(records) && ViewsOf(records)[e] == e.View()
                          && e in records && records[e].name == e.name
  {
  }

  lemma NobodyMatchedByAnswer(cfg: Settings, byIdx: seq<EntityNode>, before: Records, found: Matches, known: Records,
                              answers: nat -> Decision, used: nat, decidedBy: map<EntityNode, nat>)
    requires Explained(cfg, byIdx, before, found, known, answers, used, decidedBy)
    ensures (forall n: nat :: n < used ==> !(answers(n).sameEntity && answers(n).confidence >= cfg.mergeConfidence)) ==>
              forall e :: e in byIdx ==> !MatchedByAnswer(cfg, e, before, found, known)
  {
    hide MatchedByAnswer;
  }

  /** Fuses the entities of an extraction with the stored ones. Every distinct object is fused
      exactly once; the result has one object per id and maps every index to it. An entity continues a
      stored one with another key only on an answer of its own that agreed. */
  method MergeWithGraph(cfg: Settings, byIdx: seq<EntityNode>, stored: map<string, seq<EntityNode>>, answers: nat -> Decision,
                        ghost before: Records, ghost all: seq<EntityNode>, ghost known: Records, ghost frame: seq<EntityNode>)
    returns (entities: seq<EntityNode>, byIdx': seq<EntityNode>, redirects: map<Id, Id>, ghost after: Records, ghost found: Matches,
             ghost used: nat, ghost decidedBy: map<EntityNode, nat>)
    requires Live(byIdx, before) && Live(all, known)
    requires forall x :: x in all ==> x !in frame
    requires forall kind, x :: kind in stored && x in stored[kind] ==> x in all && x in known
    requires forall e :: e in byIdx ==> e in frame
    modifies frame
    ensures FusedOnce(cfg, byIdx, before, after, found, stored, known)
    ensures RedirectsChanges(byIdx, before, after, redirects)
    ensures forall e :: e in byIdx ==> e in after && e.id == after[e].id && e.name == after[e].name
    ensures Closed(byIdx, IdsOf(after), ViewsOf(after), entities, byIdx')
    ensures Explained(cfg, byIdx, before, found, known, answers, used, decidedBy)
    ensures (forall n: nat :: n < used ==> !(answers(n).sameEntity && answers(n).confidence >= cfg.mergeConfidence)) ==>
              forall e :: e in byIdx ==> !MatchedByAnswer(cfg, e, before, found, known)
  {
    hide *;
    redirects, after, found, used, decidedBy := FuseAll(cfg, byIdx, stored, answers, before, all, known, frame);
    LiveNow(byIdx, after);
    NobodyMatchedByAnswer(cfg, byIdx, before, found, known, answers, used, decidedBy);
    entities, byIdx' := Result(byIdx, IdsOf(after), ViewsOf(after), frame);
  }

  ghost function Snapshot(objects: seq<EntityNode>): (records: Records)
    reads objects
    ensures Live(objects, records)
    ensures forall e :: e in objects ==> e in records && records[e] == RecordOf(e)
  {
    map e | e in objects :: RecordOf(e)
  }

  // ---- what fusing means ----

  /** Ids that are made from keys, by a hash taken to be injective. */
  ghost predicate Injective(hash: ((string, string)) -> Id) {
    forall a, b :: hash(a) == hash(b) ==> a == b
  }

  ghost predicate Keyed(cfg: Settings, hash: ((string, string)) -> Id, objects: seq<EntityNode>, records: Records) {
    forall e :: e in objects ==> e in records && records[e].id == hash(RecordKey(cfg, records[e], e.kind))
  }

  ghost predicate DistinctRecordKeys(cfg: Settings, objects: seq<EntityNode>, records: Records) {
    forall e, f :: e in objects && f in objects && e != f ==>
                     e in records && f in records && RecordKey(cfg, records[e], e.kind) != RecordKey(cfg, records[f], f.kind)
  }

  /** Fused entities keep ids made from their keys. */
  lemma FusedStayKeyed(cfg: Settings, hash: ((string, string)) -> Id, objects: seq<EntityNode>, before: Records, after: Records,
                       found: Matches, stored: map<string, seq<EntityNode>>, known: Records, all: seq<EntityNode>)
    requires forall kind, x :: kind in stored && x in stored[kind] ==> x in known && x in all
    requires FusedOnce(cfg, objects, before, after, found, stored, known)
    requires Keyed(cfg, hash, objects, before) && Keyed(cfg, hash, all, known)
    ensures Keyed(cfg, hash, objects, after)
  {
  }

  /** Two entities end with the same id exactly when they continue the same stored one. */
  lemma FusedIdsMeetIff(cfg: Settings, hash: ((string, string)) -> Id, objects: seq<EntityNode>, before: Records, after: Records,
                        found: Matches, stored: map<string, seq<EntityNode>>, known: Records, all: seq<EntityNode>, e: EntityNode, f: EntityNode)
    requires Injective(hash)
    requires forall kind, x :: kind in stored && x in stored[kind] ==> x in known && x in all
    requires FusedOnce(cfg, objects, before, after, found, stored, known)
    requires Keyed(cfg, hash, objects, before) && Keyed(cfg, hash, all, known)
    requires DistinctRecordKeys(cfg, objects, before)
    requires e in objects && f in objects && e != f
    ensures after[e].id == after[f].id
       <==> found[e].Some? && found[f].Some? && known[found[e].value].id == known[found[f].value].id
  {
  }

  /** When no two entities end with the same id, the result is the incoming entities, and each counts
      its own mentions and those of the stored entity that it continues. */
  lemma MentionsAddUp(cfg: Settings, byIdx: seq<EntityNode>, before: Records, after: Records, found: Matches,
                      stored: map<string, seq<EntityNode>>, known: Records, entities: seq<EntityNode>, byIdx': seq<EntityNode>)
    requires forall kind, x :: kind in stored && x in stored[kind] ==> x in known
    requires FusedOnce(cfg, byIdx, before, after, found, stored, known)
    requires Closed(byIdx, IdsOf(after), ViewsOf(after), entities, byIdx')
    requires forall e, f :: e in byIdx && f in byIdx && e != f ==> after[e].id != after[f].id
    ensures byIdx' == byIdx && forall e :: e in entities <==> e in byIdx
    ensures forall e :: e in entities ==>
                          e.mentionCount == before[e].view.mentionCount
                                            + if found[e].Some? then known[found[e].value].view.mentionCount else 0
  {
    ClosingDistinctIds(byIdx, IdsOf(after), ViewsOf(after), entities, byIdx');
    forall e | e in entities
      ensures e.View() == after[e].view
    {
    }
  }

  /** An entity's own mentions, before it was fused. */
  function Own(before: Records, e: EntityNode): int {
    if e in before then before[e].view.mentionCount else 0
  }

  /** The mentions of the stored entity that it continues, if any. */
  function OfMatch(found: Matches, known: Records, e: EntityNode): int {
    if e in found && found[e].Some? && found[e].value in known then known[found[e].value].view.mentionCount else 0
  }

  /** `o` is another object that ended with the id of `e`. */
  ghost predicate SharesId(after: Records, o: EntityNode, e: EntityNode) {
    o != e && IdIn(IdsOf(after), o) == IdIn(IdsOf(after), e)
  }

  /** For every listing of another object with the id of `e`: its own mentions and its match's. */
  ghost function EveryListing(byIdx: seq<EntityNode>, before: Records, after: Records, found: Matches, known: Records, e: EntityNode): int {
    if byIdx == [] then 0
    else
      var last := byIdx[|byIdx| - 1];
      EveryListing(byIdx[..|byIdx| - 1], before, after, found, known, e)
      + if SharesId(after, last, e) then Own(before, last) + OfMatch(found, known, last) else 0
  }

  /** For every other object with the id of `e`, once: its own mentions. */
  ghost function OwnOnce(byIdx: seq<EntityNode>, before: Records, after: Records, e: EntityNode): int {
    if byIdx == [] then 0
    else
      var last := byIdx[|byIdx| - 1];
      OwnOnce(byIdx[..|byIdx| - 1], before, after, e)
      + if SharesId(after, last, e) && last !in byIdx[..|byIdx| - 1] then Own(before, last) else 0
  }

  lemma {:induction false} ListingsFused(cfg: Settings, objects: seq<EntityNode>, byIdx: seq<EntityNode>, before: Records, after: Records, found: Matches,
                                         stored: map<string, seq<EntityNode>>, known: Records, e: EntityNode)
    requires forall kind, x :: kind in stored && x in stored[kind] ==> x in known
    requires FusedOnce(cfg, byIdx, before, after, found, stored, known)
    requires forall o :: o in objects ==> o in byIdx && o in after
    ensures ListedMentions(objects, IdsOf(after), ViewsOf(after), e) == EveryListing(objects, before, after, found, known, e)
  {
    if objects != [] {
      hide RightMatch;
      ListingsFused(cfg, objects[..|objects| - 1], byIdx, before, after, found, stored, known, e);
      assert objects[|objects| - 1] in objects;
    }
  }

  /** What a survivor counts: its own mentions and its match's, and those of every listing of another
      object with its id. */
  lemma MentionsCounted(cfg: Settings, byIdx: seq<EntityNode>, before: Records, after: Records, found: Matches,
                        stored: map<string, seq<EntityNode>>, known: Records, entities: seq<EntityNode>, byIdx': seq<EntityNode>)
    requires forall kind, x :: kind in stored && x in stored[kind] ==> x in known
    requires FusedOnce(cfg, byIdx, before, after, found, stored, known)
    requires Closed(byIdx, IdsOf(after), ViewsOf(after), entities, byIdx')
    ensures forall e :: e in entities ==>
                          e.mentionCount == Own(before, e) + OfMatch(found, known, e) + EveryListing(byIdx, before, after, found, known, e)
  {
    hide RightMatch;
    forall e | e in entities
      ensures e.mentionCount == Own(before, e) + OfMatch(found, known, e) + EveryListing(byIdx, before, after, found, known, e)
    {
      AbsorbedMentions(byIdx, IdsOf(after), ViewsOf(after), e);
      ListingsFused(cfg, byIdx, byIdx, before, after, found, stored, known, e);
      assert e.View().mentionCount == e.mentionCount;
    }
  }

  /** Every other object with the id of `e` is listed once and continues nothing that was mentioned. */
  ghost predicate CountedOnce(byIdx: seq<EntityNode>, after: Records, found: Matches, known: Records, e: EntityNode) {
    forall i :: 0 <= i < |byIdx| && SharesId(after, byIdx[i], e) ==> OfMatch(found, known, byIdx[i]) == 0 && byIdx[i] !in byIdx[..i]
  }

  lemma CountedOnceSnoc(byIdx: seq<EntityNode>, after: Records, found: Matches, known: Records, e: EntityNode)
    requires byIdx != []
    ensures var early, last := byIdx[..|byIdx| - 1], byIdx[|byIdx| - 1];
            CountedOnce(byIdx, after, found, known, e) <==>
            CountedOnce(early, after, found, known, e) && (SharesId(after, last, e) ==> OfMatch(found, known, last) == 0 && last !in early)
  {
    hide SharesId, OfMatch;
    var early := byIdx[..|byIdx| - 1];
    assert forall i :: 0 <= i < |early| ==> early[..i] == byIdx[..i] && early[i] == byIdx[i];
  }

  lemma {:induction false} ListingsExceed(byIdx: seq<EntityNode>, before: Records, after: Records, found: Matches, known: Records, e: EntityNode)
    requires forall o :: o in byIdx ==> Own(before, o) >= 1 && OfMatch(found, known, o) >= 0
    ensures EveryListing(byIdx, before, after, found, known, e) >= OwnOnce(byIdx, before, after, e)
    ensures EveryListing(byIdx, before, after, found, known, e) == OwnOnce(byIdx, before, after, e) <==> CountedOnce(byIdx, after, found, known, e)
  {
    if byIdx != [] {
      var early, n := byIdx[..|byIdx| - 1], |byIdx| - 1;
      hide SharesId, Own, OfMatch;
      ListingsExceed(early, before, after, found, known, e);
      CountedOnceSnoc(byIdx, after, found, known, e);
      assert byIdx[n] in byIdx;
      hide CountedOnce;
    }
  }

  /** A survivor counts everyone's own mentions once and its stored entity's once exactly when every
      other object with its id is listed once and continues nothing that was mentioned. */
  lemma StoredEntityCountedOnceIff(cfg: Settings, byIdx: seq<EntityNode>, before: Records, after: Records, found: Matches,
                                   stored: map<string, seq<EntityNode>>, known: Records, entities: seq<EntityNode>, byIdx': seq<EntityNode>, e: EntityNode)
    requires forall kind, x :: kind in stored && x in stored[kind] ==> x in known
    requires FusedOnce(cfg, byIdx, before, after, found, stored, known)
    requires Closed(byIdx, IdsOf(after), ViewsOf(after), entities, byIdx') && e in entities
    requires forall o :: o in byIdx ==> Own(before, o) >= 1 && OfMatch(found, known, o) >= 0
    ensures e.mentionCount == Own(before, e) + OfMatch(found, known, e) + OwnOnce(byIdx, before, after, e)
       <==> CountedOnce(byIdx, after, found, known, e)
  {
    MentionsCounted(cfg, byIdx, before, after, found, stored, known, entities, byIdx');
    ListingsExceed(byIdx, before, after, found, known, e);
  }

  /** Matches come from the stored entities, and count what those count. */
  lemma MatchesCount(cfg: Settings, byIdx: seq<EntityNode>, before: Records, after: Records, found: Matches,
                     stored: map<string, seq<EntityNode>>, known: Records, all: seq<EntityNode>)
    requires forall kind, x :: kind in stored && x in stored[kind] ==> x in known && x in all
    requires FusedOnce(cfg, byIdx, before, after, found, stored, known)
    requires forall x :: x in all ==> x in known && known[x].view.mentionCount >= 1
    ensures forall o :: o in byIdx ==> if found[o].Some? then OfMatch(found, known, o) >= 1 else OfMatch(found, known, o) == 0
  {
    forall o | o in byIdx
      ensures if found[o].Some? then OfMatch(found, known, o) >= 1 else OfMatch(found, known, o) == 0
    {
      if found[o].Some? {
        RightMatchListed(cfg, o.kind, before[o], found[o], StoredOf(stored, o.kind), known);
      }
    }
  }

  /** Where every stored count is at least 1 and ids are made from keys, the sum is right exactly when
      nobody else ends with the id. */
  lemma SharedIdMiscounts(cfg: Settings, hash: ((string, string)) -> Id, byIdx: seq<EntityNode>, before: Records, after: Records, found: Matches,
                          stored: map<string, seq<EntityNode>>, known: Records, all: seq<EntityNode>,
                          entities: seq<EntityNode>, byIdx': seq<EntityNode>, e: EntityNode)
    requires Injective(hash) && Keyed(cfg, hash, byIdx, before) && Keyed(cfg, hash, all, known) && DistinctRecordKeys(cfg, byIdx, before)
    requires forall kind, x :: kind in stored && x in stored[kind] ==> x in known && x in all
    requires FusedOnce(cfg, byIdx, before, after, found, stored, known)
    requires Closed(byIdx, IdsOf(after), ViewsOf(after), entities, byIdx') && e in entities
    requires (forall o :: o in byIdx ==> Own(before, o) >= 1) && forall x :: x in all ==> x in known && known[x].view.mentionCount >= 1
    ensures e.mentionCount == Own(before, e) + OfMatch(found, known, e) + OwnOnce(byIdx, before, after, e)
       <==> forall o :: o in byIdx ==> !SharesId(after, o, e)
  {
    MatchesCount(cfg, byIdx, before, after, found, stored, known, all);
    StoredEntityCountedOnceIff(cfg, byIdx, before, after, found, stored, known, entities, byIdx', e);
    assert e in byIdx;
    forall o | o in byIdx && SharesId(after, o, e)
      ensures OfMatch(found, known, o) >= 1
    {
      FusedIdsMeetIff(cfg, hash, byIdx, before, after, found, stored, known, all, o, e);
    }
    hide SharesId, OfMatch, Own, OwnOnce;
    if o :| o in byIdx && SharesId(after, o, e) {
      var i :| 0 <= i < |byIdx| && byIdx[i] == o;
    }
  }

  lemma ListedTwice(a: EntityNode, b: EntityNode, before: Records, after: Records, found: Matches, known: Records)
    requires SharesId(after, b, a)
    ensures EveryListing([a, b, b], before, after, found, known, a) == 2 * (Own(before, b) + OfMatch(found, known, b))
  {
    hide Own, OfMatch;
    assert [a, b, b][..2] == [a, b] && [a, b][..1] == [a] && [a][..0] == [];
    assert EveryListing([], before, after, found, known, a) == 0;
    assert EveryListing([a], before, after, found, known, a) == 0;
    assert EveryListing([a, b], before, after, found, known, a) == Own(before, b) + OfMatch(found, known, b);
  }

  lemma FusedIdsOf(cfg: Settings, byIdx: seq<EntityNode>, before: Records, after: Records, found: Matches,
                   stored: map<string, seq<EntityNode>>, known: Records, a: EntityNode, b: EntityNode)
    requires forall kind, x :: kind in stored && x in stored[kind] ==> x in known
    requires FusedOnce(cfg, byIdx, before, after, found, stored, known)
    requires a in byIdx && b in byIdx && found[a] == found[b] && found[a].Some?
    ensures after[a].id == after[b].id && IdIn(IdsOf(after), a) == IdIn(IdsOf(after), b)
  {
    hide RightMatch;
  }

  lemma FirstListed(idOf: Ids, a: EntityNode, b: EntityNode)
    requires IdIn(idOf, a) == IdIn(idOf, b)
    ensures FirstWith([a, b, b], idOf, IdIn(idOf, a)) == Some(a)
  {
    assert [a, b, b][..2] == [a, b] && [a, b][..1] == [a] && [a][..0] == [];
    assert FirstWith([], idOf, IdIn(idOf, a)) == None;
    assert FirstWith([a], idOf, IdIn(idOf, a)) == Some(a);
    assert FirstWith([a, b], idOf, IdIn(idOf, a)) == Some(a);
  }

  /** Two entities that continue one stored entity, the second under two indices: its mentions count
      twice, and those of the stored entity three times, whatever they are. */
  lemma AliasCountedTwice(cfg: Settings, a: EntityNode, b: EntityNode, before: Records, after: Records, found: Matches,
                          stored: map<string, seq<EntityNode>>, known: Records, entities: seq<EntityNode>, byIdx': seq<EntityNode>, x: EntityNode)
    requires forall kind, y :: kind in stored && y in stored[kind] ==> y in known
    requires a != b && FusedOnce(cfg, [a, b, b], before, after, found, stored, known)
    requires found[a] == found[b] == Some(x)
    requires Closed([a, b, b], IdsOf(after), ViewsOf(after), entities, byIdx')
    ensures a in entities && a.mentionCount == Own(before, a) + 2 * Own(before, b) + 3 * known[x].view.mentionCount
  {
    FusedIdsOf(cfg, [a, b, b], before, after, found, stored, known, a, b);
    MentionsCounted(cfg, [a, b, b], before, after, found, stored, known, entities, byIdx');
    FirstListed(IdsOf(after), a, b);
    hide RightMatch, FusedRecord, Absorbed, FirstWith, EveryListing;
    assert [a, b, b][0] == a && byIdx'[0] == a;
    assert OfMatch(found, known, a) == OfMatch(found, known, b) == known[x].view.mentionCount;
    ListedTwice(a, b, before, after, found, known);
  }

  // ---- resolving the entities of one extraction ----

  ghost predicate KeyedNow(cfg: Settings, hash: ((string, string)) -> Id, objects: seq<EntityNode>)
    reads objects
  {
    forall e :: e in objects ==> e.id == hash(Key(cfg, e))
  }

  /** Every position has an entity of its type, no two entities share an id or a key, and every id is
      made from its key. */
  ghost predicate Resolved(cfg: Settings, hash: ((string, string)) -> Id, batch: seq<EntityNode>, entities: seq<EntityNode>, byIdx: seq<EntityNode>)
    reads entities
  {
    && |byIdx| == |batch|
    && (forall i :: 0 <= i < |batch| ==> byIdx[i] in entities && byIdx[i].kind == batch[i].kind)
    && KeyedNow(cfg, hash, entities)
    && (forall a, b :: 0 <= a < b < |entities| ==> entities[a].id != entities[b].id && Key(cfg, entities[a]) != Key(cfg, entities[b]))
  }

  lemma KeyedShareKeys(cfg: Settings, hash: ((string, string)) -> Id, batch: seq<EntityNode>)
    requires Injective(hash) && KeyedNow(cfg, hash, batch)
    ensures IdsFromKeys(cfg, batch)
  {
  }

  /** No two of the objects share a key. */
  ghost predicate KeysApart(cfg: Settings, objects: seq<EntityNode>)
    reads objects
  {
    forall e, f :: e in objects && f in objects && e != f ==> Key(cfg, e) != Key(cfg, f)
  }

  /** Every entity of the batch was mentioned once. */
  ghost predicate SeenOnce(batch: seq<EntityNode>)
    reads batch
  {
    forall b :: b in batch ==> b.mentionCount == 1
  }

  /** Every entity counts the positions at which it is listed. */
  ghost predicate CountsPlaces(byIdx: seq<EntityNode>)
    reads byIdx
  {
    forall e :: e in byIdx ==> e.mentionCount == multiset(byIdx)[e]
  }

  lemma SurvivorsOf(batch: seq<EntityNode>, keyOf: Keys, initial: seq<Profile>, survivors: seq<EntityNode>, byIdx: seq<EntityNode>)
    requires BatchResult(batch, keyOf, initial, survivors, byIdx)
    ensures |byIdx| == |batch| && (forall e :: e in byIdx ==> e in batch && e in survivors)
    ensures forall i :: 0 <= i < |batch| ==> byIdx[i].kind == batch[i].kind
  {
    hide Summarizes, Distinct, DistinctKeys;
    forall e | e in byIdx
      ensures e in survivors
    {
      var i :| 0 <= i < |byIdx| && byIdx[i] == e;
    }
  }

  lemma KeysDiffer(keyOf: Keys, objects: seq<EntityNode>, e: EntityNode, f: EntityNode)
    requires DistinctKeys(objects, keyOf) && e in objects && f in objects && e != f && e in keyOf && f in keyOf
    ensures keyOf[e] != keyOf[f]
  {
    var i :| 0 <= i < |objects| && objects[i] == e;
    var j :| 0 <= j < |objects| && objects[j] == f;
    assert i < j || j < i;
  }

  lemma SurvivorsApart(cfg: Settings, batch: seq<EntityNode>, keyOf: Keys, initial: seq<Profile>, survivors: seq<EntityNode>, byIdx: seq<EntityNode>)
    requires BatchResult(batch, keyOf, initial, survivors, byIdx)
    requires forall e :: e in batch ==> e in keyOf && keyOf[e] == Key(cfg, e)
    ensures KeysApart(cfg, byIdx)
  {
    SurvivorsOf(batch, keyOf, initial, survivors, byIdx);
    assert DistinctKeys(survivors, keyOf);
    hide Key, BatchResult, DistinctKeys;
    forall e, f | e in byIdx && f in byIdx && e != f
      ensures Key(cfg, e) != Key(cfg, f)
    {
      KeysDiffer(keyOf, survivors, e, f);
    }
  }

  lemma SurvivorsCount(batch: seq<EntityNode>, keyOf: Keys, initial: seq<Profile>, survivors: seq<EntityNode>, byIdx: seq<EntityNode>)
    requires BatchResult(batch, keyOf, initial, survivors, byIdx)
    requires forall i :: 0 <= i < |initial| ==> initial[i].mentionCount == 1
    ensures CountsPlaces(byIdx)
  {
    SurvivorsOf(batch, keyOf, initial, survivors, byIdx);
    hide Covered, SomeMemberShares, Distinct, DistinctKeys;
    forall e | e in byIdx
      ensures e.mentionCount == multiset(byIdx)[e]
    {
      assert e.View().mentionCount == Mentions(byIdx, initial, e);
      MentionedOnceEach(byIdx, initial, e);
    }
  }

  /** The model agrees to nothing. */
  ghost predicate NeverAgrees(cfg: Settings, answers: nat -> Decision) {
    forall n: nat :: !Agreed(cfg, answers(n))
  }

  lemma KeyedKeepIds(cfg: Settings, hash: ((string, string)) -> Id, batch: seq<EntityNode>, keyOf: Keys, byIdx: seq<EntityNode>,
                     redirects: map<Id, Id>, answers: nat -> Decision, used: nat)
    requires NeverAgrees(cfg, answers) && |byIdx| == |batch|
    requires NoneAgreed(cfg, answers, 0, used) ==> ByKeyAlone(batch, keyOf, byIdx, redirects)
    requires forall e :: e in batch ==> e in keyOf && keyOf[e] == Key(cfg, e)
    requires KeyedNow(cfg, hash, batch) && forall e :: e in byIdx ==> e in batch
    ensures forall i :: 0 <= i < |batch| ==> byIdx[i].id == batch[i].id
  {
    assert NoneAgreed(cfg, answers, 0, used);
    hide Agreed, NoneAgreed, Key;
    forall i | 0 <= i < |batch|
      ensures byIdx[i].id == batch[i].id
    {
      assert byIdx[i] in byIdx && batch[i] in batch;
      assert SameKey(keyOf, batch[i], byIdx[i]);
    }
  }

  lemma OnceAtFirst(batch: seq<EntityNode>)
    ensures SeenOnce(batch) ==> forall i :: 0 <= i < |batch| ==> Profiles(batch)[i].mentionCount == 1
  {
  }

  ghost predicate HashesOf(hash: ((string, string)) -> Id, objects: seq<EntityNode>, ids: Ids, keys: Keys) {
    forall e :: e in objects ==> e in ids && e in keys && ids[e] == hash(keys[e])
  }

  lemma KeyedHashes(cfg: Settings, hash: ((string, string)) -> Id, objects: seq<EntityNode>) returns (ids: Ids, keys: Keys)
    requires KeyedNow(cfg, hash, objects)
    ensures HashesOf(hash, objects, ids, keys)
    ensures forall e :: e in objects ==> e in ids && e in keys && e.id == ids[e] && Key(cfg, e) == keys[e]
  {
    ids, keys := map e | e in objects :: e.id, map e | e in objects :: Key(cfg, e);
  }

  lemma KeyedAgain(cfg: Settings, hash: ((string, string)) -> Id, objects: seq<EntityNode>, ids: Ids, keys: Keys, byIdx: seq<EntityNode>)
    requires HashesOf(hash, objects, ids, keys) && forall e :: e in byIdx ==> e in objects
    requires forall e :: e in objects ==> e in ids && e in keys && e.id == ids[e] && Key(cfg, e) == keys[e]
    ensures KeyedNow(cfg, hash, objects) && KeyedNow(cfg, hash, byIdx)
  {
    hide Key;
  }

  /** Deduplicating a batch keeps ids made from keys, and types; where each entity was mentioned once, a
      survivor counts the positions that it represents. */
  method DedupKeyed(cfg: Settings, ghost hash: ((string, string)) -> Id, indices: seq<int>, batch: seq<EntityNode>, answers: nat -> Decision,
                    ghost others: seq<EntityNode>, ghost known: Records)
    returns (byIdx: seq<EntityNode>)
    requires Injective(hash)
    requires Live(others, known) && forall x :: x in others ==> x !in batch
    requires |indices| == |batch| && Distinct(batch) && KeyedNow(cfg, hash, batch)
    modifies batch
    ensures |byIdx| == |batch| && (forall e :: e in byIdx ==> e in batch)
    ensures forall i :: 0 <= i < |batch| ==> byIdx[i].kind == batch[i].kind
    ensures KeyedNow(cfg, hash, byIdx) && Live(others, known)
    ensures KeysApart(cfg, byIdx)
    ensures NeverAgrees(cfg, answers) ==> forall i :: 0 <= i < |batch| ==> byIdx[i].id == old(batch[i].id)
    ensures old(SeenOnce(batch)) ==> CountsPlaces(byIdx)
  {
    hide Distinct, BatchResult, RedirectsResolve, ByKeyAlone, KeysApart, SameKey, KeysUpTo, Agreements, NoneAgreed, Key, Injective, NeverAgrees,
         Agreed, IdsFromKeys, SeenOnce, CountsPlaces, KeyedNow, HashesOf, Profiles, NoneRedirected, OneGroupPerId, IdList, OthersShareByAnswer,
         KeysCovered, RecordKey;
    KeyedShareKeys(cfg, hash, batch);
    OnceAtFirst(batch);
    ghost var once := SeenOnce(batch);
    ghost var ids, keys := KeyedHashes(cfg, hash, batch);
    var survivors, redirects;
    ghost var keyOf, initial, used;
    survivors, byIdx, redirects, keyOf, initial, used := DedupBatch(cfg, indices, batch, answers);
    SurvivorsOf(batch, keyOf, initial, survivors, byIdx);
    SurvivorsApart(cfg, batch, keyOf, initial, survivors, byIdx);
    KeyedAgain(cfg, hash, batch, ids, keys, byIdx);
    if once {
      SurvivorsCount(batch, keyOf, initial, survivors, byIdx);
    }
    if NeverAgrees(cfg, answers) {
      KeyedKeepIds(cfg, hash, batch, keyOf, byIdx, redirects, answers, used);
    }
  }

  lemma KeyedSnapshot(cfg: Settings, hash: ((string, string)) -> Id, objects: seq<EntityNode>, records: Records)
    requires Live(objects, records) && KeyedNow(cfg, hash, objects)
    ensures Keyed(cfg, hash, objects, records)
  {
  }

  lemma SameIdSameKind(cfg: Settings, hash: ((string, string)) -> Id, objects: seq<EntityNode>, records: Records, e: EntityNode, f: EntityNode)
    requires Injective(hash) && Keyed(cfg, hash, objects, records)
    requires e in objects && f in objects && records[e].id == records[f].id
    ensures e.kind == f.kind
  {
  }

  lemma ResolvedAfter(cfg: Settings, hash: ((string, string)) -> Id, batch: seq<EntityNode>, byIdx0: seq<EntityNode>, after: Records,
                      entities: seq<EntityNode>, byIdx: seq<EntityNode>)
    requires Injective(hash) && Keyed(cfg, hash, byIdx0, after)
    requires |byIdx0| == |batch| && forall i :: 0 <= i < |batch| ==> byIdx0[i].kind == batch[i].kind
    requires forall e :: e in byIdx0 ==> e in after && e.id == after[e].id && e.name == after[e].name
    requires Closed(byIdx0, IdsOf(after), ViewsOf(after), entities, byIdx)
    ensures Resolved(cfg, hash, batch, entities, byIdx)
  {
    ClosedIdsDistinct(byIdx0, IdsOf(after), ViewsOf(after), entities, byIdx);
    forall i | 0 <= i < |batch|
      ensures byIdx[i].kind == batch[i].kind
    {
      assert byIdx0[i] in byIdx0;
      FirstWithId(byIdx0, IdsOf(after), IdIn(IdsOf(after), byIdx0[i]));
      SameIdSameKind(cfg, hash, byIdx0, after, byIdx0[i], byIdx[i]);
    }
    hide FirstWith, Absorbed, Injective;
    forall e | e in entities
      ensures e.id == hash(Key(cfg, e))
    {
    }
    forall a, b | 0 <= a < b < |entities|
      ensures Key(cfg, entities[a]) != Key(cfg, entities[b])
    {
      assert entities[a] in entities && entities[b] in entities;
    }
  }

  /** No two of the objects ended with one id. */
  ghost predicate NobodyMeets(group: seq<EntityNode>)
    reads group
  {
    forall e, f :: e in group && f in group && e != f ==> e.id != f.id
  }

  /** Every stored object is listed under its type, and no two share an id. */
  ghost predicate AllListed(stored: map<string, seq<EntityNode>>, all: seq<EntityNode>, known: Records) {
    && (forall kind, x :: kind in stored && x in stored[kind] ==> x in all && x in known)
    && (forall x :: x in all ==> x in known && x in StoredOf(stored, x.kind))
    && (forall x, y :: x in all && y in all && known[x].id == known[y].id ==> x == y)
  }

  /** The same of live objects. */
  ghost predicate ListedOnce(stored: map<string, seq<EntityNode>>, all: seq<EntityNode>)
    reads all
  {
    && (forall kind, x :: kind in stored && x in stored[kind] ==> x in all)
    && (forall x :: x in all ==> x in StoredOf(stored, x.kind))
    && (forall x, y :: x in all && y in all && x.id == y.id ==> x == y)
  }

  /** `e` counts `own` mentions on top of those of the stored entity with its id, if there is one. */
  ghost predicate OnTop(all: seq<EntityNode>, e: EntityNode, own: int)
    reads e, all
  {
    && (forall x :: x in all && x.id == e.id ==> e.mentionCount == own + x.mentionCount)
    && ((forall x :: x in all ==> x.id != e.id) ==> e.mentionCount == own)
  }

  /** Records that agree in their keys have hashed ids that agree, and the other way round. */
  lemma IdsAreKeys(cfg: Settings, hash: ((string, string)) -> Id, a: Record, aKind: string, b: Record, bKind: string)
    requires Injective(hash) && a.id == hash(RecordKey(cfg, a, aKind)) && b.id == hash(RecordKey(cfg, b, bKind))
    ensures a.id == b.id <==> RecordKey(cfg, a, aKind) == RecordKey(cfg, b, bKind)
  {
  }

  /** An entity that is matched with a stored one has its id afterwards; one that is not has an id that
      no stored entity has. */
  lemma MatchHasTheId(cfg: Settings, hash: ((string, string)) -> Id, objects: seq<EntityNode>, before: Records, after: Records, found: Matches,
                      stored: map<string, seq<EntityNode>>, known: Records, all: seq<EntityNode>, e: EntityNode, x: EntityNode)
    requires Injective(hash) && Keyed(cfg, hash, objects, before) && Keyed(cfg, hash, all, known)
    requires Live(all, known) && AllListed(stored, all, known) && (forall kind, y :: kind in stored && y in stored[kind] ==> y in known)
    requires FusedOnce(cfg, objects, before, after, found, stored, known) && e in objects && x in all
    ensures e in after && e in found
    ensures after[e].id == x.id <==> found[e] == Some(x)
  {
    assert known[x].id == x.id && x in StoredOf(stored, x.kind);
    if found[e].Some? {
      RightMatchListed(cfg, e.kind, before[e], found[e], StoredOf(stored, e.kind), known);
      assert after[e].id == known[found[e].value].id == found[e].value.id;
    } else {
      IdsAreKeys(cfg, hash, before[e], e.kind, known[x], x.kind);
    }
  }

  /** Representatives that each count their positions, and of which no two end with one id, count on top
      of the stored entity with their id. */
  lemma CountsOnTop(cfg: Settings, hash: ((string, string)) -> Id, group: seq<EntityNode>, before: Records, after: Records, found: Matches,
                    stored: map<string, seq<EntityNode>>, known: Records, all: seq<EntityNode>, entities: seq<EntityNode>, byIdx: seq<EntityNode>)
    requires Injective(hash) && Keyed(cfg, hash, group, before) && Keyed(cfg, hash, all, known)
    requires Live(all, known) && AllListed(stored, all, known) && (forall kind, y :: kind in stored && y in stored[kind] ==> y in known)
    requires FusedOnce(cfg, group, before, after, found, stored, known)
    requires Closed(group, IdsOf(after), ViewsOf(after), entities, byIdx)
    requires (forall e :: e in group ==> e in after && e.id == after[e].id) && NobodyMeets(group)
    requires forall e :: e in group ==> before[e].view.mentionCount == multiset(group)[e]
    ensures byIdx == group && forall e :: e in group ==> OnTop(all, e, multiset(group)[e])
  {
    hide RightMatch, Closed, Injective, RecordKey;
    forall e, f | e in group && f in group && e != f
      ensures after[e].id != after[f].id
    {
      assert e.id != f.id;
    }
    MentionsAddUp(cfg, group, before, after, found, stored, known, entities, byIdx);
    forall e | e in group
      ensures OnTop(all, e, multiset(group)[e])
    {
      forall x | x in all
        ensures e.id == x.id <==> found[e] == Some(x)
      {
        MatchHasTheId(cfg, hash, group, before, after, found, stored, known, all, e, x);
      }
      if found[e].Some? {
        RightMatchListed(cfg, e.kind, before[e], found[e], StoredOf(stored, e.kind), known);
      }
    }
  }

  /** Entities with different keys that continue stored ones with their own keys do not meet. */
  lemma KeysStayApart(cfg: Settings, hash: ((string, string)) -> Id, group: seq<EntityNode>, before: Records, after: Records, found: Matches,
                      stored: map<string, seq<EntityNode>>, known: Records)
    requires Injective(hash) && Keyed(cfg, hash, group, before) && Keyed(cfg, hash, group, after) && DistinctRecordKeys(cfg, group, before)
    requires forall kind, y :: kind in stored && y in stored[kind] ==> y in known
    requires FusedOnce(cfg, group, before, after, found, stored, known)
    requires forall e :: e in group ==> !MatchedByAnswer(cfg, e, before, found, known)
    requires forall e :: e in group ==> e in after && e.id == after[e].id
    ensures NobodyMeets(group) && forall e :: e in group ==> e in before && after[e].id == before[e].id
  {
    forall e | e in group
      ensures RecordKey(cfg, after[e], e.kind) == RecordKey(cfg, before[e], e.kind)
    {
    }
    hide RightMatch, FusedOnce, MatchedByAnswer, RecordKey;
    forall e, f | e in group && f in group && e != f
      ensures e.id != f.id
    {
      IdsAreKeys(cfg, hash, after[e], e.kind, after[f], f.kind);
    }
  }

  lemma SnapshotKeysApart(cfg: Settings, objects: seq<EntityNode>, records: Records)
    requires Live(objects, records) && KeysApart(cfg, objects)
    ensures DistinctRecordKeys(cfg, objects, records)
  {
  }

  lemma SnapshotCounts(objects: seq<EntityNode>, records: Records)
    requires Live(objects, records)
    ensures forall e :: e in objects ==> e in records && records[e].view.mentionCount == e.mentionCount && records[e].id == e.id
  {
  }

  lemma NobodyAgrees(cfg: Settings, answers: nat -> Decision)
    requires NeverAgrees(cfg, answers)
    ensures forall n: nat :: !(answers(n).sameEntity && answers(n).confidence >= cfg.mergeConfidence)
  {
    forall n: nat
      ensures !(answers(n).sameEntity && answers(n).confidence >= cfg.mergeConfidence)
    {
      assert !Agreed(cfg, answers(n));
    }
  }

  lemma ClosedKeepsIds(group: seq<EntityNode>, after: Records, entities: seq<EntityNode>, byIdx: seq<EntityNode>)
    requires (forall e :: e in group ==> e in after && e.id == after[e].id) && Closed(group, IdsOf(after), ViewsOf(after), entities, byIdx)
    ensures |byIdx| == |group| && forall i :: 0 <= i < |group| ==> byIdx[i].id == group[i].id
  {
    forall i | 0 <= i < |group|
      ensures byIdx[i].id == group[i].id
    {
      assert group[i] in group;
      FirstWithId(group, IdsOf(after), IdIn(IdsOf(after), group[i]));
    }
  }

  lemma GroupsAfterwards(cfg: Settings, hash: ((string, string)) -> Id, group: seq<EntityNode>, before: Records, after: Records, found: Matches,
                         stored: map<string, seq<EntityNode>>, known: Records, all: seq<EntityNode>, entities: seq<EntityNode>,
                         byIdx: seq<EntityNode>, answers: nat -> Decision, used: nat, decidedBy: map<EntityNode, nat>, once: bool)
    requires Injective(hash) && Keyed(cfg, hash, group, before) && Keyed(cfg, hash, group, after) && Keyed(cfg, hash, all, known)
    requires Live(all, known) && AllListed(stored, all, known) && (forall kind, y :: kind in stored && y in stored[kind] ==> y in known)
    requires DistinctRecordKeys(cfg, group, before)
    requires FusedOnce(cfg, group, before, after, found, stored, known)
    requires Explained(cfg, group, before, found, known, answers, used, decidedBy)
    requires Closed(group, IdsOf(after), ViewsOf(after), entities, byIdx)
    requires forall e :: e in group ==> e in after && e.id == after[e].id
    requires once ==> forall e :: e in group ==> e in before && before[e].view.mentionCount == multiset(group)[e]
    ensures once && NobodyMeets(group) ==> byIdx == group && forall e :: e in group ==> OnTop(all, e, multiset(group)[e])
    ensures NeverAgrees(cfg, answers) ==> NobodyMeets(group) && forall e :: e in group ==> e in before && after[e].id == before[e].id
    ensures |byIdx| == |group| && forall i :: 0 <= i < |group| ==> byIdx[i].id == group[i].id
  {
    ClosedKeepsIds(group, after, entities, byIdx);
    hide *;
    if once && NobodyMeets(group) {
      CountsOnTop(cfg, hash, group, before, after, found, stored, known, all, entities, byIdx);
    }
    if NeverAgrees(cfg, answers) {
      NobodyAgrees(cfg, answers);
      NobodyMatchedByAnswer(cfg, group, before, found, known, answers, used, decidedBy);
      KeysStayApart(cfg, hash, group, before, after, found, stored, known);
    }
  }

  lemma StoredAreKnown(stored: map<string, seq<EntityNode>>, all: seq<EntityNode>, known: Records)
    requires ListedOnce(stored, all) && Live(all, known)
    ensures AllListed(stored, all, known) && forall kind, x :: kind in stored && x in stored[kind] ==> x in all && x in known
  {
  }

  /** Fuses the representatives of a batch with the stored entities. */
  method FuseKeyed(cfg: Settings, ghost hash: ((string, string)) -> Id, ghost batch: seq<EntityNode>, group: seq<EntityNode>,
                   stored: map<string, seq<EntityNode>>, answers: nat -> Decision, ghost all: seq<EntityNode>, ghost known: Records, ghost once: bool)
    returns (entities: seq<EntityNode>, byIdx: seq<EntityNode>)
    requires Injective(hash) && KeyedNow(cfg, hash, group) && KeysApart(cfg, group)
    requires |group| == |batch| && (forall e :: e in group ==> e in batch) && forall i :: 0 <= i < |batch| ==> group[i].kind == batch[i].kind
    requires (forall x :: x in all ==> x !in batch) && Live(all, known) && Keyed(cfg, hash, all, known)
    requires AllListed(stored, all, known) && forall kind, x :: kind in stored && x in stored[kind] ==> x in all && x in known
    requires once ==> CountsPlaces(group)
    modifies batch
    ensures Resolved(cfg, hash, batch, entities, byIdx) && |byIdx| == |group|
    ensures once && NobodyMeets(group) ==> byIdx == group && forall e :: e in group ==> OnTop(all, e, multiset(group)[e])
    ensures NeverAgrees(cfg, answers) ==> NobodyMeets(group) && forall e :: e in group ==> e.id == old(e.id)
    ensures forall i :: 0 <= i < |group| ==> byIdx[i].id == group[i].id
  {
    hide FusedOnce, Explained, Closed, Keyed, KeyedNow, Resolved, RedirectsChanges, Injective, KeysApart, DistinctRecordKeys, NobodyMeets, OnTop,
         AllListed, Agreed, MatchedByAnswer, RecordOf, IdsOf, ViewsOf, EntityNode.View;
    ghost var before := Snapshot(group);
    KeyedSnapshot(cfg, hash, group, before);
    SnapshotKeysApart(cfg, group, before);
    SnapshotCounts(group, before);
    assert once ==> forall e :: e in group ==> e in before && before[e].view.mentionCount == multiset(group)[e];
    ghost var after, found, used, decidedBy;
    var redirects;
    entities, byIdx, redirects, after, found, used, decidedBy := MergeWithGraph(cfg, group, stored, answers, before, all, known, batch);
    FusedStayKeyed(cfg, hash, group, before, after, found, stored, known, all);
    ResolvedAfter(cfg, hash, batch, group, after, entities, byIdx);
    GroupsAfterwards(cfg, hash, group, before, after, found, stored, known, all, entities, byIdx, answers, used, decidedBy, once);
  }

  /** Deduplicates a batch and fuses it with the stored entities, whatever the model answers. `group` are
      the representatives after the batch. Where every entity of the batch was mentioned once and no two
      representatives end with one id, each counts its positions on top of the stored entity with its
      id; and no two do if no answer about stored entities agrees. */
  method BuildEntities(cfg: Settings, ghost hash: ((string, string)) -> Id, indices: seq<int>, batch: seq<EntityNode>,
                       stored: map<string, seq<EntityNode>>, batchAnswers: nat -> Decision, graphAnswers: nat -> Decision,
                       ghost all: seq<EntityNode>)
    returns (entities: seq<EntityNode>, byIdx: seq<EntityNode>, ghost group: seq<EntityNode>)
    requires Injective(hash)
    requires |indices| == |batch| && Distinct(batch) && KeyedNow(cfg, hash, batch)
    requires (forall x :: x in all ==> x !in batch) && KeyedNow(cfg, hash, all)
    requires ListedOnce(stored, all)
    modifies batch
    ensures Resolved(cfg, hash, batch, entities, byIdx)
    ensures |group| == |byIdx| == |batch| && forall e :: e in group ==> e in batch
    ensures old(SeenOnce(batch)) && NobodyMeets(group) ==>
              byIdx == group && forall e :: e in group ==> OnTop(all, e, multiset(group)[e])
    ensures NeverAgrees(cfg, graphAnswers) ==> NobodyMeets(group)
    ensures forall i :: 0 <= i < |group| ==> byIdx[i].id == group[i].id
    ensures NeverAgrees(cfg, batchAnswers) && NeverAgrees(cfg, graphAnswers) ==> forall i :: 0 <= i < |batch| ==> byIdx[i].id == old(batch[i].id)
  {
    hide *;
    ghost var known := Snapshot(all);
    KeyedSnapshot(cfg, hash, all, known);
    StoredAreKnown(stored, all, known);
    ghost var once := SeenOnce(batch);
    var byIdx0 := DedupKeyed(cfg, hash, indices, batch, batchAnswers, all, known);
    group := byIdx0;
    entities, byIdx := FuseKeyed(cfg, hash, batch, byIdx0, stored, graphAnswers, all, known, once);
  }

  // ---- without a deduplicator ----

  method ContinueExisting(entity: EntityNode, existing: EntityNode)
    requires entity != existing
    modifies entity
    ensures entity.View() == Continued(old(entity.View()), existing.View())
    ensures entity.id == existing.id && entity.name == old(entity.name)
  {
    hide MaxReal;
    var incoming := entity.description;
    entity.id := existing.id;
    entity.mentionCount := existing.mentionCount + 1;
    entity.accessCount, entity.lastAccessAt, entity.memoryLayer := existing.accessCount, existing.lastAccessAt, existing.memoryLayer;
    entity.coreFacts, entity.traits := existing.coreFacts, existing.traits;
    entity.importance := MaxReal(entity.importance, existing.importance);
    entity.confidence := MaxReal(entity.confidence, existing.confidence);
    if |existing.description| > |incoming| {
      entity.description := existing.description;
    }
  }

  /** What continuing makes of an entity: it keeps its own name. */
  function ContinuedRecord(r: Record, stored: Record): Record {
    Record(stored.id, r.name, Continued(r.view, stored.view))
  }

  ghost predicate ContinuedAt(cfg: Settings, kind: string, before: Record, after: Record, stored: seq<EntityNode>, known: Records, i: nat)
    requires forall x :: x in stored ==> x in known
  {
    && i < |stored| && stored[i] in stored
    && RecordKey(cfg, known[stored[i]], stored[i].kind) == RecordKey(cfg, before, kind)
    && after == ContinuedRecord(before, known[stored[i]])
    && forall j :: 0 <= j < i ==> stored[j] in stored && RecordKey(cfg, known[stored[j]], stored[j].kind) != RecordKey(cfg, before, kind)
  }

  /** `after` continues the first stored entity with the same key, if there is one. */
  ghost predicate ContinuedFirst(cfg: Settings, kind: string, before: Record, after: Record, stored: seq<EntityNode>, known: Records)
    requires forall x :: x in stored ==> x in known
  {
    || (after == before && forall x :: x in stored ==> RecordKey(cfg, known[x], x.kind) != RecordKey(cfg, before, kind))
    || exists i :: 0 <= i < |stored| && ContinuedAt(cfg, kind, before, after, stored, known, i)
  }

  method ContinueOne(cfg: Settings, entity: EntityNode, stored: seq<EntityNode>, ghost objects: seq<EntityNode>, ghost now: Records,
                     ghost all: seq<EntityNode>, ghost known: Records)
    returns (ghost now': Records)
    requires entity in objects && Live(objects, now)
    requires Live(all, known) && entity !in all && forall x :: x in stored ==> x in all && x in known
    modifies entity
    ensures entity in now' && now' == now[entity := now'[entity]]
    ensures ContinuedFirst(cfg, entity.kind, now[entity], now'[entity], stored, known)
    ensures Live(objects, now') && Live(all, known)
  {
    hide Continued;
    now' := now;
    assert Live(stored, known);
    var exact := FindExact(cfg, entity, stored);
    if exact.Some? {
      var existing := stored[exact.value];
      assert existing in stored;
      now' := now[entity := Record(existing.id, now[entity].name, Continued(now[entity].view, known[existing].view))];
      assert ContinuedAt(cfg, entity.kind, now[entity], now'[entity], stored, known, exact.value);
      hide ContinuedFirst, ContinuedAt;
      ContinueExisting(entity, existing);
    } else {
      assert now[entity := now[entity]] == now;
    }
  }

  ghost predicate AllContinued(cfg: Settings, entities: seq<EntityNode>, before: Records, after: Records,
                               stored: map<string, seq<EntityNode>>, known: Records)
    requires forall kind, x :: kind in stored && x in stored[kind] ==> x in known
  {
    forall e :: e in entities ==>
                  && e in before && e in after
                  && ContinuedFirst(cfg, e.kind, before[e], after[e], StoredOf(stored, e.kind), known)
  }

  lemma ContinuedNext(cfg: Settings, entities: seq<EntityNode>, k: nat, before: Records, was: Records, after: Records,
                      stored: map<string, seq<EntityNode>>, known: Records)
    requires forall kind, x :: kind in stored && x in stored[kind] ==> x in known
    requires k < |entities| && Distinct(entities) && AllContinued(cfg, entities[..k], before, was, stored, known)
    requires entities[k] in before && entities[k] in was && was[entities[k]] == before[entities[k]]
    requires entities[k] in after && after == was[entities[k] := after[entities[k]]]
    requires ContinuedFirst(cfg, entities[k].kind, was[entities[k]], after[entities[k]], StoredOf(stored, entities[k].kind), known)
    ensures AllContinued(cfg, entities[..k + 1], before, after, stored, known)
    ensures forall j :: k < j < |entities| && entities[j] in was ==> entities[j] in after && after[entities[j]] == was[entities[j]]
  {
    hide ContinuedFirst;
    assert entities[..k + 1] == entities[..k] + [entities[k]];
    assert entities[k] !in entities[..k];
  }

  /** Every entity continues the first stored one with its key. */
  method MergeEntitiesWithGraph(cfg: Settings, entities: seq<EntityNode>, stored: map<string, seq<EntityNode>>,
                                ghost before: Records, ghost all: seq<EntityNode>, ghost known: Records)
    returns (ghost after: Records)
    requires Distinct(entities) && Live(entities, before) && Live(all, known)
    requires forall x :: x in all ==> x !in entities
    requires forall kind, x :: kind in stored && x in stored[kind] ==> x in all && x in known
    modifies entities
    ensures Live(entities, after)
    ensures AllContinued(cfg, entities, before, after, stored, known)
  {
    after := before;
    for k := 0 to |entities|
      invariant Live(entities, after) && Live(all, known)
      invariant forall j :: k <= j < |entities| ==> entities[j] in after && entities[j] in before && after[entities[j]] == before[entities[j]]
      invariant AllContinued(cfg, entities[..k], before, after, stored, known)
    {
      hide Live, ContinuedFirst;
      assert entities[k] in entities;
      ghost var was := after;
      after := ContinueOne(cfg, entities[k], StoredOf(stored, entities[k].kind), entities, after, all, known);
      ContinuedNext(cfg, entities, k, before, was, after, stored, known);
      hide Distinct, AllContinued;
    }
    assert entities[..|entities|] == entities;
  }

  /** Makes the embedding of an entity from its name, type and description, if it is missing. */
  function Filled(embed: (string, string, string) -> Vector, kind: string, r: Record): Record {
    if r.view.embedding == [] then Record(r.id, r.name, r.view.(embedding := embed(r.name, kind, r.view.description))) else r
  }

  /** With a deduplicator an entity is embedded, then fused; what is still missing is filled in. */
  function ByFusing(embed: (string, string, string) -> Vector, kind: string, r: Record, stored: Record): Record {
    Filled(embed, kind, FusedRecord(Filled(embed, kind, r), stored))
  }

  /** Without one it continues the stored entity, and is embedded after that. */
  function ByContinuing(embed: (string, string, string) -> Vector, kind: string, r: Record, stored: Record): Record {
    Filled(embed, kind, ContinuedRecord(r, stored))
  }

  /** Both paths hand the same entity to the store exactly when it is written as the stored one,
      descriptions of one length are equal, the stored lists are clean, and the embedding that is kept
      is that of the longer description: the stored one, or else that of the extracted description, if
      there is any. */
  lemma TwoPathsAgreeIff(embed: (string, string, string) -> Vector, kind: string, r: Record, stored: Record)
    requires Raw(r.view) && r.view.embedding == []
    ensures var text := Continued(r.view, stored.view).description;
            (ByFusing(embed, kind, r, stored) == ByContinuing(embed, kind, r, stored)) <==>
            (&& r.name == stored.name
             && (|r.view.description| == |stored.view.description| ==> r.view.description == stored.view.description)
             && Clean(stored.view.coreFacts) && Clean(stored.view.traits)
             && (if stored.view.embedding != [] then stored.view.embedding == embed(r.name, kind, text)
                 else embed(r.name, kind, r.view.description) in {[], embed(r.name, kind, text)}))
  {
    JoinedWithNothing(stored.view.coreFacts);
    JoinedWithNothing(stored.view.traits);
    hide MergeUniqueStrings, Clean, MaxReal;
    var text := Continued(r.view, stored.view).description;
    var first := embed(r.name, kind, r.view.description);
    var fused, continued := ByFusing(embed, kind, r, stored), ByContinuing(embed, kind, r, stored);
    assert continued.view.embedding == embed(r.name, kind, text) && continued.name == r.name;
    assert fused.name == stored.name;
    assert fused.view.embedding == if stored.view.embedding != [] then stored.view.embedding
                                   else if first != [] then first else embed(stored.name, kind, fused.view.description);
  }

  /** A longer stored description, and no stored embedding: one path embeds the extracted description,
      the other the stored one. */
  lemma TwoPathsEmbedApart(embed: (string, string, string) -> Vector, kind: string, r: Record, stored: Record)
    requires Raw(r.view) && r.view.embedding == [] && stored.view.embedding == []
    requires r.view.description == "x" && stored.view.description == "xy"
    requires embed(r.name, kind, "x") != [] && embed(r.name, kind, "x") != embed(r.name, kind, "xy")
    ensures ByFusing(embed, kind, r, stored) != ByContinuing(embed, kind, r, stored)
  {
    TwoPathsAgreeIff(embed, kind, r, stored);
  }

  /** Continuing never changes an id that is made from its key. */
  lemma ContinuingKeepsIds(cfg: Settings, hash: ((string, string)) -> Id, entities: seq<EntityNode>, before: Records, after: Records,
                           stored: map<string, seq<EntityNode>>, known: Records, all: seq<EntityNode>)
    requires forall kind, x :: kind in stored && x in stored[kind] ==> x in known && x in all
    requires AllContinued(cfg, entities, before, after, stored, known)
    requires Keyed(cfg, hash, entities, before) && Keyed(cfg, hash, all, known)
    ensures forall e :: e in entities ==> e in before && e in after && after[e].id == before[e].id && after[e].name == before[e].name
  {
  }
}
