// Merging stored entities that share a lower-case name and a type. Group after group is moved to a
// keeper; the outcome is one simultaneous quotient of the graph.

module DuplicateMerge {
  import opened Options
  import opened MemoryValues
  import opened EntityProfiles

  /** A stored entity; optional properties may be missing. */
  datatype Node = Node(
    name: string, kind: string, description: Option<string>, memoryLayer: Option<string>, createdAt: Option<Time>,
    mentionCount: Option<int>, accessCount: Option<int>, importance: Option<real>, confidence: Option<real>, embedding: seq<real>,
    coreFacts: seq<string>, traits: seq<string>,
    communityId: Option<Id>)

  datatype Mention = Mention(statement: Id, id: Option<Id>, entity: Id)

  /** An event involves an entity; the edge carries a role. */
  datatype Involvement = Involvement(event: Id, id: Option<Id>, entity: Id)

  datatype Relation = Relation(
    name: string, evidence: string, statementId: Id, importance: Option<real>, confidence: Option<real>, validAt: Option<Time>,
    invalidAt: Option<Time>, accessCount: Option<int>, lastAccessAt: Option<Time>, memoryLayer: Option<string>)

  datatype Graph = Graph(
    entities: map<Id, Node>, mentions: set<Mention>, relations: map<RelationKey, Relation>, inCommunity: set<(Id, Id)>,
    involves: map<Involvement, Option<string>>)

  // ---- the quotient ----

  /** Who stands for an entity: itself, unless it is a duplicate. */
  function Rep(rep: map<Id, Id>, id: Id): Id {
    if id in rep then rep[id] else id
  }

  /** A mention of a duplicate becomes one of its keeper, and gets an id if it had none. */
  function MovedMention(rep: map<Id, Id>, m: Mention): Mention {
    var keeper := Rep(rep, m.entity);
    if keeper == m.entity then m
    else Mention(m.statement, Some(if m.id.Some? then m.id.value else m.statement + ":" + keeper), keeper)
  }

  function MovedInvolvement(rep: map<Id, Id>, v: Involvement): Involvement {
    var keeper := Rep(rep, v.entity);
    if keeper == v.entity then v
    else Involvement(v.event, Some(if v.id.Some? then v.id.value else v.event + ":" + keeper), keeper)
  }

  function MovedKey(rep: map<Id, Id>, key: RelationKey): RelationKey {
    RelationKey(Rep(rep, key.source), key.id, Rep(rep, key.target))
  }

  /** A relation survives between two classes, and inside one only as a loop on the keeper. */
  predicate Survives(rep: map<Id, Id>, key: RelationKey) {
    Rep(rep, key.source) != Rep(rep, key.target) || (key.source == key.target == Rep(rep, key.source))
  }

  /** Properties of a moved relation: missing ones are filled in. */
  function Moved(r: Relation): Relation {
    r.(importance := Some(if r.importance.Some? then r.importance.value else 0.5),
       confidence := Some(if r.confidence.Some? then r.confidence.value else 0.8),
       accessCount := Some(if r.accessCount.Some? then r.accessCount.value else 0),
       memoryLayer := Some(if r.memoryLayer.Some? then r.memoryLayer.value else "short_term"))
  }

  function MentionsQuotient(rep: map<Id, Id>, mentions: set<Mention>): set<Mention> {
    set m | m in mentions :: MovedMention(rep, m)
  }

  function CommunityQuotient(rep: map<Id, Id>, inCommunity: set<(Id, Id)>): set<(Id, Id)> {
    set p | p in inCommunity :: (Rep(rep, p.0), p.1)
  }

  /** What was moved to `key`, or was there before. */
  ghost function Originals(rep: map<Id, Id>, was: map<Involvement, Option<string>>, key: Involvement): set<Involvement> {
    set v | v in was && MovedInvolvement(rep, v) == key
  }

  /** The role is one of an edge that has one. If none has, it is empty where an edge was moved to `key`
      and missing where none was. */
  ghost predicate RoleFrom(was: map<Involvement, Option<string>>, edges: set<Involvement>, key: Involvement, role: Option<string>) {
    && (forall v :: v in edges ==> v in was)
    && match role
       case None => forall v :: v in edges ==> v == key && was[v].None?
       case Some(r) =>
         || (exists v :: v in edges && was[v] == Some(r))
         || (r == "" && (forall v :: v in edges ==> was[v].None?) && exists v :: v in edges && v != key)
  }

  /** `key` has an original, and a role that comes from its originals. */
  ghost predicate RoleKept(rep: map<Id, Id>, was: map<Involvement, Option<string>>, key: Involvement, role: Option<string>) {
    Originals(rep, was, key) != {} && RoleFrom(was, Originals(rep, was, key), key, role)
  }

  ghost predicate InvolvesQuotient(rep: map<Id, Id>, was: map<Involvement, Option<string>>, after: map<Involvement, Option<string>>) {
    && (forall v :: v in was ==> MovedInvolvement(rep, v) in after)
    && (forall key :: key in after ==> RoleKept(rep, was, key, after[key]))
  }

  /** `key` carries the properties of `from`, an original of it. */
  ghost predicate Carries(rep: map<Id, Id>, was: map<RelationKey, Relation>, after: map<RelationKey, Relation>, key: RelationKey, from: RelationKey) {
    && key in after && from in was && Survives(rep, from) && MovedKey(rep, from) == key
    && after[key] == if from == key then was[from] else Moved(was[from])
  }

  ghost predicate RelationsQuotient(rep: map<Id, Id>, was: map<RelationKey, Relation>, after: map<RelationKey, Relation>) {
    && (forall key :: key in was && Survives(rep, key) ==> MovedKey(rep, key) in after)
    && (forall key :: key in after ==> exists from :: Carries(rep, was, after, key, from))
  }

  /** Two representations one after the other, of different groups. */
  ghost predicate Composes(first: map<Id, Id>, second: map<Id, Id>, both: map<Id, Id>) {
    && (forall id :: Rep(both, id) == Rep(second, Rep(first, id)))
    && (forall id :: id in first ==> Rep(second, first[id]) == first[id])
    && (forall a, b :: a in first && b in second ==> first[a] != second[b])
  }

  lemma MentionsCompose(first: map<Id, Id>, second: map<Id, Id>, both: map<Id, Id>, mentions: set<Mention>)
    requires Composes(first, second, both)
    ensures MentionsQuotient(second, MentionsQuotient(first, mentions)) == MentionsQuotient(both, mentions)
  {
    forall m
      ensures MovedMention(second, MovedMention(first, m)) == MovedMention(both, m)
    {
      assert Rep(both, m.entity) == Rep(second, Rep(first, m.entity));
    }
    hide MovedMention;
    var once := MentionsQuotient(first, mentions);
    forall m | m in mentions
      ensures MovedMention(both, m) in MentionsQuotient(second, once)
    {
      assert MovedMention(first, m) in once;
    }
  }

  lemma InvolvementComposes(first: map<Id, Id>, second: map<Id, Id>, both: map<Id, Id>, v: Involvement)
    requires Composes(first, second, both)
    ensures MovedInvolvement(second, MovedInvolvement(first, v)) == MovedInvolvement(both, v)
  {
    assert Rep(both, v.entity) == Rep(second, Rep(first, v.entity));
  }

  lemma RolesKept(rep: map<Id, Id>, was: map<Involvement, Option<string>>, after: map<Involvement, Option<string>>)
    requires InvolvesQuotient(rep, was, after)
    ensures forall v :: v in was ==> MovedInvolvement(rep, v) in after
    ensures forall key :: key in after ==> Originals(rep, was, key) != {} && RoleFrom(was, Originals(rep, was, key), key, after[key])
  {
    hide MovedInvolvement, Originals, RoleFrom;
    forall key | key in after
      ensures Originals(rep, was, key) != {} && RoleFrom(was, Originals(rep, was, key), key, after[key])
    {
      assert RoleKept(rep, was, key, after[key]);
    }
  }

  /** To a place where the first group's edges were moved the second group moves none. */
  lemma MovedOnce(first: map<Id, Id>, second: map<Id, Id>, both: map<Id, Id>, u: Involvement, n: Involvement, m: Involvement)
    requires Composes(first, second, both)
    requires MovedInvolvement(first, u) == n != u && MovedInvolvement(second, n) == MovedInvolvement(second, m)
    ensures MovedInvolvement(second, n) == n == m
  {
    assert n.entity == first[u.entity];
    if m.entity in second {
      assert second[m.entity] != first[u.entity];
    }
  }

  /** The second group moves nothing to a place the first one moved an edge to. */
  lemma AlreadyMoved(first: map<Id, Id>, second: map<Id, Id>, both: map<Id, Id>, was: map<Involvement, Option<string>>,
                     mid: map<Involvement, Option<string>>, key: Involvement, n: Involvement, u: Involvement)
    requires Composes(first, second, both)
    requires forall v :: v in was ==> MovedInvolvement(first, v) in mid
    requires n in Originals(second, mid, key) && u in Originals(first, was, n) && u != n
    ensures Originals(second, mid, key) == {key} && Originals(both, was, key) == Originals(first, was, key)
  {
    forall m | m in Originals(second, mid, key)
      ensures m == n == key
    {
      MovedOnce(first, second, both, u, n, m);
    }
    forall w
      ensures MovedInvolvement(second, MovedInvolvement(first, w)) == MovedInvolvement(both, w)
    {
      InvolvementComposes(first, second, both, w);
    }
    hide MovedInvolvement, Composes;
    assert forall w :: w in was && MovedInvolvement(both, w) == key ==> MovedInvolvement(first, w) in Originals(second, mid, key);
  }

  lemma AloneCompose(first: map<Id, Id>, second: map<Id, Id>, both: map<Id, Id>, was: map<Involvement, Option<string>>,
                     mid: map<Involvement, Option<string>>, key: Involvement)
    requires Composes(first, second, both)
    requires forall v :: v in was ==> MovedInvolvement(first, v) in mid
    requires forall n :: n in Originals(second, mid, key) ==> Originals(first, was, n) == {n}
    ensures Originals(both, was, key) == Originals(second, mid, key)
  {
    forall u
      ensures MovedInvolvement(second, MovedInvolvement(first, u)) == MovedInvolvement(both, u)
    {
      InvolvementComposes(first, second, both, u);
    }
    hide MovedInvolvement, Composes;
    forall u | u in Originals(both, was, key)
      ensures u in Originals(second, mid, key)
    {
      assert MovedInvolvement(first, u) in Originals(second, mid, key);
      assert u in Originals(first, was, MovedInvolvement(first, u));
    }
    forall n | n in Originals(second, mid, key)
      ensures n in Originals(both, was, key)
    {
      assert n in Originals(first, was, n);
    }
  }

  lemma LateInMid(rep: map<Id, Id>, mid: map<Involvement, Option<string>>, key: Involvement)
    ensures forall n :: n in Originals(rep, mid, key) ==> n in mid
  {
  }

  lemma IsKept(rep: map<Id, Id>, was: map<Involvement, Option<string>>, key: Involvement, role: Option<string>)
    requires Originals(rep, was, key) != {} && RoleFrom(was, Originals(rep, was, key), key, role)
    ensures RoleKept(rep, was, key, role)
  {
  }

  lemma OneRole(was: map<Involvement, Option<string>>, mid: map<Involvement, Option<string>>, edges: set<Involvement>, key: Involvement, role: Option<string>)
    requires key in mid && RoleFrom(mid, {key}, key, role) && RoleFrom(was, edges, key, mid[key])
    ensures RoleFrom(was, edges, key, role)
  {
    assert key in {key};
  }

  lemma SameRoles(was: map<Involvement, Option<string>>, mid: map<Involvement, Option<string>>, edges: set<Involvement>, key: Involvement, role: Option<string>)
    requires RoleFrom(mid, edges, key, role)
    requires forall n :: n in edges ==> RoleFrom(was, {n}, n, mid[n])
    ensures RoleFrom(was, edges, key, role)
  {
    forall n | n in edges
      ensures n in was && was[n] == mid[n]
    {
      assert n in {n};
    }
  }

  lemma RoleComposes(first: map<Id, Id>, second: map<Id, Id>, both: map<Id, Id>, was: map<Involvement, Option<string>>,
                     mid: map<Involvement, Option<string>>, after: map<Involvement, Option<string>>, key: Involvement)
    requires Composes(first, second, both)
    requires InvolvesQuotient(first, was, mid) && InvolvesQuotient(second, mid, after) && key in after
    ensures RoleKept(both, was, key, after[key])
  {
    hide *;
    RolesKept(first, was, mid);
    RolesKept(second, mid, after);
    var late := Originals(second, mid, key);
    assert forall n :: n in late ==> n in mid by {
      LateInMid(second, mid, key);
    }
    if n, u :| n in late && u in Originals(first, was, n) && u != n {
      AlreadyMoved(first, second, both, was, mid, key, n, u);
      OneRole(was, mid, Originals(first, was, key), key, after[key]);
    } else {
      forall n | n in late
        ensures Originals(first, was, n) == {n}
      {
        var u :| u in Originals(first, was, n);
      }
      AloneCompose(first, second, both, was, mid, key);
      SameRoles(was, mid, late, key, after[key]);
    }
    IsKept(both, was, key, after[key]);
  }

  lemma InvolvesCompose(first: map<Id, Id>, second: map<Id, Id>, both: map<Id, Id>, was: map<Involvement, Option<string>>,
                        mid: map<Involvement, Option<string>>, after: map<Involvement, Option<string>>)
    requires Composes(first, second, both)
    requires InvolvesQuotient(first, was, mid) && InvolvesQuotient(second, mid, after)
    ensures InvolvesQuotient(both, was, after)
  {
    hide MovedInvolvement, RoleKept, Composes;
    forall v | v in was
      ensures MovedInvolvement(both, v) in after
    {
      InvolvementComposes(first, second, both, v);
    }
    forall key | key in after
      ensures RoleKept(both, was, key, after[key])
    {
      RoleComposes(first, second, both, was, mid, after, key);
    }
  }

  lemma CommunitiesCompose(first: map<Id, Id>, second: map<Id, Id>, both: map<Id, Id>, inCommunity: set<(Id, Id)>)
    requires Composes(first, second, both)
    ensures CommunityQuotient(second, CommunityQuotient(first, inCommunity)) == CommunityQuotient(both, inCommunity)
  {
  }

  lemma SurvivalComposes(first: map<Id, Id>, second: map<Id, Id>, both: map<Id, Id>, key: RelationKey)
    requires Composes(first, second, both)
    ensures MovedKey(second, MovedKey(first, key)) == MovedKey(both, key)
    ensures Survives(both, key) <==> Survives(first, key) && Survives(second, MovedKey(first, key))
  {
  }

  lemma CarriesCompose(first: map<Id, Id>, second: map<Id, Id>, both: map<Id, Id>, was: map<RelationKey, Relation>,
                       mid: map<RelationKey, Relation>, after: map<RelationKey, Relation>, key: RelationKey, middle: RelationKey, from: RelationKey)
    requires Composes(first, second, both)
    requires Carries(first, was, mid, middle, from) && Carries(second, mid, after, key, middle)
    ensures Carries(both, was, after, key, from)
  {
  }

  lemma CarriesIn(rep: map<Id, Id>, was: map<RelationKey, Relation>, after: map<RelationKey, Relation>, key: RelationKey, from: RelationKey)
    requires Carries(rep, was, after, key, from)
    ensures from in was
  {
  }

  lemma RelationsCompose(first: map<Id, Id>, second: map<Id, Id>, both: map<Id, Id>, was: map<RelationKey, Relation>,
                         mid: map<RelationKey, Relation>, after: map<RelationKey, Relation>)
    requires Composes(first, second, both)
    requires RelationsQuotient(first, was, mid) && RelationsQuotient(second, mid, after)
    ensures RelationsQuotient(both, was, after)
  {
    hide Carries, Survives, MovedKey, Composes;
    forall key | key in was && Survives(both, key)
      ensures MovedKey(both, key) in after
    {
      SurvivalComposes(first, second, both, key);
    }
    forall key | key in after
      ensures exists from :: Carries(both, was, after, key, from)
    {
      var middle :| Carries(second, mid, after, key, middle);
      CarriesIn(second, mid, after, key, middle);
      var from :| Carries(first, was, mid, middle, from);
      CarriesCompose(first, second, both, was, mid, after, key, middle, from);
    }
  }

  // ---- moving the relations of one group ----

  /** The representation of one group. */
  function OneGroup(keeper: Id, duplicates: set<Id>): map<Id, Id> {
    map d | d in duplicates :: keeper
  }

  /** Copies of some relations were made at a keeper, outgoing or incoming ones. */
  function CopyOf(keeper: Id, outgoing: bool, key: RelationKey): RelationKey {
    if outgoing then key.(source := keeper) else key.(target := keeper)
  }

  ghost predicate CopyMade(was: map<RelationKey, Relation>, after: map<RelationKey, Relation>, rows: set<RelationKey>, keeper: Id, outgoing: bool,
                           key: RelationKey)
  {
    key in after && exists from :: from in rows && from in was && CopyOf(keeper, outgoing, from) == key && after[key] == Moved(was[from])
  }

  /** Every copy carries the properties of an original; everything else is as before. */
  ghost predicate Copied(was: map<RelationKey, Relation>, after: map<RelationKey, Relation>, rows: set<RelationKey>, keeper: Id, outgoing: bool) {
    && (forall key :: key in was ==> key in after)
    && (forall r :: r in rows ==> CopyMade(was, after, rows, keeper, outgoing, CopyOf(keeper, outgoing, r)))
    && (forall key :: key in after ==> CopyMade(was, after, rows, keeper, outgoing, key) || (key in was && after[key] == was[key]))
  }

  lemma NothingCopied(relations: map<RelationKey, Relation>, rows: set<RelationKey>, keeper: Id, outgoing: bool)
    ensures Copied(relations, relations, {}, keeper, outgoing)
  {
  }

  lemma CopiedStep(was: map<RelationKey, Relation>, after: map<RelationKey, Relation>, done: set<RelationKey>, keeper: Id, outgoing: bool,
                   row: RelationKey)
    requires Copied(was, after, done, keeper, outgoing)
    requires row in was && row in after && after[row] == was[row]
    ensures Copied(was, after[CopyOf(keeper, outgoing, row) := Moved(after[row])], done + {row}, keeper, outgoing)
  {
  }

  /** One MERGE per matched row, in any order. */
  method CopyRelations(relations: map<RelationKey, Relation>, rows: set<RelationKey>, keeper: Id, outgoing: bool)
    returns (relations': map<RelationKey, Relation>)
    requires forall r :: r in rows ==> r in relations && CopyOf(keeper, outgoing, r) !in rows
    ensures Copied(relations, relations', rows, keeper, outgoing)
  {
    NothingCopied(relations, rows, keeper, outgoing);
    hide *;
    relations' := relations;
    var pending := rows;
    assert rows - pending == {};
    while pending != {}
      invariant pending <= rows
      invariant forall r :: r in rows ==> r in relations' && relations'[r] == relations[r]
      invariant Copied(relations, relations', rows - pending, keeper, outgoing)
      decreases |pending|
    {
      var row :| row in pending;
      CopiedStep(relations, relations', rows - pending, keeper, outgoing, row);
      assert (rows - pending) + {row} == rows - (pending - {row});
      relations' := relations'[CopyOf(keeper, outgoing, row) := Moved(relations'[row])];
      pending := pending - {row};
    }
    assert rows - pending == rows;
  }

  function Outgoing(relations: map<RelationKey, Relation>, keeper: Id, duplicates: set<Id>): set<RelationKey> {
    set key | key in relations && key.source in duplicates && key.target != keeper
  }

  function Incoming(relations: map<RelationKey, Relation>, keeper: Id, duplicates: set<Id>): set<RelationKey> {
    set key | key in relations && key.target in duplicates && key.source != keeper
  }

  function WithoutEnds(relations: map<RelationKey, Relation>, duplicates: set<Id>): map<RelationKey, Relation> {
    map key | key in relations && key.source !in duplicates && key.target !in duplicates :: relations[key]
  }

  lemma KeptCarries(was: map<RelationKey, Relation>, two: map<RelationKey, Relation>, keeper: Id, duplicates: set<Id>, key: RelationKey)
    requires key in WithoutEnds(two, duplicates) && key in was && two[key] == was[key]
    ensures Carries(OneGroup(keeper, duplicates), was, WithoutEnds(two, duplicates), key, key)
  {
  }

  lemma OutgoingCarries(was: map<RelationKey, Relation>, one: map<RelationKey, Relation>, two: map<RelationKey, Relation>, keeper: Id,
                        duplicates: set<Id>, key: RelationKey)
    requires keeper !in duplicates
    requires key in WithoutEnds(two, duplicates) && key in one && two[key] == one[key]
    requires CopyMade(was, one, Outgoing(was, keeper, duplicates), keeper, true, key)
    ensures exists from :: Carries(OneGroup(keeper, duplicates), was, WithoutEnds(two, duplicates), key, from)
  {
    hide Moved;
    var from :| from in Outgoing(was, keeper, duplicates) && from in was && CopyOf(keeper, true, from) == key && one[key] == Moved(was[from]);
    assert Carries(OneGroup(keeper, duplicates), was, WithoutEnds(two, duplicates), key, from);
  }

  lemma NoCopyElsewhere(was: map<RelationKey, Relation>, one: map<RelationKey, Relation>, keeper: Id, duplicates: set<Id>, key: RelationKey)
    requires Copied(was, one, Outgoing(was, keeper, duplicates), keeper, true)
    requires key in one && key.source != keeper
    ensures key in was && one[key] == was[key]
  {
  }

  lemma IncomingCarries(was: map<RelationKey, Relation>, one: map<RelationKey, Relation>, two: map<RelationKey, Relation>, keeper: Id,
                        duplicates: set<Id>, key: RelationKey)
    requires keeper !in duplicates
    requires Copied(was, one, Outgoing(was, keeper, duplicates), keeper, true)
    requires key in WithoutEnds(two, duplicates)
    requires CopyMade(one, two, Incoming(one, keeper, duplicates), keeper, false, key)
    ensures exists from :: Carries(OneGroup(keeper, duplicates), was, WithoutEnds(two, duplicates), key, from)
  {
    hide Moved;
    var from :| from in Incoming(one, keeper, duplicates) && from in one && CopyOf(keeper, false, from) == key && two[key] == Moved(one[from]);
    NoCopyElsewhere(was, one, keeper, duplicates, from);
    hide Copied;
    assert Carries(OneGroup(keeper, duplicates), was, WithoutEnds(two, duplicates), key, from);
  }

  lemma GroupRelation(was: map<RelationKey, Relation>, one: map<RelationKey, Relation>, two: map<RelationKey, Relation>, keeper: Id,
                      duplicates: set<Id>, key: RelationKey)
    requires keeper !in duplicates
    requires Copied(was, one, Outgoing(was, keeper, duplicates), keeper, true)
    requires Copied(one, two, Incoming(one, keeper, duplicates), keeper, false)
    requires key in WithoutEnds(two, duplicates)
    ensures exists from :: Carries(OneGroup(keeper, duplicates), was, WithoutEnds(two, duplicates), key, from)
  {
    hide Moved, Carries, CopyMade;
    if CopyMade(one, two, Incoming(one, keeper, duplicates), keeper, false, key) {
      IncomingCarries(was, one, two, keeper, duplicates, key);
    } else if CopyMade(was, one, Outgoing(was, keeper, duplicates), keeper, true, key) {
      OutgoingCarries(was, one, two, keeper, duplicates, key);
    } else {
      KeptCarries(was, two, keeper, duplicates, key);
    }
  }

  /** Copying outgoing, then incoming relations to the keeper, and deleting the duplicates with their
      edges, is the quotient by the group. */
  lemma GroupRelations(was: map<RelationKey, Relation>, one: map<RelationKey, Relation>, two: map<RelationKey, Relation>, keeper: Id, duplicates: set<Id>)
    requires keeper !in duplicates
    requires Copied(was, one, Outgoing(was, keeper, duplicates), keeper, true)
    requires Copied(one, two, Incoming(one, keeper, duplicates), keeper, false)
    ensures RelationsQuotient(OneGroup(keeper, duplicates), was, WithoutEnds(two, duplicates))
  {
    hide Moved;
    var rep, after := OneGroup(keeper, duplicates), WithoutEnds(two, duplicates);
    forall key | key in was && Survives(rep, key)
      ensures MovedKey(rep, key) in after
    {
      if key.source in duplicates {
        assert key in Outgoing(was, keeper, duplicates);
        assert CopyOf(keeper, true, key) in one;
      } else if key.target in duplicates {
        assert key in Incoming(one, keeper, duplicates);
        assert CopyOf(keeper, false, key) in two;
      }
    }
    forall key | key in after
      ensures exists from :: Carries(rep, was, after, key, from)
    {
      GroupRelation(was, one, two, keeper, duplicates, key);
    }
  }

  // ---- the groups ----

  type Key = (string, string)

  /** `lower` lower-cases a name. */
  function KeyOf(lower: string -> string, n: Node): Key {
    (lower(n.name), n.kind)
  }

  predicate IsLongTerm(n: Node) {
    n.memoryLayer == Some(LONG_TERM)
  }

  function MentionsIn(n: Node): int {
    if n.mentionCount.Some? then n.mentionCount.value else 0
  }

  function AccessesIn(n: Node): int {
    if n.accessCount.Some? then n.accessCount.value else 0
  }

  /** The order in which the members of a group are listed: long-term first, then oldest, then most
      mentioned, then most accessed. */
  predicate Precedes(now: Time, a: Node, b: Node) {
    var madeA, madeB := if a.createdAt.Some? then a.createdAt.value else now, if b.createdAt.Some? then b.createdAt.value else now;
    if IsLongTerm(a) != IsLongTerm(b) then IsLongTerm(a)
    else if madeA != madeB then madeA < madeB
    else if MentionsIn(a) != MentionsIn(b) then MentionsIn(a) > MentionsIn(b)
    else AccessesIn(a) > AccessesIn(b)
  }

  /** A listing of all entities in that order, ties in any order. */
  ghost predicate Listing(now: Time, entities: map<Id, Node>, order: seq<Id>) {
    && Distinct(order) && (forall id :: id in order <==> id in entities)
    && forall i, j :: 0 <= i < j < |order| ==> !Precedes(now, entities[order[j]], entities[order[i]])
  }

  /** The entities with a key, in the order of the listing. */
  function Members(lower: string -> string, entities: map<Id, Node>, order: seq<Id>, key: Key): seq<Id> {
    if order == [] then []
    else
      var last := order[|order| - 1];
      Members(lower, entities, order[..|order| - 1], key)
      + if last in entities && KeyOf(lower, entities[last]) == key then [last] else []
  }

  lemma {:induction false} MembersAre(lower: string -> string, entities: map<Id, Node>, order: seq<Id>, key: Key)
    ensures forall id :: id in Members(lower, entities, order, key) <==> id in order && id in entities && KeyOf(lower, entities[id]) == key
  {
    if order != [] {
      MembersAre(lower, entities, order[..|order| - 1], key);
      assert order == order[..|order| - 1] + [order[|order| - 1]];
    }
  }

  lemma {:induction false} MembersDistinct(lower: string -> string, entities: map<Id, Node>, order: seq<Id>, key: Key)
    requires Distinct(order)
    ensures Distinct(Members(lower, entities, order, key))
  {
    if order != [] {
      var early := order[..|order| - 1];
      MembersDistinct(lower, entities, early, key);
      MembersAre(lower, entities, early, key);
    }
  }

  lemma NotBeforeItself(now: Time, entities: map<Id, Node>, id: Id)
    ensures id in entities ==> !Precedes(now, entities[id], entities[id])
  {
  }

  lemma {:induction false} FirstIsBestUpTo(lower: string -> string, now: Time, entities: map<Id, Node>, order: seq<Id>, key: Key, n: nat)
    requires Listing(now, entities, order) && n <= |order|
    ensures var members := Members(lower, entities, order[..n], key);
            && (forall id :: id in members ==> id in order[..n] && id in entities)
            && forall id :: id in members ==> members[0] in entities && !Precedes(now, entities[id], entities[members[0]])
  {
    if n > 0 {
      FirstIsBestUpTo(lower, now, entities, order, key, n - 1);
      assert order[..n][..n - 1] == order[..n - 1];
      var early := Members(lower, entities, order[..n - 1], key);
      if early != [] {
        assert early[0] in early;
        var i :| 0 <= i < n - 1 && order[i] == early[0];
      }
      hide Precedes;
      NotBeforeItself(now, entities, order[n - 1]);
    }
  }

  /** No member of a group precedes its first one. */
  lemma FirstIsBest(lower: string -> string, now: Time, entities: map<Id, Node>, order: seq<Id>, key: Key)
    requires Listing(now, entities, order)
    ensures var members := Members(lower, entities, order, key);
            forall id :: id in members ==> id in entities && members[0] in entities && !Precedes(now, entities[id], entities[members[0]])
  {
    FirstIsBestUpTo(lower, now, entities, order, key, |order|);
    assert order[..|order|] == order;
  }

  /** The keys under which there is something to merge. */
  ghost predicate DuplicateKeys(lower: string -> string, entities: map<Id, Node>, order: seq<Id>, keys: seq<Key>) {
    Distinct(keys) && forall key :: key in keys <==> key.0 != "" && |Members(lower, entities, order, key)| > 1
  }

  function KeeperOf(lower: string -> string, entities: map<Id, Node>, order: seq<Id>, key: Key): Id {
    var members := Members(lower, entities, order, key);
    if members == [] then "" else members[0]
  }

  /** Every duplicate under one of the keys is represented by the keeper of its key. */
  function Representation(lower: string -> string, entities: map<Id, Node>, order: seq<Id>, keys: seq<Key>): map<Id, Id> {
    map id | id in entities && KeyOf(lower, entities[id]) in keys && id != KeeperOf(lower, entities, order, KeyOf(lower, entities[id]))
      :: KeeperOf(lower, entities, order, KeyOf(lower, entities[id]))
  }

  lemma KeeperHasKey(lower: string -> string, entities: map<Id, Node>, order: seq<Id>, key: Key)
    requires Members(lower, entities, order, key) != []
    ensures var keeper := KeeperOf(lower, entities, order, key);
            keeper in order && keeper in entities && KeyOf(lower, entities[keeper]) == key
  {
  }

  lemma KeepersHaveKeys(lower: string -> string, entities: map<Id, Node>, order: seq<Id>, keys: seq<Key>)
    requires DuplicateKeys(lower, entities, order, keys)
    ensures forall key :: key in keys ==>
                            var keeper := KeeperOf(lower, entities, order, key);
                            keeper in entities && KeyOf(lower, entities[keeper]) == key
  {
    forall key | key in keys
      ensures var keeper := KeeperOf(lower, entities, order, key);
              keeper in entities && KeyOf(lower, entities[keeper]) == key
    {
      KeeperHasKey(lower, entities, order, key);
    }
  }

  /** One more key adds its duplicates, and nothing else changes. */
  lemma OneKeyMore(lower: string -> string, entities: map<Id, Node>, order: seq<Id>, keys: seq<Key>, n: nat, duplicates: set<Id>, id: Id)
    requires DuplicateKeys(lower, entities, order, keys) && n < |keys|
    requires forall e :: e in order <==> e in entities
    requires var members := Members(lower, entities, order, keys[n]);
             members != [] && forall e :: e in duplicates <==> e in members && e != members[0]
    ensures var first, both := Representation(lower, entities, order, keys[..n]), Representation(lower, entities, order, keys[..n + 1]);
            var keeper := KeeperOf(lower, entities, order, keys[n]);
            && (id in first ==> id !in duplicates && id in entities && KeyOf(lower, entities[id]) in keys && KeyOf(lower, entities[id]) != keys[n]
                                && first[id] == KeeperOf(lower, entities, order, KeyOf(lower, entities[id])))
            && Rep(both, id) == if id in first then first[id] else if id in duplicates then keeper else id
  {
    MembersAre(lower, entities, order, keys[n]);
    assert keys[..n + 1] == keys[..n] + [keys[n]] && keys[n] !in keys[..n];
    hide Members, DuplicateKeys, KeyOf;
    if id in entities && KeyOf(lower, entities[id]) in keys[..n] {
      assert KeyOf(lower, entities[id]) in keys;
    }
  }

  lemma KeepersApart(lower: string -> string, entities: map<Id, Node>, order: seq<Id>, keys: seq<Key>, a: Key, b: Key)
    requires DuplicateKeys(lower, entities, order, keys) && a in keys && b in keys && a != b
    ensures KeeperOf(lower, entities, order, a) != KeeperOf(lower, entities, order, b)
    ensures KeeperOf(lower, entities, order, a) !in Members(lower, entities, order, b)
  {
    KeepersHaveKeys(lower, entities, order, keys);
    MembersAre(lower, entities, order, b);
    hide Members, DuplicateKeys, KeeperOf;
  }

  /** Handling one more key composes with those before. */
  lemma GroupsCompose(lower: string -> string, entities: map<Id, Node>, order: seq<Id>, keys: seq<Key>, n: nat, duplicates: set<Id>)
    requires DuplicateKeys(lower, entities, order, keys) && n < |keys|
    requires forall id :: id in order <==> id in entities
    requires var members := Members(lower, entities, order, keys[n]);
             members != [] && forall id :: id in duplicates <==> id in members && id != members[0]
    ensures Composes(Representation(lower, entities, order, keys[..n]),
                     OneGroup(KeeperOf(lower, entities, order, keys[n]), duplicates),
                     Representation(lower, entities, order, keys[..n + 1]))
  {
    var first, second, both := Representation(lower, entities, order, keys[..n]),
                               OneGroup(KeeperOf(lower, entities, order, keys[n]), duplicates),
                               Representation(lower, entities, order, keys[..n + 1]);
    hide KeeperOf, KeyOf, Representation, DuplicateKeys, Members;
    forall a, b | a in first && b in second
      ensures first[a] != second[b]
    {
      OneKeyMore(lower, entities, order, keys, n, duplicates, a);
      KeepersApart(lower, entities, order, keys, KeyOf(lower, entities[a]), keys[n]);
    }
    forall id | id in first
      ensures Rep(second, first[id]) == first[id]
    {
      OneKeyMore(lower, entities, order, keys, n, duplicates, id);
      KeepersApart(lower, entities, order, keys, KeyOf(lower, entities[id]), keys[n]);
    }
    forall id
      ensures Rep(both, id) == Rep(second, Rep(first, id))
    {
      OneKeyMore(lower, entities, order, keys, n, duplicates, id);
      if id in first {
        KeepersApart(lower, entities, order, keys, KeyOf(lower, entities[id]), keys[n]);
      }
    }
  }

  // ---- counts ----

  function SumOf(count: Node -> int, entities: map<Id, Node>, ids: seq<Id>): int {
    if ids == [] then 0
    else
      var last := ids[|ids| - 1];
      SumOf(count, entities, ids[..|ids| - 1]) + if last in entities then count(entities[last]) else 0
  }

  lemma SumSnoc(count: Node -> int, entities: map<Id, Node>, ids: seq<Id>, id: Id)
    ensures SumOf(count, entities, ids + [id]) == SumOf(count, entities, ids) + if id in entities then count(entities[id]) else 0
    ensures ids + [] == ids
  {
  }

  /** Giving the keeper the sum of its group and deleting the rest leaves the total unchanged. */
  lemma {:induction false} GroupTotal(count: Node -> int, lower: string -> string, initial: map<Id, Node>, was: map<Id, Node>, after: map<Id, Node>,
                                      order: seq<Id>, key: Key, keeper: Id)
    requires Distinct(order)
    requires forall id :: id in initial && KeyOf(lower, initial[id]) == key ==> id in was && was[id] == initial[id]
    requires keeper in initial && KeyOf(lower, initial[keeper]) == key && keeper in after
    requires forall id :: id != keeper ==>
                            if id in initial && KeyOf(lower, initial[id]) == key then id !in after
                            else (id in after <==> id in was) && (id in after ==> after[id] == was[id])
    ensures SumOf(count, after, order) ==
            SumOf(count, was, order) - SumOf(count, initial, Members(lower, initial, order, key))
            + if keeper in order then count(after[keeper]) else 0
  {
    if order != [] {
      var early, last := order[..|order| - 1], order[|order| - 1];
      assert order == early + [last];
      assert forall i :: 0 <= i < |early| ==> early[i] == order[i] != last;
      GroupTotal(count, lower, initial, was, after, early, key, keeper);
      var group := Members(lower, initial, early, key);
      SumSnoc(count, initial, group, last);
      SumSnoc(count, was, early, last);
      SumSnoc(count, after, early, last);
      assert Members(lower, initial, order, key) == group + if last in initial && KeyOf(lower, initial[last]) == key then [last] else [];
      assert group + [] == group;
      hide KeyOf, Members, SumOf, Distinct;
    }
  }

  // ---- the keeper ----

  function TextOf(description: Option<string>): string {
    if description.Some? then description.value else ""
  }

  /** `description` is that of the first member whose description is longest; a missing one is empty. */
  ghost predicate FirstLongest(entities: map<Id, Node>, ids: seq<Id>, description: Option<string>) {
    && (forall id :: id in ids ==> id in entities && |ValueOr(entities[id].description, "")| <= |ValueOr(description, "")|)
    && exists i :: 0 <= i < |ids| && ids[i] in entities && entities[ids[i]].description == description
                   && forall j :: 0 <= j < i ==> ids[j] in entities && |ValueOr(entities[ids[j]].description, "")| < |ValueOr(description, "")|
  }

  /** The first longest description of a group. */
  function Longest(entities: map<Id, Node>, ids: seq<Id>): (d: string)
    requires forall id :: id in ids ==> id in entities
    ensures forall id :: id in ids ==> |ValueOr(entities[id].description, "")| <= |d|
    ensures d != "" ==> FirstLongest(entities, ids, Some(d))
  {
    if ids == [] then ""
    else
      var early, last := ids[..|ids| - 1], ids[|ids| - 1];
      assert forall id :: id in ids <==> id in early || id == last;
      var d := Longest(entities, early);
      assert forall i :: 0 <= i < |early| ==> ids[i] == early[i] && early[i] in early;
      if |TextOf(entities[last].description)| > |d| then TextOf(entities[last].description) else d
  }

  function Stripped(strip: string -> string, values: seq<string>): (r: seq<string>)
    ensures |r| == |values| && forall i :: 0 <= i < |values| ==> r[i] == strip(values[i])
  {
    seq(|values|, i requires 0 <= i < |values| => strip(values[i]))
  }

  /** The stripped texts of several lists, in order. */
  function StrippedAll(strip: string -> string, lists: seq<seq<string>>): seq<string> {
    if lists == [] then [] else StrippedAll(strip, lists[..|lists| - 1]) + Stripped(strip, lists[|lists| - 1])
  }

  lemma AppendOne(before: seq<string>, value: string)
    ensures AppendNew([], before + [value]) ==
            if value != "" && value !in AppendNew([], before) then AppendNew([], before) + [value] else AppendNew([], before)
  {
  }

  lemma StrippedStep(strip: string -> string, base: seq<string>, row: seq<string>, k: nat)
    requires k < |row|
    ensures base + Stripped(strip, row[..k + 1]) == (base + Stripped(strip, row[..k])) + [strip(row[k])]
  {
  }

  /** Adds the texts of one list. */
  method FlattenRow(strip: string -> string, row: seq<string>, unique: seq<string>, seen: set<string>, ghost base: seq<string>)
    returns (unique': seq<string>, seen': set<string>)
    requires unique == AppendNew([], base) && forall v :: v in seen <==> v in unique
    ensures unique' == AppendNew([], base + Stripped(strip, row)) && forall v :: v in seen' <==> v in unique'
  {
    unique', seen' := unique, seen;
    assert base + Stripped(strip, row[..0]) == base;
    for k := 0 to |row|
      invariant unique' == AppendNew([], base + Stripped(strip, row[..k]))
      invariant forall v :: v in seen' <==> v in unique'
    {
      StrippedStep(strip, base, row, k);
      AppendOne(base + Stripped(strip, row[..k]), strip(row[k]));
      hide AppendNew, Stripped;
      var text := strip(row[k]);
      if text != "" && text !in seen' {
        seen', unique' := seen' + {text}, unique' + [text];
      }
    }
    assert row[..|row|] == row;
  }

  /** Flattens lists, strips the texts and drops empty and repeated ones. */
  method FlattenUnique(strip: string -> string, lists: seq<seq<string>>) returns (unique: seq<string>)
    ensures unique == AppendNew([], StrippedAll(strip, lists))
  {
    unique := [];
    var seen: set<string> := {};
    for n := 0 to |lists|
      invariant unique == AppendNew([], StrippedAll(strip, lists[..n]))
      invariant forall v :: v in seen <==> v in unique
    {
      assert lists[..n + 1][..n] == lists[..n];
      unique, seen := FlattenRow(strip, lists[n], unique, seen, StrippedAll(strip, lists[..n]));
    }
    assert lists[..|lists|] == lists;
  }

  /** What the merged texts of several lists are. */
  lemma {:induction false} StrippedMembers(strip: string -> string, lists: seq<seq<string>>)
    ensures forall v :: v in StrippedAll(strip, lists) <==> exists l, f :: l in lists && f in l && strip(f) == v
  {
    if lists != [] {
      var early, last := lists[..|lists| - 1], lists[|lists| - 1];
      assert lists == early + [last];
      StrippedMembers(strip, early);
      forall v
        ensures v in Stripped(strip, last) <==> exists f :: f in last && strip(f) == v
      {
        if f :| f in last && strip(f) == v {
          var i :| 0 <= i < |last| && last[i] == f;
          assert Stripped(strip, last)[i] == v;
        }
      }
    }
  }

  lemma FlattenedShape(strip: string -> string, lists: seq<seq<string>>)
    ensures var unique := AppendNew([], StrippedAll(strip, lists));
            Distinct(unique) && forall v :: v in unique <==> v != "" && exists l, f :: l in lists && f in l && strip(f) == v
  {
    AppendNewShape(StrippedAll(strip, lists));
    StrippedMembers(strip, lists);
  }

  function FactsOf(entities: map<Id, Node>, ids: seq<Id>): (lists: seq<seq<string>>)
    requires forall id :: id in ids ==> id in entities
    ensures |lists| == |ids| && forall i :: 0 <= i < |ids| ==> lists[i] == entities[ids[i]].coreFacts
  {
    seq(|ids|, i requires 0 <= i < |ids| => assert ids[i] in ids; entities[ids[i]].coreFacts)
  }

  function TraitsOf(entities: map<Id, Node>, ids: seq<Id>): (lists: seq<seq<string>>)
    requires forall id :: id in ids ==> id in entities
    ensures |lists| == |ids| && forall i :: 0 <= i < |ids| ==> lists[i] == entities[ids[i]].traits
  {
    seq(|ids|, i requires 0 <= i < |ids| => assert ids[i] in ids; entities[ids[i]].traits)
  }

  /** `n` sums up a group of the initial entities. */
  ghost predicate SumsUp(strip: string -> string, initial: map<Id, Node>, ids: seq<Id>, n: Node) {
    && ids != [] && (forall id :: id in ids ==> id in initial)
    && n.mentionCount == Some(SumOf(MentionsIn, initial, ids)) && n.accessCount == Some(SumOf(AccessesIn, initial, ids))
    && n.memoryLayer == Some(if exists id :: id in ids && initial[id].memoryLayer == Some("long_term") then "long_term"
                             else ValueOr(initial[ids[0]].memoryLayer, "short_term"))
    && FirstLongest(initial, ids, n.description)
    && n.coreFacts == AppendNew([], StrippedAll(strip, FactsOf(initial, ids)))
    && n.traits == AppendNew([], StrippedAll(strip, TraitsOf(initial, ids)))
    && n == initial[ids[0]].(mentionCount := n.mentionCount, accessCount := n.accessCount, memoryLayer := n.memoryLayer,
                             description := n.description, coreFacts := n.coreFacts, traits := n.traits, communityId := n.communityId)
  }

  /** Where no description is longer than the keeper's, the keeper's is the first longest. */
  lemma KeeperStaysLongest(entities: map<Id, Node>, ids: seq<Id>)
    requires ids != [] && forall id :: id in ids ==> id in entities
    ensures var own := entities[ids[0]].description;
            |Longest(entities, ids)| <= |ValueOr(own, "")| ==> FirstLongest(entities, ids, own)
  {
  }

  lemma LongestIsFirst(entities: map<Id, Node>, ids: seq<Id>, keeper: Node)
    requires ids != [] && (forall id :: id in ids ==> id in entities) && keeper.description == entities[ids[0]].description
    ensures FirstLongest(entities, ids, if |Longest(entities, ids)| > |TextOf(keeper.description)| then Some(Longest(entities, ids))
                                        else keeper.description)
  {
    KeeperStaysLongest(entities, ids);
    hide FirstLongest;
  }

  lemma LongTermIff(entities: map<Id, Node>, ids: seq<Id>)
    requires forall id :: id in ids ==> id in entities
    ensures (exists id :: id in ids && IsLongTerm(entities[id])) <==> exists id :: id in ids && entities[id].memoryLayer == Some("long_term")
  {
  }

  lemma IsSummedUp(strip: string -> string, initial: map<Id, Node>, ids: seq<Id>, n: Node)
    requires ids != [] && forall id :: id in ids ==> id in initial
    requires n.mentionCount == Some(SumOf(MentionsIn, initial, ids)) && n.accessCount == Some(SumOf(AccessesIn, initial, ids))
    requires FirstLongest(initial, ids, n.description)
    requires n.coreFacts == AppendNew([], StrippedAll(strip, FactsOf(initial, ids)))
    requires n.traits == AppendNew([], StrippedAll(strip, TraitsOf(initial, ids)))
    requires var hasLongTerm := exists id :: id in ids && initial[id].memoryLayer == Some("long_term");
             n == initial[ids[0]].(mentionCount := n.mentionCount, accessCount := n.accessCount,
                                   memoryLayer := Some(if hasLongTerm then "long_term" else ValueOr(initial[ids[0]].memoryLayer, "short_term")),
                                   description := n.description, coreFacts := n.coreFacts, traits := n.traits, communityId := n.communityId)
    ensures SumsUp(strip, initial, ids, n)
  {
    hide FirstLongest, AppendNew, StrippedAll, SumOf;
  }

  /** The final update of a keeper. */
  method UpdateKeeper(strip: string -> string, initial: map<Id, Node>, ids: seq<Id>, keeper: Node) returns (n: Node)
    requires ids != [] && forall id :: id in ids ==> id in initial
    requires keeper == initial[ids[0]].(communityId := keeper.communityId)
    ensures SumsUp(strip, initial, ids, n) && n.communityId == keeper.communityId
  {
    hide SumsUp, SumOf, Longest, StrippedAll, Stripped, AppendNew, FirstLongest, TextOf, FactsOf, TraitsOf, IsLongTerm;
    assert ids[0] in ids;
    var description := Longest(initial, ids);
    var facts := FlattenUnique(strip, FactsOf(initial, ids));
    var traits := FlattenUnique(strip, TraitsOf(initial, ids));
    var hasLongTerm := exists id :: id in ids && IsLongTerm(initial[id]);
    LongestIsFirst(initial, ids, keeper);
    LongTermIff(initial, ids);
    n := keeper.(
      description := if |description| > |TextOf(keeper.description)| then Some(description) else keeper.description,
      coreFacts := facts, traits := traits,
      accessCount := Some(SumOf(AccessesIn, initial, ids)), mentionCount := Some(SumOf(MentionsIn, initial, ids)),
      memoryLayer := if hasLongTerm then Some(LONG_TERM) else Some(if keeper.memoryLayer.Some? then keeper.memoryLayer.value else "short_term"));
    IsSummedUp(strip, initial, ids, n);
  }

  // ---- one group after the other ----

  /** The edges of duplicates are copied to the keeper in any order; `rows` are the matched ones. */
  method CopyMentions(mentions: set<Mention>, keeper: Id, duplicates: set<Id>) returns (mentions': set<Mention>)
    ensures mentions' == mentions + MentionsQuotient(OneGroup(keeper, duplicates), set m | m in mentions && m.entity in duplicates)
  {
    mentions' := mentions;
    var rows := set m | m in mentions && m.entity in duplicates;
    ghost var done: set<Mention> := {};
    var pending := rows;
    while pending != {}
      invariant done + pending == rows
      invariant mentions' == mentions + MentionsQuotient(OneGroup(keeper, duplicates), done)
      decreases |pending|
    {
      var m :| m in pending;
      mentions' := mentions' + {MovedMention(OneGroup(keeper, duplicates), m)};
      pending, done := pending - {m}, done + {m};
    }
    assert done == rows;
  }

  lemma GroupMentions(mentions: set<Mention>, keeper: Id, duplicates: set<Id>, copied: set<Mention>)
    requires keeper !in duplicates
    requires copied == mentions + MentionsQuotient(OneGroup(keeper, duplicates), set m | m in mentions && m.entity in duplicates)
    ensures (set m | m in copied && m.entity !in duplicates) == MentionsQuotient(OneGroup(keeper, duplicates), mentions)
  {
  }

  function RoleOr(role: Option<string>, stored: Option<string>): Option<string> {
    if role.Some? then role else if stored.Some? then stored else Some("")
  }

  /** What was copied to `key`, or was there before. */
  ghost function Sources(rep: map<Id, Id>, was: map<Involvement, Option<string>>, rows: set<Involvement>, key: Involvement): set<Involvement> {
    set v | v in was && (v == key || (v in rows && MovedInvolvement(rep, v) == key))
  }

  /** Copies of some involvements were made at the keeper. */
  ghost predicate InvolvesCopied(rep: map<Id, Id>, was: map<Involvement, Option<string>>, after: map<Involvement, Option<string>>, rows: set<Involvement>) {
    && (forall key :: key in after <==> Sources(rep, was, rows, key) != {})
    && (forall key :: key in after ==> RoleFrom(was, Sources(rep, was, rows, key), key, after[key]))
  }

  lemma NoInvolvementCopied(rep: map<Id, Id>, was: map<Involvement, Option<string>>)
    ensures InvolvesCopied(rep, was, was, {})
  {
    forall key
      ensures Sources(rep, was, {}, key) == if key in was then {key} else {}
    {
    }
    hide Sources;
  }

  lemma MovedAway(keeper: Id, duplicates: set<Id>, v: Involvement)
    requires keeper !in duplicates
    ensures MovedInvolvement(OneGroup(keeper, duplicates), v).entity == if v.entity in duplicates then keeper else v.entity
    ensures v.entity !in duplicates ==> MovedInvolvement(OneGroup(keeper, duplicates), v) == v
  {
  }

  lemma RoleStep(was: map<Involvement, Option<string>>, edges: set<Involvement>, v: Involvement, key: Involvement, stored: Option<string>)
    requires v in was && v != key && (stored.Some? ==> edges != {})
    requires RoleFrom(was, edges, key, stored)
    ensures RoleFrom(was, edges + {v}, key, RoleOr(was[v], stored))
  {
    var more := edges + {v};
    assert v in more;
    if was[v].None? && stored.Some? && !(exists u :: u in edges && was[u] == stored) {
      var u :| u in edges && u != key;
      assert u in more;
    } else if was[v].None? && stored.Some? {
      var u :| u in edges && was[u] == stored;
      assert u in more;
    }
  }

  lemma SourcesStep(rep: map<Id, Id>, was: map<Involvement, Option<string>>, done: set<Involvement>, v: Involvement, key: Involvement)
    requires v in was
    ensures Sources(rep, was, done + {v}, key) == Sources(rep, was, done, key) + if MovedInvolvement(rep, v) == key then {v} else {}
  {
    hide MovedInvolvement;
  }

  lemma MovedRoleStep(rep: map<Id, Id>, was: map<Involvement, Option<string>>, after: map<Involvement, Option<string>>, done: set<Involvement>,
                      v: Involvement, key: Involvement)
    requires InvolvesCopied(rep, was, after, done) && v in was && v != key
    ensures RoleFrom(was, Sources(rep, was, done, key) + {v}, key, RoleOr(was[v], if key in after then after[key] else None))
  {
    hide Sources, RoleOr;
    var edges := Sources(rep, was, done, key);
    assert key !in after ==> edges == {};
    RoleStep(was, edges, v, key, if key in after then after[key] else None);
  }

  lemma KeyStep(rep: map<Id, Id>, was: map<Involvement, Option<string>>, after: map<Involvement, Option<string>>, done: set<Involvement>,
                v: Involvement, moved: Involvement, role: Option<string>, key: Involvement)
    requires InvolvesCopied(rep, was, after, done) && v in was && MovedInvolvement(rep, v) == moved != v
    requires role == RoleOr(was[v], if moved in after then after[moved] else None)
    ensures key in after[moved := role] <==> Sources(rep, was, done + {v}, key) != {}
    ensures key in after[moved := role] ==> RoleFrom(was, Sources(rep, was, done + {v}, key), key, after[moved := role][key])
  {
    MovedRoleStep(rep, was, after, done, v, moved);
    SourcesStep(rep, was, done, v, key);
    hide MovedInvolvement, Sources, RoleOr, RoleFrom;
  }

  lemma IsCopied(rep: map<Id, Id>, was: map<Involvement, Option<string>>, after: map<Involvement, Option<string>>, rows: set<Involvement>)
    requires forall key :: key in after <==> Sources(rep, was, rows, key) != {}
    requires forall key :: key in after ==> RoleFrom(was, Sources(rep, was, rows, key), key, after[key])
    ensures InvolvesCopied(rep, was, after, rows)
  {
    hide Sources, RoleFrom;
  }

  lemma InvolvesStep(rep: map<Id, Id>, was: map<Involvement, Option<string>>, after: map<Involvement, Option<string>>, done: set<Involvement>,
                     v: Involvement, role: Option<string>)
    requires InvolvesCopied(rep, was, after, done) && v in was
    requires MovedInvolvement(rep, v) != v
    requires var key := MovedInvolvement(rep, v); role == RoleOr(was[v], if key in after then after[key] else None)
    ensures InvolvesCopied(rep, was, after[MovedInvolvement(rep, v) := role], done + {v})
  {
    hide *;
    var moved := MovedInvolvement(rep, v);
    var after' := after[moved := role];
    forall key
      ensures key in after' <==> Sources(rep, was, done + {v}, key) != {}
      ensures key in after' ==> RoleFrom(was, Sources(rep, was, done + {v}, key), key, after'[key])
    {
      KeyStep(rep, was, after, done, v, moved, role, key);
    }
    IsCopied(rep, was, after', done + {v});
  }

  method CopyInvolves(involves: map<Involvement, Option<string>>, keeper: Id, duplicates: set<Id>) returns (involves': map<Involvement, Option<string>>)
    requires keeper !in duplicates
    ensures InvolvesCopied(OneGroup(keeper, duplicates), involves, involves', set v | v in involves && v.entity in duplicates)
  {
    hide *;
    involves' := involves;
    var rows := set v | v in involves && v.entity in duplicates;
    var pending := rows;
    NoInvolvementCopied(OneGroup(keeper, duplicates), involves);
    assert rows - pending == {};
    while pending != {}
      invariant pending <= rows
      invariant forall v :: v in rows ==> v in involves' && involves'[v] == involves[v]
      invariant InvolvesCopied(OneGroup(keeper, duplicates), involves, involves', rows - pending)
      decreases |pending|
    {
      var v :| v in pending;
      var key := MovedInvolvement(OneGroup(keeper, duplicates), v);
      MovedAway(keeper, duplicates, v);
      var stored := if key in involves' then involves'[key] else None;
      InvolvesStep(OneGroup(keeper, duplicates), involves, involves', rows - pending, v, RoleOr(involves'[v], stored));
      involves' := involves'[key := RoleOr(involves'[v], stored)];
      assert (rows - pending) + {v} == rows - (pending - {v});
      pending := pending - {v};
    }
    assert rows - pending == rows;
  }

  lemma SourcesAreOriginals(involves: map<Involvement, Option<string>>, keeper: Id, duplicates: set<Id>, rows: set<Involvement>, key: Involvement)
    requires keeper !in duplicates && key.entity !in duplicates
    requires rows == set v | v in involves && v.entity in duplicates
    ensures Sources(OneGroup(keeper, duplicates), involves, rows, key) == Originals(OneGroup(keeper, duplicates), involves, key)
  {
  }

  lemma CopiedRole(rep: map<Id, Id>, was: map<Involvement, Option<string>>, after: map<Involvement, Option<string>>, rows: set<Involvement>,
                   key: Involvement)
    requires InvolvesCopied(rep, was, after, rows)
    ensures key in after <==> Sources(rep, was, rows, key) != {}
    ensures key in after ==> RoleFrom(was, Sources(rep, was, rows, key), key, after[key])
  {
    hide Sources, RoleFrom;
  }

  lemma IsQuotient(rep: map<Id, Id>, was: map<Involvement, Option<string>>, after: map<Involvement, Option<string>>)
    requires forall v :: v in was ==> MovedInvolvement(rep, v) in after
    requires forall key :: key in after ==> RoleKept(rep, was, key, after[key])
    ensures InvolvesQuotient(rep, was, after)
  {
    hide MovedInvolvement, RoleKept;
  }

  lemma IsSource(rep: map<Id, Id>, was: map<Involvement, Option<string>>, rows: set<Involvement>, v: Involvement)
    requires v in was && (v in rows || MovedInvolvement(rep, v) == v)
    ensures v in Sources(rep, was, rows, MovedInvolvement(rep, v))
  {
  }

  lemma GroupInvolves(involves: map<Involvement, Option<string>>, keeper: Id, duplicates: set<Id>, copied: map<Involvement, Option<string>>)
    requires keeper !in duplicates
    requires InvolvesCopied(OneGroup(keeper, duplicates), involves, copied, set v | v in involves && v.entity in duplicates)
    ensures InvolvesQuotient(OneGroup(keeper, duplicates), involves, map v | v in copied && v.entity !in duplicates :: copied[v])
  {
    var rep := OneGroup(keeper, duplicates);
    var rows := set v | v in involves && v.entity in duplicates;
    var after := map v | v in copied && v.entity !in duplicates :: copied[v];
    hide *;
    forall v | v in involves
      ensures MovedInvolvement(rep, v) in after
    {
      MovedAway(keeper, duplicates, v);
      IsSource(rep, involves, rows, v);
      CopiedRole(rep, involves, copied, rows, MovedInvolvement(rep, v));
    }
    forall key | key in after
      ensures RoleKept(rep, involves, key, after[key])
    {
      CopiedRole(rep, involves, copied, rows, key);
      SourcesAreOriginals(involves, keeper, duplicates, rows, key);
      IsKept(rep, involves, key, after[key]);
    }
    IsQuotient(rep, involves, after);
  }

  /** The keeper joins the communities of the duplicates; its own community stays, if it has one. */
  ghost predicate Joined(was: Node, after: Node, inCommunity: set<(Id, Id)>, duplicates: set<Id>) {
    && after == was.(communityId := after.communityId)
    && (was.communityId.Some? ==> after.communityId == was.communityId)
    && (was.communityId.None? ==>
          match after.communityId
          case Some(c) => exists d :: d in duplicates && (d, c) in inCommunity
          case None => forall p :: p in inCommunity ==> p.0 !in duplicates)
  }

  /** The community of a node once the memberships `done` were handled. */
  ghost predicate CommunityChosen(was: Node, after: Node, done: set<(Id, Id)>) {
    && after == was.(communityId := after.communityId)
    && (was.communityId.Some? ==> after.communityId == was.communityId)
    && (was.communityId.None? ==>
          match after.communityId
          case Some(c) => exists p :: p in done && p.1 == c
          case None => done == {})
  }

  lemma ChosenStep(was: Node, after: Node, done: set<(Id, Id)>, p: (Id, Id))
    requires CommunityChosen(was, after, done)
    ensures CommunityChosen(was, if after.communityId.None? then after.(communityId := Some(p.1)) else after, done + {p})
  {
  }

  lemma OneMembershipMore(rep: map<Id, Id>, done: set<(Id, Id)>, p: (Id, Id))
    ensures CommunityQuotient(rep, done + {p}) == CommunityQuotient(rep, done) + {(Rep(rep, p.0), p.1)}
  {
  }

  lemma ChosenIsJoined(was: Node, after: Node, inCommunity: set<(Id, Id)>, duplicates: set<Id>)
    requires CommunityChosen(was, after, set p | p in inCommunity && p.0 in duplicates)
    ensures Joined(was, after, inCommunity, duplicates)
  {
    var rows := set p | p in inCommunity && p.0 in duplicates;
    if was.communityId.None? {
      match after.communityId
      case Some(c) =>
        var p :| p in rows && p.1 == c;
        assert p == (p.0, c);
      case None =>
        forall p | p in inCommunity
          ensures p.0 !in duplicates
        {
          assert p !in rows;
        }
    }
  }

  method JoinCommunities(keeper: Id, node: Node, inCommunity: set<(Id, Id)>, duplicates: set<Id>)
    returns (node': Node, inCommunity': set<(Id, Id)>)
    ensures Joined(node, node', inCommunity, duplicates)
    ensures inCommunity' == inCommunity + CommunityQuotient(OneGroup(keeper, duplicates), set p | p in inCommunity && p.0 in duplicates)
  {
    node', inCommunity' := node, inCommunity;
    var rows := set p | p in inCommunity && p.0 in duplicates;
    ghost var done: set<(Id, Id)> := {};
    var pending := rows;
    while pending != {}
      invariant done + pending == rows
      invariant inCommunity' == inCommunity + CommunityQuotient(OneGroup(keeper, duplicates), done)
      invariant CommunityChosen(node, node', done)
      decreases |pending|
    {
      var p :| p in pending;
      assert p in rows;
      OneMembershipMore(OneGroup(keeper, duplicates), done, p);
      ChosenStep(node, node', done, p);
      hide CommunityChosen, CommunityQuotient, InvolvesQuotient;
      if node'.communityId.None? {
        node' := node'.(communityId := Some(p.1));
      }
      inCommunity' := inCommunity' + {(keeper, p.1)};
      pending, done := pending - {p}, done + {p};
    }
    assert done == rows;
    ChosenIsJoined(node, node', inCommunity, duplicates);
  }

  lemma GroupCommunities(inCommunity: set<(Id, Id)>, keeper: Id, duplicates: set<Id>, joined: set<(Id, Id)>)
    requires keeper !in duplicates
    requires joined == inCommunity + CommunityQuotient(OneGroup(keeper, duplicates), set p | p in inCommunity && p.0 in duplicates)
    ensures (set p | p in joined && p.0 !in duplicates) == CommunityQuotient(OneGroup(keeper, duplicates), inCommunity)
  {
  }

  /** All members of a group but the first. */
  function Duplicates(ids: seq<Id>): set<Id>
    requires ids != []
  {
    set id | id in ids && id != ids[0]
  }

  lemma InDuplicates(ids: seq<Id>, id: Id)
    requires ids != []
    ensures id in Duplicates(ids) <==> id in ids && id != ids[0]
  {
  }

  /** One group is merged: its edges move, the keeper sums up, and the duplicates go. */
  ghost predicate GroupMerged(strip: string -> string, initial: map<Id, Node>, was: Graph, after: Graph, ids: seq<Id>, duplicates: set<Id>) {
    && ids != []
    && after.entities.Keys == was.entities.Keys - duplicates && ids[0] in was.entities && ids[0] !in duplicates
    && (forall id :: id in after.entities && id != ids[0] ==> after.entities[id] == was.entities[id])
    && SumsUp(strip, initial, ids, after.entities[ids[0]])
    && Joined(was.entities[ids[0]], was.entities[ids[0]].(communityId := after.entities[ids[0]].communityId), was.inCommunity, duplicates)
    && after.mentions == MentionsQuotient(OneGroup(ids[0], duplicates), was.mentions)
    && RelationsQuotient(OneGroup(ids[0], duplicates), was.relations, after.relations)
    && after.inCommunity == CommunityQuotient(OneGroup(ids[0], duplicates), was.inCommunity)
    && InvolvesQuotient(OneGroup(ids[0], duplicates), was.involves, after.involves)
  }

  /** Outgoing, then incoming relations, then the deletion of what is left at the duplicates. */
  method CopyGroupRelations(relations: map<RelationKey, Relation>, keeper: Id, duplicates: set<Id>) returns (relations': map<RelationKey, Relation>)
    requires keeper !in duplicates
    ensures RelationsQuotient(OneGroup(keeper, duplicates), relations, relations')
  {
    var one := CopyRelations(relations, Outgoing(relations, keeper, duplicates), keeper, true);
    var two := CopyRelations(one, Incoming(one, keeper, duplicates), keeper, false);
    GroupRelations(relations, one, two, keeper, duplicates);
    relations' := WithoutEnds(two, duplicates);
  }

  method MergeGroup(strip: string -> string, initial: map<Id, Node>, g: Graph, ids: seq<Id>) returns (g': Graph)
    requires |ids| > 1 && Distinct(ids)
    requires forall id :: id in ids ==> id in initial && id in g.entities && g.entities[id] == initial[id]
    ensures GroupMerged(strip, initial, g, g', ids, Duplicates(ids))
  {
    hide MentionsQuotient, CommunityQuotient, RelationsQuotient, InvolvesQuotient, InvolvesCopied, Copied, SumsUp, Outgoing, Incoming, OneGroup, CopyOf;
    var keeper, gone := ids[0], Duplicates(ids);
    assert ids[0] in ids;
    var mentions := CopyMentions(g.mentions, keeper, gone);
    GroupMentions(g.mentions, keeper, gone, mentions);
    var copied := CopyInvolves(g.involves, keeper, gone);
    GroupInvolves(g.involves, keeper, gone, copied);
    var involvesLeft := map v | v in copied && v.entity !in gone :: copied[v];
    var relations := CopyGroupRelations(g.relations, keeper, gone);
    var node, inCommunity := JoinCommunities(keeper, g.entities[keeper], g.inCommunity, gone);
    GroupCommunities(g.inCommunity, keeper, gone, inCommunity);
    var summed := UpdateKeeper(strip, initial, ids, node);
    var mentionsLeft := set m | m in mentions && m.entity !in gone;
    var inCommunityLeft := set p | p in inCommunity && p.0 !in gone;
    g' := Graph(g.entities[keeper := summed] - gone, mentionsLeft, relations, inCommunityLeft, involvesLeft);
  }

  // ---- all groups ----

  ghost predicate KeeperMerged(lower: string -> string, strip: string -> string, order: seq<Id>, initial: Graph, key: Key, id: Id, n: Node)
    requires id in initial.entities
  {
    var ids := Members(lower, initial.entities, order, key);
    && ids != [] && ids[0] == id && SumsUp(strip, initial.entities, ids, n)
    && Joined(initial.entities[id], initial.entities[id].(communityId := n.communityId), initial.inCommunity, Duplicates(ids))
  }

  /** A node after the groups of `keys`: a keeper sums up its group, any other node is unchanged. */
  ghost predicate NodeMerged(lower: string -> string, strip: string -> string, order: seq<Id>, initial: Graph, keys: seq<Key>, id: Id, n: Node)
    requires id in initial.entities
  {
    var key := KeyOf(lower, initial.entities[id]);
    if key in keys then KeeperMerged(lower, strip, order, initial, key, id, n) else n == initial.entities[id]
  }

  /** Nodes after the groups of `keys`: duplicates are gone. */
  ghost predicate NodesMerged(lower: string -> string, strip: string -> string, order: seq<Id>, initial: Graph, keys: seq<Key>, nodes: map<Id, Node>) {
    && nodes.Keys == initial.entities.Keys - Representation(lower, initial.entities, order, keys).Keys
    && forall id :: id in nodes ==> id in initial.entities && NodeMerged(lower, strip, order, initial, keys, id, nodes[id])
  }

  ghost predicate EdgesMerged(rep: map<Id, Id>, initial: Graph, g: Graph) {
    && g.mentions == MentionsQuotient(rep, initial.mentions)
    && RelationsQuotient(rep, initial.relations, g.relations)
    && g.inCommunity == CommunityQuotient(rep, initial.inCommunity)
    && InvolvesQuotient(rep, initial.involves, g.involves)
  }

  ghost predicate SameTotals(order: seq<Id>, was: map<Id, Node>, after: map<Id, Node>) {
    && SumOf(MentionsIn, after, order) == SumOf(MentionsIn, was, order)
    && SumOf(AccessesIn, after, order) == SumOf(AccessesIn, was, order)
  }

  /** The graph is the quotient of the initial one by the groups of `keys`. */
  ghost predicate Quotient(lower: string -> string, strip: string -> string, order: seq<Id>, initial: Graph, keys: seq<Key>, g: Graph) {
    && NodesMerged(lower, strip, order, initial, keys, g.entities)
    && EdgesMerged(Representation(lower, initial.entities, order, keys), initial, g)
    && SameTotals(order, initial.entities, g.entities)
  }

  lemma RelationsUnmoved(relations: map<RelationKey, Relation>)
    ensures RelationsQuotient(map[], relations, relations)
  {
    forall key | key in relations
      ensures MovedKey(map[], key) == key && Carries(map[], relations, relations, key, key)
    {
    }
  }

  lemma EdgesUnmoved(initial: Graph)
    ensures EdgesMerged(map[], initial, initial)
  {
    forall m: Mention
      ensures MovedMention(map[], m) == m
    {
    }
    forall p: (Id, Id)
      ensures (Rep(map[], p.0), p.1) == p
    {
    }
    forall v: Involvement
      ensures MovedInvolvement(map[], v) == v
    {
    }
    RelationsUnmoved(initial.relations);
    hide RelationsQuotient, MovedMention, MovedInvolvement, Rep;
    assert MentionsQuotient(map[], initial.mentions) == initial.mentions;
    assert CommunityQuotient(map[], initial.inCommunity) == initial.inCommunity;
    forall v | v in initial.involves
      ensures RoleKept(map[], initial.involves, v, initial.involves[v])
    {
      assert Originals(map[], initial.involves, v) == {v};
      assert v in {v};
    }
  }

  lemma NothingMergedYet(lower: string -> string, strip: string -> string, order: seq<Id>, initial: Graph)
    ensures Quotient(lower, strip, order, initial, [], initial)
  {
    var rep := Representation(lower, initial.entities, order, []);
    assert rep == map[];
    EdgesUnmoved(initial);
    hide EdgesMerged, KeeperMerged;
  }

  /** The members of the next group have not been touched. */
  lemma NextGroup(lower: string -> string, strip: string -> string, order: seq<Id>, initial: Graph, keys: seq<Key>, n: nat, nodes: map<Id, Node>)
    requires Distinct(order) && DuplicateKeys(lower, initial.entities, order, keys) && n < |keys|
    requires NodesMerged(lower, strip, order, initial, keys[..n], nodes)
    ensures var ids := Members(lower, initial.entities, order, keys[n]);
            && |ids| > 1 && Distinct(ids)
            && forall id :: id in ids ==> id in initial.entities && id in nodes && nodes[id] == initial.entities[id]
    ensures forall id :: id in initial.entities && KeyOf(lower, initial.entities[id]) == keys[n] ==> id in nodes && nodes[id] == initial.entities[id]
  {
    MembersAre(lower, initial.entities, order, keys[n]);
    MembersDistinct(lower, initial.entities, order, keys[n]);
    assert keys[n] in keys && keys[n] !in keys[..n];
    hide SumsUp, Joined, Members;
  }

  lemma NextEdges(first: map<Id, Id>, second: map<Id, Id>, both: map<Id, Id>, initial: Graph, was: Graph, after: Graph)
    requires Composes(first, second, both)
    requires EdgesMerged(first, initial, was)
    requires after.mentions == MentionsQuotient(second, was.mentions)
    requires RelationsQuotient(second, was.relations, after.relations)
    requires after.inCommunity == CommunityQuotient(second, was.inCommunity)
    requires InvolvesQuotient(second, was.involves, after.involves)
    ensures EdgesMerged(both, initial, after)
  {
    MentionsCompose(first, second, both, initial.mentions);
    RelationsCompose(first, second, both, initial.relations, was.relations, after.relations);
    CommunitiesCompose(first, second, both, initial.inCommunity);
    InvolvesCompose(first, second, both, initial.involves, was.involves, after.involves);
    hide MentionsQuotient, RelationsQuotient, CommunityQuotient, InvolvesQuotient;
  }

  /** Entities outside a representation keep their communities. */
  lemma CommunitiesOfOthers(rep: map<Id, Id>, inCommunity: set<(Id, Id)>, was: Node, after: Node, duplicates: set<Id>)
    requires forall id :: id in rep ==> id !in duplicates && rep[id] !in duplicates
    requires Joined(was, after, CommunityQuotient(rep, inCommunity), duplicates)
    ensures Joined(was, after, inCommunity, duplicates)
  {
  }

  lemma NodesOf(lower: string -> string, strip: string -> string, order: seq<Id>, initial: Graph, keys: seq<Key>, nodes: map<Id, Node>)
    requires NodesMerged(lower, strip, order, initial, keys, nodes)
    ensures nodes.Keys == initial.entities.Keys - Representation(lower, initial.entities, order, keys).Keys
    ensures forall id :: id in nodes ==> id in initial.entities && NodeMerged(lower, strip, order, initial, keys, id, nodes[id])
  {
  }

  lemma AllNodes(lower: string -> string, strip: string -> string, order: seq<Id>, initial: Graph, keys: seq<Key>, nodes: map<Id, Node>)
    requires nodes.Keys == initial.entities.Keys - Representation(lower, initial.entities, order, keys).Keys
    requires forall id :: id in nodes ==> id in initial.entities && NodeMerged(lower, strip, order, initial, keys, id, nodes[id])
    ensures NodesMerged(lower, strip, order, initial, keys, nodes)
  {
  }

  lemma GroupNodes(strip: string -> string, initial: map<Id, Node>, was: Graph, after: Graph, ids: seq<Id>, duplicates: set<Id>)
    requires GroupMerged(strip, initial, was, after, ids, duplicates)
    ensures ids != [] && after.entities.Keys == was.entities.Keys - duplicates && ids[0] in was.entities && ids[0] !in duplicates
    ensures forall id :: id in after.entities && id != ids[0] ==> after.entities[id] == was.entities[id]
  {
  }

  lemma NodeStep(lower: string -> string, strip: string -> string, order: seq<Id>, initial: Graph, keys: seq<Key>, n: nat, id: Id, was: Node, after: Node)
    requires n < |keys| && id in initial.entities && NodeMerged(lower, strip, order, initial, keys[..n], id, was)
    requires if KeyOf(lower, initial.entities[id]) == keys[n] then KeeperMerged(lower, strip, order, initial, keys[n], id, after) else after == was
    ensures NodeMerged(lower, strip, order, initial, keys[..n + 1], id, after)
  {
  }

  lemma GroupsApart(lower: string -> string, order: seq<Id>, initial: Graph, keys: seq<Key>, n: nat, duplicates: set<Id>)
    requires forall id :: id in order <==> id in initial.entities
    requires DuplicateKeys(lower, initial.entities, order, keys) && n < |keys|
    requires var ids := Members(lower, initial.entities, order, keys[n]);
             ids != [] && duplicates == Duplicates(ids)
    ensures var first := Representation(lower, initial.entities, order, keys[..n]);
            forall id :: id in first ==> id !in duplicates && first[id] !in duplicates
  {
    var first := Representation(lower, initial.entities, order, keys[..n]);
    MembersAre(lower, initial.entities, order, keys[n]);
    KeepersHaveKeys(lower, initial.entities, order, keys);
    assert keys[n] !in keys[..n];
    hide Members, DuplicateKeys, KeyOf;
    forall id | id in first
      ensures id !in duplicates && first[id] !in duplicates
    {
      assert KeyOf(lower, initial.entities[id]) in keys[..n];
      assert KeyOf(lower, initial.entities[id]) in keys;
    }
  }

  lemma NextKeeper(lower: string -> string, strip: string -> string, order: seq<Id>, initial: Graph, keys: seq<Key>, n: nat,
                   was: Graph, after: Graph, duplicates: set<Id>)
    requires forall id :: id in order <==> id in initial.entities
    requires DuplicateKeys(lower, initial.entities, order, keys) && n < |keys|
    requires was.inCommunity == CommunityQuotient(Representation(lower, initial.entities, order, keys[..n]), initial.inCommunity)
    requires var ids := Members(lower, initial.entities, order, keys[n]);
             && ids != [] && duplicates == Duplicates(ids) && GroupMerged(strip, initial.entities, was, after, ids, duplicates)
             && ids[0] in initial.entities && was.entities[ids[0]] == initial.entities[ids[0]]
    ensures var ids := Members(lower, initial.entities, order, keys[n]);
            KeeperMerged(lower, strip, order, initial, keys[n], ids[0], after.entities[ids[0]])
  {
    var keeper := Members(lower, initial.entities, order, keys[n])[0];
    GroupsApart(lower, order, initial, keys, n, duplicates);
    hide Members, SumsUp, Joined, DuplicateKeys, CommunityQuotient, InvolvesQuotient, MentionsQuotient, RelationsQuotient, Representation;
    CommunitiesOfOthers(Representation(lower, initial.entities, order, keys[..n]), initial.inCommunity, was.entities[keeper],
                        was.entities[keeper].(communityId := after.entities[keeper].communityId), duplicates);
  }

  lemma NextRepresented(lower: string -> string, order: seq<Id>, initial: Graph, keys: seq<Key>, n: nat, duplicates: set<Id>)
    requires forall id :: id in order <==> id in initial.entities
    requires n < |keys|
    requires var ids := Members(lower, initial.entities, order, keys[n]);
             ids != [] && duplicates == Duplicates(ids)
    ensures Representation(lower, initial.entities, order, keys[..n + 1]).Keys ==
            Representation(lower, initial.entities, order, keys[..n]).Keys + duplicates
  {
    MembersAre(lower, initial.entities, order, keys[n]);
    assert keys[..n + 1] == keys[..n] + [keys[n]];
    hide Members, KeyOf;
  }

  lemma NextNodes(lower: string -> string, strip: string -> string, order: seq<Id>, initial: Graph, keys: seq<Key>, n: nat,
                  was: Graph, after: Graph, duplicates: set<Id>)
    requires Distinct(order) && (forall id :: id in order <==> id in initial.entities)
    requires DuplicateKeys(lower, initial.entities, order, keys) && n < |keys|
    requires NodesMerged(lower, strip, order, initial, keys[..n], was.entities)
    requires was.inCommunity == CommunityQuotient(Representation(lower, initial.entities, order, keys[..n]), initial.inCommunity)
    requires var ids := Members(lower, initial.entities, order, keys[n]);
             ids != [] && duplicates == Duplicates(ids) && GroupMerged(strip, initial.entities, was, after, ids, duplicates)
    ensures NodesMerged(lower, strip, order, initial, keys[..n + 1], after.entities)
  {
    hide *;
    var ids := Members(lower, initial.entities, order, keys[n]);
    var rep, rep' := Representation(lower, initial.entities, order, keys[..n]), Representation(lower, initial.entities, order, keys[..n + 1]);
    MembersAre(lower, initial.entities, order, keys[n]);
    NextGroup(lower, strip, order, initial, keys, n, was.entities);
    assert ids[0] in ids;
    NextKeeper(lower, strip, order, initial, keys, n, was, after, duplicates);
    NextRepresented(lower, order, initial, keys, n, duplicates);
    GroupNodes(strip, initial.entities, was, after, ids, duplicates);
    NodesOf(lower, strip, order, initial, keys[..n], was.entities);
    assert after.entities.Keys == initial.entities.Keys - rep'.Keys;
    forall id | id in after.entities
      ensures id in initial.entities && NodeMerged(lower, strip, order, initial, keys[..n + 1], id, after.entities[id])
    {
      assert id in was.entities && id !in duplicates;
      InDuplicates(ids, id);
      NodeStep(lower, strip, order, initial, keys, n, id, was.entities[id], after.entities[id]);
    }
    AllNodes(lower, strip, order, initial, keys[..n + 1], after.entities);
  }

  lemma NextTotals(lower: string -> string, strip: string -> string, order: seq<Id>, initial: Graph, key: Key, was: Graph, after: Graph,
                   duplicates: set<Id>)
    requires Distinct(order) && (forall id :: id in order <==> id in initial.entities)
    requires var ids := Members(lower, initial.entities, order, key);
             ids != [] && duplicates == Duplicates(ids) && GroupMerged(strip, initial.entities, was, after, ids, duplicates)
    requires forall id :: id in initial.entities && KeyOf(lower, initial.entities[id]) == key ==>
                            id in was.entities && was.entities[id] == initial.entities[id]
    requires SameTotals(order, initial.entities, was.entities)
    ensures SameTotals(order, initial.entities, after.entities)
  {
    var ids := Members(lower, initial.entities, order, key);
    MembersAre(lower, initial.entities, order, key);
    assert ids[0] in ids;
    GroupTotal(MentionsIn, lower, initial.entities, was.entities, after.entities, order, key, ids[0]);
    GroupTotal(AccessesIn, lower, initial.entities, was.entities, after.entities, order, key, ids[0]);
    hide Members, Joined, MentionsQuotient, RelationsQuotient, CommunityQuotient, InvolvesQuotient, SumOf;
  }

  lemma NextQuotient(lower: string -> string, strip: string -> string, order: seq<Id>, initial: Graph, keys: seq<Key>, n: nat,
                     was: Graph, after: Graph, duplicates: set<Id>)
    requires Distinct(order) && (forall id :: id in order <==> id in initial.entities)
    requires DuplicateKeys(lower, initial.entities, order, keys) && n < |keys|
    requires Quotient(lower, strip, order, initial, keys[..n], was)
    requires var ids := Members(lower, initial.entities, order, keys[n]);
             ids != [] && duplicates == Duplicates(ids) && GroupMerged(strip, initial.entities, was, after, ids, duplicates)
    ensures Quotient(lower, strip, order, initial, keys[..n + 1], after)
  {
    hide Members, SumsUp, Joined, DuplicateKeys, MentionsQuotient, RelationsQuotient, CommunityQuotient, InvolvesQuotient, NodesMerged, Composes, Representation,
         SameTotals, OneGroup;
    NextGroup(lower, strip, order, initial, keys, n, was.entities);
    NextNodes(lower, strip, order, initial, keys, n, was, after, duplicates);
    MembersAre(lower, initial.entities, order, keys[n]);
    GroupsCompose(lower, initial.entities, order, keys, n, duplicates);
    NextEdges(Representation(lower, initial.entities, order, keys[..n]),
              OneGroup(KeeperOf(lower, initial.entities, order, keys[n]), duplicates),
              Representation(lower, initial.entities, order, keys[..n + 1]), initial, was, after);
    NextTotals(lower, strip, order, initial, keys[n], was, after, duplicates);
  }

  lemma {:induction false} OthersCount(ids: seq<Id>)
    requires ids != [] && Distinct(ids)
    ensures |Duplicates(ids)| == |ids| - 1
  {
    var others := Duplicates(ids);
    if |ids| == 1 {
      assert others == {};
    } else {
      var early, last := ids[..|ids| - 1], ids[|ids| - 1];
      assert ids == early + [last];
      OthersCount(early);
      assert others == Duplicates(early) + {last};
    }
  }

  lemma QuotientNodes(lower: string -> string, strip: string -> string, order: seq<Id>, initial: Graph, keys: seq<Key>, g: Graph)
    requires Quotient(lower, strip, order, initial, keys, g)
    ensures NodesMerged(lower, strip, order, initial, keys, g.entities)
  {
  }

  lemma FewerNodes(strip: string -> string, initial: map<Id, Node>, was: Graph, after: Graph, ids: seq<Id>, duplicates: set<Id>)
    requires Distinct(ids) && ids != [] && duplicates == Duplicates(ids)
    requires forall id :: id in ids ==> id in was.entities
    requires GroupMerged(strip, initial, was, after, ids, duplicates)
    ensures |after.entities| == |was.entities| - (|ids| - 1)
  {
    OthersCount(ids);
    assert duplicates <= was.entities.Keys;
    assert |after.entities.Keys| == |was.entities.Keys| - |duplicates|;
  }

  lemma ListingIs(now: Time, entities: map<Id, Node>, order: seq<Id>)
    requires Listing(now, entities, order)
    ensures Distinct(order) && forall id :: id in order <==> id in entities
  {
  }

  class Repository {
    var graph: Graph

    constructor (graph: Graph)
      ensures this.graph == graph
    {
      this.graph := graph;
    }

    /** Merges every group of duplicates. `order` lists the entities as the grouping query sorts them,
        and `keys` are the groups it returns, in any order. */
    method MergeDuplicateEntities(lower: string -> string, strip: string -> string, now: Time, order: seq<Id>, keys: seq<Key>)
      returns (removedEntities: nat, mergedGroups: nat)
      requires Listing(now, graph.entities, order) && DuplicateKeys(lower, graph.entities, order, keys)
      modifies this
      ensures Quotient(lower, strip, order, old(graph), keys, graph)
      ensures removedEntities == |old(graph).entities| - |graph.entities| && mergedGroups == |keys|
    {
      hide *;
      var initial := graph.entities;
      ghost var before := graph;
      removedEntities, mergedGroups := 0, 0;
      NothingMergedYet(lower, strip, order, graph);
      ListingIs(now, initial, order);
      assert keys[..0] == [];
      for n := 0 to |keys|
        invariant Quotient(lower, strip, order, before, keys[..n], graph)
        invariant removedEntities == |initial| - |graph.entities| && mergedGroups == n
      {
        var ids := Members(lower, initial, order, keys[n]);
        QuotientNodes(lower, strip, order, before, keys[..n], graph);
        NextGroup(lower, strip, order, before, keys, n, graph.entities);
        var merged := MergeGroup(strip, initial, graph, ids);
        NextQuotient(lower, strip, order, before, keys, n, graph, merged, Duplicates(ids));
        FewerNodes(strip, initial, graph, merged, ids, Duplicates(ids));
        graph := merged;
        removedEntities, mergedGroups := removedEntities + |ids[1..]|, mergedGroups + 1;
      }
      assert keys[..|keys|] == keys;
    }
  }

  // ---- what the quotient means ----

  /** A statement mentions a survivor exactly when it mentioned a member of the survivor's class. */
  lemma MentionedIff(rep: map<Id, Id>, initial: Graph, g: Graph, statement: Id, survivor: Id)
    requires EdgesMerged(rep, initial, g)
    ensures (exists m :: m in g.mentions && m.statement == statement && m.entity == survivor)
       <==> (exists m :: m in initial.mentions && m.statement == statement && Rep(rep, m.entity) == survivor)
  {
    if m :| m in initial.mentions && m.statement == statement && Rep(rep, m.entity) == survivor {
      assert MovedMention(rep, m) in g.mentions && MovedMention(rep, m).statement == statement && MovedMention(rep, m).entity == survivor;
    }
  }

  /** Between different survivors a relation exists exactly when one existed between their classes;
      a loop exists exactly when the survivor itself had it. */
  lemma RelatedIff(rep: map<Id, Id>, initial: Graph, g: Graph, source: Id, id: Id, target: Id)
    requires EdgesMerged(rep, initial, g)
    requires Rep(rep, source) == source && Rep(rep, target) == target
    ensures RelationKey(source, id, target) in g.relations
       <==> if source == target then RelationKey(source, id, source) in initial.relations
            else exists key :: key in initial.relations && MovedKey(rep, key) == RelationKey(source, id, target)
  {
    var moved := RelationKey(source, id, target);
    if moved in g.relations {
      var from :| Carries(rep, initial.relations, g.relations, moved, from);
      assert from in initial.relations && MovedKey(rep, from) == moved;
    }
    if source != target {
      forall key | key in initial.relations && MovedKey(rep, key) == moved
        ensures moved in g.relations
      {
        assert Survives(rep, key);
      }
    } else if RelationKey(source, id, source) in initial.relations {
      assert Survives(rep, RelationKey(source, id, source));
    }
  }

  /** A survivor is in one community at most exactly when the communities of its class agreed. */
  lemma OneCommunityIff(rep: map<Id, Id>, initial: Graph, g: Graph, survivor: Id)
    requires EdgesMerged(rep, initial, g)
    ensures (forall c, d :: (survivor, c) in g.inCommunity && (survivor, d) in g.inCommunity ==> c == d)
       <==> (forall p, q :: (p in initial.inCommunity && q in initial.inCommunity && Rep(rep, p.0) == survivor && Rep(rep, q.0) == survivor)
                              ==> p.1 == q.1)
  {
    if forall c, d :: (survivor, c) in g.inCommunity && (survivor, d) in g.inCommunity ==> c == d {
      forall p, q | p in initial.inCommunity && q in initial.inCommunity && Rep(rep, p.0) == survivor && Rep(rep, q.0) == survivor
        ensures p.1 == q.1
      {
        assert (survivor, p.1) in g.inCommunity && (survivor, q.1) in g.inCommunity;
      }
    }
  }

  /** Two members of different communities leave the keeper in both. */
  lemma KeeperInTwoCommunities(initial: Graph, g: Graph)
    requires EdgesMerged(map["b" := "a"], initial, g)
    requires initial.inCommunity == {("a", "x"), ("b", "y")}
    ensures g.inCommunity == {("a", "x"), ("a", "y")}
  {
    var rep := map["b" := "a"];
    assert Rep(rep, "a") == "a" && Rep(rep, "b") == "a";
    assert ("a", "x") in initial.inCommunity && ("b", "y") in initial.inCommunity;
    hide RelationsQuotient, InvolvesQuotient, MentionsQuotient;
  }

  /** Mentions are summed up entity by entity, a missing count being 0; so are uses. */
  lemma {:induction false} CountsAdd(entities: map<Id, Node>, ids: seq<Id>, more: seq<Id>, id: Id)
    requires id in entities
    ensures SumOf(MentionsIn, entities, [id]) == ValueOr(entities[id].mentionCount, 0)
    ensures SumOf(AccessesIn, entities, [id]) == ValueOr(entities[id].accessCount, 0)
    ensures SumOf(MentionsIn, entities, ids + more) == SumOf(MentionsIn, entities, ids) + SumOf(MentionsIn, entities, more)
    ensures SumOf(AccessesIn, entities, ids + more) == SumOf(AccessesIn, entities, ids) + SumOf(AccessesIn, entities, more)
  {
    assert [id][..0] == [] && SumOf(MentionsIn, entities, []) == SumOf(AccessesIn, entities, []) == 0;
    if more == [] {
      assert ids + more == ids;
    } else {
      var early := more[..|more| - 1];
      CountsAdd(entities, ids, early, id);
      assert (ids + more)[..|ids + more| - 1] == ids + early;
    }
  }

  /** The keeper of a group is long-term if any member is; among members of its layer it is the oldest,
      of those the most mentioned, and of those the most used. */
  lemma KeeperIsPreferred(lower: string -> string, now: Time, entities: map<Id, Node>, order: seq<Id>, key: Key, id: Id)
    requires Listing(now, entities, order) && id in Members(lower, entities, order, key)
    ensures var keeper := Members(lower, entities, order, key)[0];
            && keeper in entities && id in entities
            && var k, m := entities[keeper], entities[id];
               && (m.memoryLayer == Some("long_term") ==> k.memoryLayer == Some("long_term"))
               && ((k.memoryLayer == Some("long_term") <==> m.memoryLayer == Some("long_term")) ==>
                     && ValueOr(k.createdAt, now) <= ValueOr(m.createdAt, now)
                     && (ValueOr(k.createdAt, now) == ValueOr(m.createdAt, now) ==>
                           && ValueOr(k.mentionCount, 0) >= ValueOr(m.mentionCount, 0)
                           && (ValueOr(k.mentionCount, 0) == ValueOr(m.mentionCount, 0) ==>
                                 ValueOr(k.accessCount, 0) >= ValueOr(m.accessCount, 0))))
  {
    FirstIsBest(lower, now, entities, order, key);
    hide Members;
  }

  /** A present property stays, a missing one gets a default. */
  ghost predicate Kept<T>(was: Option<T>, after: Option<T>, missing: T) {
    after == Some(ValueOr(was, missing))
  }

  /** Moving a relation changes its ends and fills in what is missing; nothing else. */
  ghost predicate PropertiesKept(was: Relation, after: Relation) {
    && after.name == was.name && after.evidence == was.evidence && after.statementId == was.statementId
    && after.validAt == was.validAt && after.invalidAt == was.invalidAt && after.lastAccessAt == was.lastAccessAt
    && Kept(was.importance, after.importance, 0.5) && Kept(was.confidence, after.confidence, 0.8)
    && Kept(was.accessCount, after.accessCount, 0) && Kept(was.memoryLayer, after.memoryLayer, "short_term")
  }

  /** `id` is replaced by `after`. */
  ghost predicate ReplacedBy(rep: map<Id, Id>, id: Id, after: Id) {
    after == if id in rep then rep[id] else id
  }

  /** Every relation that is left was one before, with the same id and between the same classes. Its
      properties are as they were if it has the same ends, and kept as when moving otherwise. */
  lemma RelationsKeepProperties(rep: map<Id, Id>, initial: Graph, g: Graph, key: RelationKey)
    requires EdgesMerged(rep, initial, g) && key in g.relations
    ensures exists from :: from in initial.relations
              && from.id == key.id && ReplacedBy(rep, from.source, key.source) && ReplacedBy(rep, from.target, key.target)
              && (if from == key then g.relations[key] == initial.relations[from]
                  else PropertiesKept(initial.relations[from], g.relations[key]))
  {
    hide InvolvesQuotient;
    var from :| Carries(rep, initial.relations, g.relations, key, from);
    assert from in initial.relations;
  }

  ghost predicate MentionMoves(rep: map<Id, Id>, was: Mention, after: Mention) {
    if was.entity !in rep || rep[was.entity] == was.entity then after == was
    else after == Mention(was.statement, Some(ValueOr(was.id, was.statement + ":" + rep[was.entity])), rep[was.entity])
  }

  ghost predicate InvolvementMoves(rep: map<Id, Id>, was: Involvement, after: Involvement) {
    if was.entity !in rep || rep[was.entity] == was.entity then after == was
    else after == Involvement(was.event, Some(ValueOr(was.id, was.event + ":" + rep[was.entity])), rep[was.entity])
  }

  lemma MentionMovesTo(rep: map<Id, Id>, m: Mention, after: Mention)
    ensures MentionMoves(rep, m, after) <==> after == MovedMention(rep, m)
  {
  }

  lemma InvolvementMovesTo(rep: map<Id, Id>, v: Involvement, after: Involvement)
    ensures InvolvementMoves(rep, v, after) <==> after == MovedInvolvement(rep, v)
  {
  }

  /** Mentions and involvements end at the keepers under their own ids; one without id gets one of its
      other end and the keeper. None is left out and none is new. */
  lemma EdgesKeepIds(rep: map<Id, Id>, initial: Graph, g: Graph)
    requires EdgesMerged(rep, initial, g)
    ensures forall m :: m in g.mentions <==> exists was :: was in initial.mentions && MentionMoves(rep, was, m)
    ensures forall v :: v in g.involves <==> exists was :: was in initial.involves && InvolvementMoves(rep, was, v)
  {
    hide RelationsQuotient, RoleFrom;
    forall m
      ensures m in g.mentions <==> exists was :: was in initial.mentions && MentionMoves(rep, was, m)
    {
      forall was
        ensures MentionMoves(rep, was, m) <==> m == MovedMention(rep, was)
      {
        MentionMovesTo(rep, was, m);
      }
    }
    forall v
      ensures v in g.involves <==> exists was :: was in initial.involves && InvolvementMoves(rep, was, v)
    {
      forall was
        ensures InvolvementMoves(rep, was, v) <==> v == MovedInvolvement(rep, was)
      {
        InvolvementMovesTo(rep, was, v);
      }
      hide MovedInvolvement, InvolvementMoves;
      if v in g.involves {
        assert RoleKept(rep, initial.involves, v, g.involves[v]);
        assert Originals(rep, initial.involves, v) != {};
      }
    }
  }

  /** Two entities of one type with the same lower-case name, which is not empty. */
  ghost predicate Namesakes(lower: string -> string, entities: map<Id, Node>, a: Id, b: Id) {
    a in entities && b in entities && lower(entities[a].name) == lower(entities[b].name) != "" && entities[a].kind == entities[b].kind
  }

  lemma NamesakesShareKeys(lower: string -> string, entities: map<Id, Node>, a: Id, b: Id)
    requires a in entities && b in entities
    ensures Namesakes(lower, entities, a, b) <==> KeyOf(lower, entities[a]) == KeyOf(lower, entities[b]) && KeyOf(lower, entities[a]).0 != ""
  {
  }

  lemma DuplicateHasKeeper(lower: string -> string, order: seq<Id>, initial: Graph, keys: seq<Key>, id: Id)
    requires DuplicateKeys(lower, initial.entities, order, keys)
    requires id in Representation(lower, initial.entities, order, keys)
    ensures var rep := Representation(lower, initial.entities, order, keys);
            rep[id] in initial.entities && rep[id] !in rep && rep[id] != id && Namesakes(lower, initial.entities, id, rep[id])
  {
    var key := KeyOf(lower, initial.entities[id]);
    assert key in keys;
    KeepersHaveKeys(lower, initial.entities, order, keys);
    NamesakesShareKeys(lower, initial.entities, id, KeeperOf(lower, initial.entities, order, key));
    hide KeyOf, KeeperOf, Namesakes, Members;
  }

  lemma MoreThanOne(ids: seq<Id>, a: Id, b: Id)
    requires a in ids && b in ids && a != b
    ensures |ids| > 1
  {
  }

  lemma NamesakesAreDuplicates(lower: string -> string, order: seq<Id>, initial: Graph, keys: seq<Key>, a: Id, b: Id)
    requires Distinct(order) && (forall id :: id in order <==> id in initial.entities)
    requires DuplicateKeys(lower, initial.entities, order, keys)
    requires Namesakes(lower, initial.entities, a, b) && a != b
    ensures var rep := Representation(lower, initial.entities, order, keys);
            a in rep || b in rep
  {
    var key := KeyOf(lower, initial.entities[a]);
    MembersAre(lower, initial.entities, order, key);
    NamesakesShareKeys(lower, initial.entities, a, b);
    hide Namesakes, Members;
    MoreThanOne(Members(lower, initial.entities, order, key), a, b);
    assert key in keys;
  }

  lemma AloneIsNoDuplicate(lower: string -> string, order: seq<Id>, initial: Graph, keys: seq<Key>, id: Id)
    requires Distinct(order) && DuplicateKeys(lower, initial.entities, order, keys) && id in initial.entities
    requires forall other :: Namesakes(lower, initial.entities, id, other) ==> other == id
    ensures KeyOf(lower, initial.entities[id]) !in keys
  {
    var key := KeyOf(lower, initial.entities[id]);
    var members := Members(lower, initial.entities, order, key);
    MembersAre(lower, initial.entities, order, key);
    MembersDistinct(lower, initial.entities, order, key);
    if key in keys {
      assert members[0] in members && members[1] in members && members[0] != members[1];
      NamesakesShareKeys(lower, initial.entities, id, members[0]);
      NamesakesShareKeys(lower, initial.entities, id, members[1]);
      hide Namesakes, Members, KeyOf;
    }
  }

  /** Who stands for whom: exactly one of several namesakes is left and stands for the others; an entity
      without a namesake stays as it is. */
  lemma NamesakesMerge(lower: string -> string, strip: string -> string, now: Time, order: seq<Id>, initial: Graph, keys: seq<Key>, g: Graph)
    requires Listing(now, initial.entities, order) && DuplicateKeys(lower, initial.entities, order, keys)
    requires Quotient(lower, strip, order, initial, keys, g)
    ensures var rep := Representation(lower, initial.entities, order, keys);
            && (forall id :: id in g.entities <==> id in initial.entities && id !in rep)
            && (forall id :: id in rep ==> rep[id] in g.entities && rep[id] != id && Namesakes(lower, initial.entities, id, rep[id]))
            && (forall a, b :: Namesakes(lower, initial.entities, a, b) && a in g.entities && b in g.entities ==> a == b)
            && (forall id :: id in initial.entities && (forall other :: Namesakes(lower, initial.entities, id, other) ==> other == id) ==>
                  id in g.entities && g.entities[id] == initial.entities[id])
  {
    var rep := Representation(lower, initial.entities, order, keys);
    QuotientNodes(lower, strip, order, initial, keys, g);
    NodesOf(lower, strip, order, initial, keys, g.entities);
    assert g.entities.Keys == initial.entities.Keys - rep.Keys;
    hide Quotient, KeeperMerged, Namesakes, DuplicateKeys, NodesMerged, KeeperOf, KeyOf, Precedes;
    forall id | id in rep
      ensures rep[id] in g.entities && rep[id] != id && Namesakes(lower, initial.entities, id, rep[id])
    {
      DuplicateHasKeeper(lower, order, initial, keys, id);
    }
    forall a, b | Namesakes(lower, initial.entities, a, b) && a in g.entities && b in g.entities
      ensures a == b
    {
      if a != b {
        NamesakesAreDuplicates(lower, order, initial, keys, a, b);
      }
    }
    forall id | id in initial.entities && forall other :: Namesakes(lower, initial.entities, id, other) ==> other == id
      ensures id in g.entities && g.entities[id] == initial.entities[id]
    {
      AloneIsNoDuplicate(lower, order, initial, keys, id);
    }
  }

  lemma SomeKey(keys: seq<Key>)
    requires keys != []
    ensures exists key :: key in keys
  {
    assert keys[0] in keys;
  }

  lemma KeysStay(lower: string -> string, strip: string -> string, order: seq<Id>, initial: Graph, keys: seq<Key>, g: Graph, id: Id)
    requires Quotient(lower, strip, order, initial, keys, g) && id in g.entities
    ensures id in initial.entities && KeyOf(lower, g.entities[id]) == KeyOf(lower, initial.entities[id])
  {
  }

  lemma SurvivorsAreOne(lower: string -> string, strip: string -> string, order: seq<Id>, initial: Graph, keys: seq<Key>, g: Graph, a: Id, b: Id)
    requires forall id :: id in order <==> id in initial.entities
    requires DuplicateKeys(lower, initial.entities, order, keys)
    requires Quotient(lower, strip, order, initial, keys, g)
    requires a in g.entities && b in g.entities
    requires KeyOf(lower, g.entities[a]) == KeyOf(lower, g.entities[b]) && lower(g.entities[a].name) != ""
    ensures a == b
  {
    var key := KeyOf(lower, g.entities[a]);
    var all := Members(lower, initial.entities, order, key);
    KeysStay(lower, strip, order, initial, keys, g, a);
    KeysStay(lower, strip, order, initial, keys, g, b);
    MembersAre(lower, initial.entities, order, key);
    hide Members, SumsUp, Joined, EdgesMerged, SameTotals;
    if a != b {
      MoreThanOne(all, a, b);
    }
  }

  lemma AtMostOneSurvivor(lower: string -> string, strip: string -> string, order: seq<Id>, initial: Graph, keys: seq<Key>, g: Graph,
                          again: seq<Id>, key: Key)
    requires Distinct(order) && (forall id :: id in order <==> id in initial.entities) && Distinct(again)
    requires DuplicateKeys(lower, initial.entities, order, keys)
    requires Quotient(lower, strip, order, initial, keys, g)
    requires key.0 != ""
    ensures |Members(lower, g.entities, again, key)| <= 1
  {
    var left := Members(lower, g.entities, again, key);
    MembersAre(lower, g.entities, again, key);
    MembersDistinct(lower, g.entities, again, key);
    hide Members, Quotient;
    if |left| > 1 {
      assert left[0] in left && left[1] in left && left[0] != left[1];
      SurvivorsAreOne(lower, strip, order, initial, keys, g, left[0], left[1]);
    }
  }

  /** Merging leaves nothing to merge: a second run, however it lists the entities, finds no group. */
  lemma SecondRunFindsNothing(lower: string -> string, strip: string -> string, now: Time, order: seq<Id>, initial: Graph, keys: seq<Key>, g: Graph,
                              again: seq<Id>, keysAgain: seq<Key>)
    requires Listing(now, initial.entities, order) && DuplicateKeys(lower, initial.entities, order, keys)
    requires Quotient(lower, strip, order, initial, keys, g)
    requires Listing(now, g.entities, again) && DuplicateKeys(lower, g.entities, again, keysAgain)
    ensures keysAgain == []
  {
    forall key: Key | key.0 != ""
      ensures |Members(lower, g.entities, again, key)| <= 1
    {
      AtMostOneSurvivor(lower, strip, order, initial, keys, g, again, key);
    }
    hide Members;
    if keysAgain != [] {
      SomeKey(keysAgain);
    }
  }
}
