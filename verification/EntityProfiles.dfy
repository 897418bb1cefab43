// What merging does to the data of entities, as values.

module EntityProfiles {
  import opened Options
  import opened Vectors
  import opened MemoryValues

  /** Everything an entity carries besides its id, name and type. */
  datatype Profile = Profile(
    description: string, embedding: Vector, importance: real, confidence: real, mentionCount: int, accessCount: int,
    lastAccessAt: Option<Time>, memoryLayer: string, coreFacts: seq<string>, traits: seq<string>)

  // ---- lists without repetition ----

  function AppendNew(merged: seq<string>, values: seq<string>): seq<string> {
    if values == [] then merged
    else
      var before := AppendNew(merged, values[..|values| - 1]);
      var value := values[|values| - 1];
      if value != "" && value !in before then before + [value] else before
  }

  function MergeUniqueStrings(left: seq<string>, right: seq<string>): seq<string> {
    AppendNew([], left + right)
  }

  /** Joins two lists, skipping empty and repeated values. */
  method MergeUnique(left: seq<string>, right: seq<string>) returns (merged: seq<string>)
    ensures merged == MergeUniqueStrings(left, right)
  {
    var values := left + right;
    merged := [];
    for i := 0 to |values|
      invariant merged == AppendNew([], values[..i])
    {
      assert values[..i + 1][..i] == values[..i];
      if values[i] != "" && values[i] !in merged {
        merged := merged + [values[i]];
      }
    }
    assert values[..|values|] == values;
  }

  lemma {:induction false} AppendNewShape(values: seq<string>)
    ensures var merged := AppendNew([], values);
            && Distinct(merged)
            && forall v :: v in merged <==> v in values && v != ""
  {
    if values != [] {
      AppendNewShape(values[..|values| - 1]);
      assert values == values[..|values| - 1] + [values[|values| - 1]];
    }
  }

  /** The result holds exactly the non-empty values of both lists, each once. */
  lemma MergeUniqueShape(left: seq<string>, right: seq<string>)
    ensures var merged := MergeUniqueStrings(left, right);
            && Distinct(merged)
            && forall v :: v in merged <==> (v in left || v in right) && v != ""
  {
    AppendNewShape(left + right);
  }

  lemma {:induction false} AppendNewKeeps(values: seq<string>)
    requires Distinct(values) && "" !in values
    ensures AppendNew([], values) == values
  {
    if values != [] {
      var early := values[..|values| - 1];
      assert values == early + [values[|values| - 1]];
      AppendNewKeeps(early);
    }
  }

  lemma {:induction false} AppendNewInOrder(left: seq<string>, right: seq<string>)
    ensures AppendNew([], left) <= AppendNew([], left + right)
  {
    if right == [] {
      assert left + right == left;
    } else {
      AppendNewInOrder(left, right[..|right| - 1]);
      assert (left + right)[..|left + right| - 1] == left + right[..|right| - 1];
    }
  }

  /** A clean first list stays as it is at the head of the result. */
  lemma MergeUniqueKeepsOrder(left: seq<string>, right: seq<string>)
    requires Distinct(left) && "" !in left
    ensures left <= MergeUniqueStrings(left, right)
  {
    AppendNewKeeps(left);
    AppendNewInOrder(left, right);
  }

  // ---- the two ways to merge ----

  function Later(kept: Option<Time>, other: Option<Time>): Option<Time> {
    if other.Some? && (kept.None? || other.value > kept.value) then other else kept
  }

  /** `_merge_into`: the canonical entity takes in a duplicate. */
  function Merged(c: Profile, d: Profile): Profile {
    Profile(
      if |d.description| > |c.description| then d.description else c.description,
      if c.embedding == [] && d.embedding != [] then d.embedding else c.embedding,
      MaxReal(c.importance, d.importance),
      MaxReal(c.confidence, d.confidence),
      c.mentionCount + d.mentionCount,
      MaxInt(c.accessCount, d.accessCount),
      Later(c.lastAccessAt, d.lastAccessAt),
      if d.memoryLayer == LONG_TERM then LONG_TERM else c.memoryLayer,
      MergeUniqueStrings(c.coreFacts, d.coreFacts),
      MergeUniqueStrings(c.traits, d.traits))
  }

  /** `_reuse_existing`: an incoming entity continues a stored one. */
  function Reused(e: Profile, x: Profile): Profile {
    Profile(
      if |e.description| > |x.description| then e.description else x.description,
      if x.embedding != [] then x.embedding else e.embedding,
      MaxReal(e.importance, x.importance),
      MaxReal(e.confidence, x.confidence),
      x.mentionCount + e.mentionCount,
      x.accessCount,
      x.lastAccessAt,
      if x.memoryLayer == LONG_TERM || e.memoryLayer == LONG_TERM then LONG_TERM else x.memoryLayer,
      MergeUniqueStrings(x.coreFacts, e.coreFacts),
      MergeUniqueStrings(x.traits, e.traits))
  }

  /** `_merge_entities_with_graph`: an incoming entity continues a stored one where no deduplicator
      is configured. */
  function Continued(e: Profile, x: Profile): Profile {
    Profile(
      if |x.description| > |e.description| then x.description else e.description,
      e.embedding,
      MaxReal(e.importance, x.importance),
      MaxReal(e.confidence, x.confidence),
      x.mentionCount + 1,
      x.accessCount,
      x.lastAccessAt,
      x.memoryLayer,
      x.coreFacts,
      x.traits)
  }

  /** As extracted: mentioned once, short-term, without facts or traits. */
  ghost predicate Raw(e: Profile) {
    e.mentionCount == 1 && e.memoryLayer != LONG_TERM && e.coreFacts == [] && e.traits == []
  }

  ghost predicate Clean(values: seq<string>) {
    Distinct(values) && "" !in values
  }

  lemma JoinedWithNothing(values: seq<string>)
    ensures MergeUniqueStrings(values, []) == values <==> Clean(values)
  {
    assert values + [] == values;
    AppendNewShape(values);
    if Clean(values) {
      AppendNewKeeps(values);
    }
  }

  // ---- what a merged profile says about its group ----

  /** `p` is covered by `whole` in everything that merging only raises. */
  ghost predicate Covered(p: Profile, whole: Profile) {
    && p.importance <= whole.importance
    && p.confidence <= whole.confidence
    && p.accessCount <= whole.accessCount
    && |p.description| <= |whole.description|
    && (p.lastAccessAt.Some? ==> whole.lastAccessAt.Some? && p.lastAccessAt.value <= whole.lastAccessAt.value)
    && (p.memoryLayer == LONG_TERM ==> whole.memoryLayer == LONG_TERM)
    && (p.embedding != [] ==> whole.embedding != [])
    && (forall f :: f in p.coreFacts && f != "" ==> f in whole.coreFacts)
    && (forall t :: t in p.traits && t != "" ==> t in whole.traits)
  }

  lemma MergedCovers(c: Profile, d: Profile)
    ensures Covered(c, Merged(c, d)) && Covered(d, Merged(c, d))
  {
    MergeUniqueShape(c.coreFacts, d.coreFacts);
    MergeUniqueShape(c.traits, d.traits);
  }

  lemma CoveredTransitive(p: Profile, q: Profile, r: Profile)
    requires Covered(p, q) && Covered(q, r)
    ensures Covered(p, r)
  {
  }

  /** Members of a group: positions whose representative is `c`. */
  function Mentions<T(==)>(rep: seq<T>, initial: seq<Profile>, c: T): int
    requires |rep| == |initial|
  {
    if rep == [] then 0
    else
      var last := |rep| - 1;
      Mentions(rep[..last], initial[..last], c) + if rep[last] == c then initial[last].mentionCount else 0
  }

  /** Where every member was mentioned once, a group has as many mentions as members. */
  lemma {:induction false} MentionedOnceEach<T>(rep: seq<T>, initial: seq<Profile>, c: T)
    requires |rep| == |initial| && forall i :: 0 <= i < |initial| ==> initial[i].mentionCount == 1
    ensures Mentions(rep, initial, c) == multiset(rep)[c]
  {
    if rep != [] {
      var last := |rep| - 1;
      MentionedOnceEach(rep[..last], initial[..last], c);
      assert rep == rep[..last] + [rep[last]];
    }
  }

  /** The features of a profile that merging picks from one of its sources. */
  datatype Feature = OfImportance | OfConfidence | OfAccess | OfDescription | OfLastAccess | OfLayer

  ghost predicate Shares(f: Feature, p: Profile, whole: Profile) {
    match f
    case OfImportance => p.importance == whole.importance
    case OfConfidence => p.confidence == whole.confidence
    case OfAccess => p.accessCount == whole.accessCount
    case OfDescription => p.description == whole.description
    case OfLastAccess => p.lastAccessAt == whole.lastAccessAt
    case OfLayer => p.memoryLayer == whole.memoryLayer
  }

  ghost predicate SomeMemberShares<T>(rep: seq<T>, initial: seq<Profile>, c: T, f: Feature, whole: Profile)
    requires |rep| == |initial|
  {
    exists i :: 0 <= i < |rep| && rep[i] == c && Shares(f, initial[i], whole)
  }

  /** `whole` sums up the group of `c`: mentions are added, the rest covers every member, and each
      feature is some member's own. */
  ghost predicate Summarizes<T>(rep: seq<T>, initial: seq<Profile>, c: T, whole: Profile)
    requires |rep| == |initial|
  {
    && whole.mentionCount == Mentions(rep, initial, c)
    && (forall i :: 0 <= i < |rep| && rep[i] == c ==> Covered(initial[i], whole))
    && (forall f :: SomeMemberShares(rep, initial, c, f, whole))
  }

  lemma {:induction false} MentionsRelabel<T>(rep: seq<T>, initial: seq<Profile>, c: T, rep': seq<T>, c': T)
    requires |rep| == |initial| == |rep'|
    requires forall i :: 0 <= i < |rep| ==> (rep[i] == c <==> rep'[i] == c')
    ensures Mentions(rep, initial, c) == Mentions(rep', initial, c')
  {
    if rep != [] {
      var last := |rep| - 1;
      MentionsRelabel(rep[..last], initial[..last], c, rep'[..last], c');
    }
  }

  lemma MentionsSnoc<T>(rep: seq<T>, initial: seq<Profile>, c: T, r: T, one: Profile)
    requires |rep| == |initial|
    ensures Mentions(rep + [r], initial + [one], c) == Mentions(rep, initial, c) + if r == c then one.mentionCount else 0
  {
  }

  lemma {:induction false} NoMentions<T>(rep: seq<T>, initial: seq<Profile>, c: T)
    requires |rep| == |initial|
    requires c !in rep
    ensures Mentions(rep, initial, c) == 0
  {
    if rep != [] {
      NoMentions(rep[..|rep| - 1], initial[..|rep| - 1], c);
    }
  }

  /** Renaming a representative, or the representatives of other groups, keeps a summary. */
  lemma SummarizesRelabel<T>(rep: seq<T>, initial: seq<Profile>, c: T, rep': seq<T>, c': T, whole: Profile)
    requires |rep| == |initial| == |rep'|
    requires forall i :: 0 <= i < |rep| ==> (rep[i] == c <==> rep'[i] == c')
    requires Summarizes(rep, initial, c, whole)
    ensures Summarizes(rep', initial, c', whole)
  {
    MentionsRelabel(rep, initial, c, rep', c');
    forall f
      ensures SomeMemberShares(rep', initial, c', f, whole)
    {
      assert SomeMemberShares(rep, initial, c, f, whole);
      var i :| 0 <= i < |rep| && rep[i] == c && Shares(f, initial[i], whole);
      assert rep'[i] == c';
    }
  }

  lemma SharesSnoc<T>(rep: seq<T>, initial: seq<Profile>, c: T, r: T, one: Profile, f: Feature, whole: Profile, joined: Profile)
    requires |rep| == |initial|
    requires || (SomeMemberShares(rep, initial, c, f, whole) && Shares(f, whole, joined))
             || (r == c && Shares(f, one, joined))
    ensures SomeMemberShares(rep + [r], initial + [one], c, f, joined)
  {
    var rep', initial' := rep + [r], initial + [one];
    if r == c && Shares(f, one, joined) {
      assert rep'[|rep|] == c && initial'[|rep|] == one;
    } else {
      var i :| 0 <= i < |rep| && rep[i] == c && Shares(f, initial[i], whole);
      assert rep'[i] == c && initial'[i] == initial[i];
    }
  }

  /** A member that joins another group changes nothing. */
  lemma SummarizesOther<T>(rep: seq<T>, initial: seq<Profile>, c: T, r: T, one: Profile, whole: Profile)
    requires |rep| == |initial|
    requires r != c
    requires Summarizes(rep, initial, c, whole)
    ensures Summarizes(rep + [r], initial + [one], c, whole)
  {
    MentionsSnoc(rep, initial, c, r, one);
    forall f
      ensures SomeMemberShares(rep + [r], initial + [one], c, f, whole)
    {
      assert SomeMemberShares(rep, initial, c, f, whole);
      SharesSnoc(rep, initial, c, r, one, f, whole, whole);
    }
  }

  /** A group of one. */
  lemma SummarizesAlone<T>(rep: seq<T>, initial: seq<Profile>, r: T, one: Profile)
    requires |rep| == |initial|
    requires r !in rep
    ensures Summarizes(rep + [r], initial + [one], r, one)
  {
    MentionsSnoc(rep, initial, r, r, one);
    NoMentions(rep, initial, r);
    forall f
      ensures SomeMemberShares(rep + [r], initial + [one], r, f, one)
    {
      SharesSnoc(rep, initial, r, r, one, f, one, one);
    }
  }

  lemma MergedShares(c: Profile, d: Profile, f: Feature)
    ensures Shares(f, c, Merged(c, d)) || Shares(f, d, Merged(c, d))
  {
  }

  /** One more member, merged in either direction. */
  lemma SummarizesJoin<T>(rep: seq<T>, initial: seq<Profile>, c: T, one: Profile, whole: Profile, joined: Profile)
    requires |rep| == |initial|
    requires Summarizes(rep, initial, c, whole)
    requires joined == Merged(whole, one) || joined == Merged(one, whole)
    ensures Summarizes(rep + [c], initial + [one], c, joined)
  {
    MentionsSnoc(rep, initial, c, c, one);
    MergedCovers(whole, one);
    MergedCovers(one, whole);
    forall i | 0 <= i < |rep| && rep[i] == c
      ensures Covered(initial[i], joined)
    {
      CoveredTransitive(initial[i], whole, joined);
    }
    forall f
      ensures SomeMemberShares(rep + [c], initial + [one], c, f, joined)
    {
      MergedShares(whole, one, f);
      MergedShares(one, whole, f);
      assert SomeMemberShares(rep, initial, c, f, whole);
      SharesSnoc(rep, initial, c, c, one, f, whole, joined);
    }
  }

  // ---- conservation ----

  function TotalMentions(profiles: seq<Profile>): int {
    if profiles == [] then 0 else TotalMentions(profiles[..|profiles| - 1]) + profiles[|profiles| - 1].mentionCount
  }

  /** Mentions of several groups together. */
  function MentionsOfAll<T(==)>(rep: seq<T>, initial: seq<Profile>, groups: seq<T>): int
    requires |rep| == |initial|
  {
    if groups == [] then 0 else MentionsOfAll(rep, initial, groups[..|groups| - 1]) + Mentions(rep, initial, groups[|groups| - 1])
  }

  lemma {:induction false} MentionsOfAllSnoc<T>(rep: seq<T>, initial: seq<Profile>, r: T, one: Profile, groups: seq<T>)
    requires |rep| == |initial|
    requires Distinct(groups)
    ensures MentionsOfAll(rep + [r], initial + [one], groups) ==
            MentionsOfAll(rep, initial, groups) + if r in groups then one.mentionCount else 0
  {
    if groups != [] {
      var early, last := groups[..|groups| - 1], groups[|groups| - 1];
      assert groups == early + [last];
      MentionsOfAllSnoc(rep, initial, r, one, early);
      MentionsSnoc(rep, initial, last, r, one);
      if r == last {
        assert r !in early;
      }
    }
  }

  lemma {:induction false} NothingMentioned<T>(groups: seq<T>)
    ensures MentionsOfAll([], [], groups) == 0
  {
    if groups != [] {
      NothingMentioned(groups[..|groups| - 1]);
    }
  }

  /** When every position belongs to exactly one of the groups, no mention is lost or doubled. */
  lemma {:induction false} MentionsConserved<T>(rep: seq<T>, initial: seq<Profile>, groups: seq<T>)
    requires |rep| == |initial|
    requires Distinct(groups)
    requires forall i :: 0 <= i < |rep| ==> rep[i] in groups
    ensures MentionsOfAll(rep, initial, groups) == TotalMentions(initial)
  {
    if rep == [] {
      NothingMentioned(groups);
    } else {
      var last := |rep| - 1;
      MentionsConserved(rep[..last], initial[..last], groups);
      MentionsOfAllSnoc(rep[..last], initial[..last], rep[last], initial[last], groups);
      assert rep[..last] + [rep[last]] == rep && initial[..last] + [initial[last]] == initial;
    }
  }
}
