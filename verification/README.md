# Verified model of the agent backend's core

A Dafny 4.11 model of six components of the backend, with proofs over every input, every answer of
the language model and every interleaving. The language model, embeddings, clock, square root and
string normalisation are arbitrary parameters; numbers are exact reals and unbounded integers.

| files | component |
|---|---|
| `Vectors.dfy`, `LabelPropagation.dfy`, `CommunityForest.dfy`, `OrderedMerging.dfy`, `CommunityClusterer.dfy`, `IncrementalClustering.dfy` | community clustering: votes and sweeps, union by size over a parent map, and the store it writes to |
| `EntityProfiles.dfy`, `RedirectChains.dfy`, `EntityDeduplicator.dfy`, `GraphFusion.dfy` | entity resolution over shared, mutable objects: merging a batch, closing a result, fusing with stored entities |
| `GraphExtractor.dfy`, `Upserts.dfy`, `GraphRows.dfy`, `ChainedWrite.dfy`, `GraphRepository.dfy`, `EntityStore.dfy`, `MemoryExtraction.dfy`, `DuplicateMerge.dfy`, `SearchFusion.dfy` | the memory graph: building it, the chained UNWIND write, the entity store over many extractions, merging stored duplicates, ranking search hits |
| `AgentTranscript.dfy`, `PlanFlow.dfy`, `AgentTaskRunner.dfy` | an agent's message history under interruption and roll-back, the plan flow, the task runner |
| `PopLock.dfy` | the Redis stream queue: a token lock with expiry, as interleaved atomic steps |
| `DocumentChunker.dfy`, `ToolNames.dfy` | two levels of text windows; printing and parsing tool names |

`Options.dfy` holds the optional value, `MemoryValues.dfy` values and small functions that several
modules share. Methods over classes follow the source's loops and field updates; each is tied to a
specification function or predicate, and the laws are lemmas about that specification.
`dafny verify dfyconfig.toml` checks everything.

## What the proofs say about the code

Places where a natural expectation fails, with the condition under which it holds:

- A community's members are read once before merging, so entities absorbed by a keeper stay behind
  when that keeper is dissolved later (`CommunityForest.KeeperDissolvedLater`). They reach the root
  exactly when no keeper of a non-empty community is dissolved (`CommunityForest.OneHopIsRootIff`,
  `CommunityClusterer.EntitiesReachRootsIff`). Listing the communities by falling size before the
  merge is enough (`OrderedMerging.LargestFirstReachesRoots`, `CommunityClusterer.MergeCommunities`);
  the flush lists them in no particular order.
- An incremental clustering recounts only the communities that are joined. A count that was true
  stays true exactly when no entity left the community since its last recount, or at all
  (`IncrementalClustering.CountTrueIff`); one entity that leaves is enough
  (`IncrementalClustering.OneEntityLeaves`).
- Incoming entities that end with one id are merged once for every index that lists another of them,
  each with the mentions of the stored entity that it continues (`GraphFusion.MentionsCounted`). The
  sum is right exactly when every other entity with that id is listed once and continues nothing that
  was mentioned (`GraphFusion.StoredEntityCountedOnceIff`); an alias alone breaks it
  (`GraphFusion.AliasCountedTwice`). Where ids are made from keys and stored counts are at least 1 it is
  right exactly when nobody else ends with that id (`GraphFusion.SharedIdMiscounts`), and counts that
  are read are at least 1 (`MemoryExtraction.CountsReadPositive`, `EntityStore.CountsStayNonNegative`).
  Ids meet exactly when two entities continue stored ones of one id (`GraphFusion.FusedIdsMeetIff`).
- Redirects of a batch lead to the right id exactly when no survivor's id was redirected and entities
  with one id ended in one group (`RedirectChains.AllResolveIff`, `EntityDeduplicator.DedupBatch`).
  An id that comes back after it was swapped out can leave a circle
  (`EntityDeduplicator.RedirectsInACircle`).
- Without a deduplicator an entity keeps its own name where fusing takes the stored one, and is
  embedded after its description was merged instead of before (`GraphFusion.TwoPathsAgreeIff`,
  `GraphFusion.TwoPathsEmbedApart`).
- Core facts and traits are joined in memory, but the write keeps the stored list
  (`EntityStore.JoinedFactsStoredIff`, `EntityStore.NewFactIsLost`). Extracted entities bring none, so of them only an unclean
  stored list makes a difference.
- Merging duplicates can leave a keeper in several communities
  (`DuplicateMerge.OneCommunityIff`, `DuplicateMerge.KeeperInTwoCommunities`).
- The chained write drops everything behind an empty list (`GraphWrite.EntitiesWithoutChunksDropped`);
  no graph that the extractor builds has such a gap (`GraphExtractor.BuiltIsSelfContained`).
- A stored importance of 0 is read as the default 0.5 (`SearchFusion.ImportanceOrderKeptIff`).
- A reply whose save fails stays in an agent's memory and the retry loop asks again, with the call
  pending (`AgentTranscript.UnsavedCallSpoils`). Histories stay well formed exactly when nothing is
  recorded between such a call and the next roll-back (`AgentTranscript.TranscriptWellFormedIff`).
- An agent that runs out of iterations leaves a call pending; invoking it again without a roll-back
  spoils its history for good (`AgentTranscript.ExhaustionLeavesCallPending`,
  `AgentTranscript.InvokingAfterExhaustionSpoils`).
- A task that is cancelled while its session is being set to waiting publishes the end after the wait
  and completes the session (`AgentTaskRunner.NothingAfterWait`, `AgentTaskRunner.CancelledAfterWait`).
- A step that reported an error still ends as completed when its execution ends normally
  (`PlanFlow.ExecutionEnds`, `PlanFlow.ExecuteWithError`).
- A pop whose lock expired before its delete can return a message that another pop returned too
  (`PopLock.LateDeleteDuplicates`, `PopLock.OnceIffDeletesEffective`).
- A pop that is cancelled between its delete and its return drops its message (`PopLock.LateCancelLoses`,
  `PopLock.NothingDroppedIff`).
- A server name that continues another one after an underscore can make tools unreachable
  (`ToolNames.UnderscoreClash`, `ToolNames.ParsingUndoesPrintingIff`).

## Model

| member | source | states |
|---|---|---|
| Vectors.CauchySchwarz | app/utils/vector.py:8-13 | the square of a dot product is at most the product of the squared norms, for all vectors of one length |
| Vectors.CosineSymmetric | app/utils/vector.py:4-13 | cosine similarity is symmetric on all inputs, missing and degenerate ones included |
| Vectors.CosineWithinUnit | app/utils/vector.py:4-13 | cosine similarity lies between -1 and 1 whenever the two norms are computed exactly |
| Vectors.CosineOfSelf | app/utils/vector.py:4-13 | a vector scores exactly 1 against itself, and 0 if it is empty or has norm zero |
| Vectors.CosineTimesNorms | app/utils/vector.py:4-13 | with exact norms, the cosine times both norms is the dot product; without a direction it is 0 |
| Vectors.CosineOfScaled | app/utils/vector.py:4-13 | only the direction counts: stretching a vector keeps the cosine, turning it round negates it |
| Vectors.DotConcat | app/utils/vector.py:8-8 | the dot product adds up over coordinates |
| Vectors.AverageIsMean | app/utils/vector.py:16-25 | each coordinate of the mean, times the number of non-empty vectors, is the sum of that coordinate over them |
| Vectors.AverageWithinBounds | app/utils/vector.py:16-25 | each coordinate of the mean lies within any bounds on that coordinate of the inputs |
| CommunityForest.ParentIsCloser | app/domain/services/memory/community_clusterer.py:156-161 | every parent link keeps the root and shortens the way to it by one: the parent map is a forest, never a cycle |
| CommunityForest.WalkReachesRoot | app/domain/services/memory/community_clusterer.py:158-161 | the loop of `root` stops at the root after exactly the number of links on the way, and never returns to where it was |
| CommunityForest.MergingBuildsShallowForest | app/domain/services/memory/community_clusterer.py:155-195 | after the whole double loop: forest, sizes of roots are the sums over their trees and sum to the member count, every recorded link was similar, and (no empty community merging) a walk takes at most log2 of the member count |
| CommunityForest.SurvivorsAreSeparated | app/domain/services/memory/community_clusterer.py:163-180 | any two communities that survive are at most as similar as the threshold, although roots change during the loop; every merge was above it |
| CommunityForest.OneHopIsRootIff | app/domain/services/memory/community_clusterer.py:180-195 | of the parent map that is left: one lookup is the root for all non-empty communities exactly when no keeper of one was dissolved later |
| OrderedMerging.LargestFirstReachesRoots | app/domain/services/memory/community_clusterer.py:163-195 | if the communities are listed by falling size, no keeper is ever dissolved and one lookup is always the root, whatever is similar to what |
| CommunityForest.KeeperDissolvedLater | app/domain/services/memory/community_clusterer.py:163-195 | sizes 1, 1, 5, all alike: one member is left in a dissolved community |
| CommunityStore.Store.UpsertCommunity | app/infrastructure/repositories/neo4j_memory_graph_repository.py:820-831 | a missing community node appears with count 0; nothing else changes |
| CommunityStore.Store.AssignEntityCommunity | app/infrastructure/repositories/neo4j_memory_graph_repository.py:833-851 | if both nodes exist the entity leaves its community for the new one, property and edge together; otherwise nothing |
| CommunityStore.Store.RefreshCommunityMemberCount | app/infrastructure/repositories/neo4j_memory_graph_repository.py:853-872 | the stored count of an existing community becomes its true count |
| CommunityStore.Store.CommunityMembers | app/infrastructure/repositories/neo4j_memory_graph_repository.py:874-899 | lists the members of a community, each once |
| CommunityStore.Store.PruneEmptyCommunities | app/infrastructure/repositories/neo4j_memory_graph_repository.py:967-982 | exactly the communities with stored count 0 go, with their edges |
| CommunityClusterer.EntitiesReachRootsIff | app/domain/services/memory/community_clusterer.py:180-188 | of the parent map that is left: every entity ends in the root of its community exactly when no community that took entities in was dissolved afterwards |
| CommunityClusterer.MergeRoots | app/domain/services/memory/community_clusterer.py:180-194 | one merge keeps the live parent map, sizes, assignments and true counts in step with the model of the merge |
| CommunityClusterer.MergeCommunities | app/domain/services/memory/community_clusterer.py:139-195 | the in-place double loop makes exactly the modelled merges over a snapshot of members; each entity moves at most one link, and ends in the root of its community if the communities are listed by falling stored counts; the counts of all listed communities are true, others untouched |
| CommunityClusterer.SizesAddUp | app/domain/services/memory/community_clusterer.py:154-154 | communities share no member: their sizes add up to the number of entities in them |
| CommunityClusterer.LiveMerges | app/domain/services/memory/community_clusterer.py:152-195 | where every entity is in a listed community and none is empty: a walk takes at most log2 of the number of entities, survivors are not similar, and every link was |
| CommunityClusterer.FlushLabels | app/domain/services/memory/community_clusterer.py:120-137 | every labelled entity is in the community of its label, and the stored count of every such community is true |
| CommunityClusterer.EntitiesMovedOnce | app/domain/services/memory/community_clusterer.py:120-195 | after flush and merge an entity first in c is in the parent of c, or in c if it has none |
| CommunityClusterer.PruneUnused | app/domain/services/memory/community_clusterer.py:73-73 | with true counts, pruning removes only unused communities and leaves positive counts |
| CommunityClusterer.FlushAndMerge | app/domain/services/memory/community_clusterer.py:69-70 | flush, then the merges of the double loop over the flushed communities, shallow and separated; final assignment, reported numbers, and a true count for every community in use |
| CommunityClusterer.FullCluster | app/domain/services/memory/community_clusterer.py:46-79 | a whole run: the labels are those after sweeps that start from each entity's stored community or else its id, settled unless the sweeps ran out, and reachable; the merges of the double loop, shallow and separated; every entity one link at most from the community of its label, which survives pruning with a true count |
| IncrementalClustering.LagStep | app/domain/services/memory/community_clusterer.py:98-111 | a community that is not joined falls behind by one if the entity leaves it |
| IncrementalClustering.CountTrueIff | app/domain/services/memory/community_clusterer.py:98-111 | a count that was true, or was recounted, is true in the end exactly when no entity left since |
| IncrementalClustering.IncrementalCluster | app/domain/services/memory/community_clusterer.py:81-118 | each new entity is in the community it voted for (or its own), all others stay; of every community, joined or not, the count is off by what it was off before, if it was not recounted, and by the entities that left it since |
| IncrementalClustering.OneEntityLeaves | app/domain/services/memory/community_clusterer.py:98-111 | a run over the only member of a community, which joins another: the count stays 1 and nobody is in it |
| LabelPropagation.ElectionIsDecisive | app/domain/services/memory/community_clusterer.py:236-254 | the outcome of a vote is unique: greatest summed weight, first seen among equals |
| LabelPropagation.CountVotes | app/domain/services/memory/community_clusterer.py:242-253 | votes are the summed weights by label, in order of first appearance |
| LabelPropagation.WeightedVote | app/domain/services/memory/community_clusterer.py:236-254 | the winner is the first label of greatest summed weight, none exactly when nobody voted; with a positive semantic weight and one vote per label it is the label of the neighbour with the greatest dot product over norms, the first among equals |
| LabelPropagation.ClosestWins | app/domain/services/memory/community_clusterer.py:242-254 | where each voter has a label of its own, the voter closest in direction decides, in terms of dot products and norms, whatever the two weights |
| LabelPropagation.WeightByDirection | app/domain/services/memory/community_clusterer.py:249-252 | a neighbour in the same direction votes with relation plus semantic weight, one in the opposite direction with their difference, one at a right angle or without direction with the relation weight |
| LabelPropagation.TallySplits | app/domain/services/memory/community_clusterer.py:242-253 | a label receives the relation weight once for every voter and the semantic weight times the sum of their cosines |
| LabelPropagation.WeightWithin | app/domain/services/memory/community_clusterer.py:248-253 | a vote lies between relation weight minus and plus semantic weight |
| LabelPropagation.Sweep | app/domain/services/memory/community_clusterer.py:56-66 | one sweep is the sequence of in-place votes in entity order; no change means all votes agree with one common labelling |
| LabelPropagation.SweepIsDetermined | app/domain/services/memory/community_clusterer.py:56-66 | where a sweep starts determines each of its steps |
| LabelPropagation.VotedLabelReachable | app/domain/services/memory/community_clusterer.py:243-246 | a label that is voted for is native to an entity reachable through neighbour lists, or a neighbour's stored community |
| LabelPropagation.Propagate | app/domain/services/memory/community_clusterer.py:51-68 | at most the given number of sweeps that change something, each one a sweep of the one before; leaving early means every vote confirms the common labelling; every label is reachable from an initial one |
| EntityProfiles.MergeUnique | app/utils/collections.py:1-7 | equals the left fold that appends unseen non-empty values |
| EntityProfiles.MergeUniqueShape | app/utils/collections.py:1-7 | the result has no repetitions and holds exactly the non-empty values of both lists |
| EntityProfiles.MergeUniqueKeepsOrder | app/utils/collections.py:1-7 | a clean first list stays as it is at the head of the result |
| EntityProfiles.SummarizesJoin | app/domain/services/memory/entity_deduplicator.py:252-273 | merging one more member, in either direction, keeps the summary: mentions added, every member covered in importance, confidence, accesses, layer, texts and lists, each single value some member's own |
| EntityProfiles.MentionsConserved | app/domain/services/memory/entity_deduplicator.py:252-273 | when each position belongs to one of the groups, the group sums add up to all mentions |
| EntityDeduplicator.MergeInto | app/domain/services/memory/entity_deduplicator.py:252-273 | in place, the canonical entity becomes the merge of both; id and name stay |
| EntityDeduplicator.ReuseExisting | app/domain/services/memory/entity_deduplicator.py:275-301 | in place, the entity continues the stored one under its id and name |
| EntityDeduplicator.FindExact | app/domain/services/memory/entity_deduplicator.py:237-250 | the first candidate with the same normalised name and type, or none if there is none |
| EntityDeduplicator.CandidatePositions | app/domain/services/memory/entity_deduplicator.py:136-156 | the first similar items of the same type, in order, up to the limit |
| EntityDeduplicator.FindMerge | app/domain/services/memory/entity_deduplicator.py:57-68 | asks about the candidates in order until the first answer that says the same and is confident enough; counts the questions |
| EntityDeduplicator.Choose | app/domain/services/memory/entity_deduplicator.py:48-60 | the choice for one entity: same key first, else first agreed candidate (swapped if the model names the new index), else alone |
| EntityDeduplicator.ChoiceIsDecided | app/domain/services/memory/entity_deduplicator.py:48-68 | an equal key decides without any answer; otherwise an entity stays alone after answers of which none both said the same and was confident enough, or is merged because the last one was the first that did |
| EntityDeduplicator.FirstAgreementJoins | app/domain/services/memory/entity_deduplicator.py:57-68 | an entity without an equal key whose first similar candidate is answered by the same entity and enough confidence joins exactly that candidate, in the direction that the answer names |
| EntityDeduplicator.CandidateIff | app/domain/services/memory/entity_deduplicator.py:201-229 | whom the model is asked about: same type, and alike in name, or with a dot product that reaches the threshold times both norms, or one non-empty name a part of the other |
| EntityDeduplicator.ReplaceCanonical | app/domain/services/memory/entity_deduplicator.py:303-318 | the new canonical object takes the old one's place in the list and under every index that pointed to the old object |
| RedirectChains.RedirectMovesChains | app/domain/services/memory/entity_deduplicator.py:83-84 | a redirect of an id that was not redirected, or led to its target already, moves exactly the chains that ended at it |
| RedirectChains.TakingOverTurnsChains | app/domain/services/memory/entity_deduplicator.py:78-78 | when an id takes over from another, the chains that ended at the other turn to it, and no other |
| RedirectChains.AllResolveIff | app/domain/services/memory/entity_deduplicator.py:48-92 | of any grouped batch, repeated ids included: every chain ends at the id of its representative exactly when no survivor's id was redirected and entities with one id ended in one group |
| RedirectChains.DistinctIdsResolve | app/domain/services/memory/entity_deduplicator.py:48-92 | with distinct ids every chain ends at the id of its representative |
| RedirectChains.SwappingBackLeadsNowhere | app/domain/services/memory/entity_deduplicator.py:78-78 | two opposite redirects lead nowhere |
| EntityDeduplicator.DedupOne | app/domain/services/memory/entity_deduplicator.py:48-90 | one entity: the right choice, its exact effect on canonicals, aliases, redirects and live values, and every batch invariant kept |
| EntityDeduplicator.ClosingDistinctIds | app/domain/services/memory/entity_deduplicator.py:320-343 | when no two objects share an id, closing a result changes no object and no alias |
| EntityDeduplicator.ClosedIdsDistinct | app/domain/services/memory/entity_deduplicator.py:320-343 | a result never holds two objects with one id |
| EntityDeduplicator.Result | app/domain/services/memory/entity_deduplicator.py:320-343 | keeps the first object of each id, merges each other listing of another object into it, and maps every index to the object with its id |
| EntityDeduplicator.DedupBatch | app/domain/services/memory/entity_deduplicator.py:40-92 | for all answers: every index has a surviving representative of its type, survivors are distinct objects with distinct keys, each sums up its group. Two entities with different keys share a representative only if an answer that was used says the same entity and is confident enough; with no such answer survivors are exactly one per key and redirects come from equal keys; and each such answer merges at most two keys. Redirects lead every id to its representative's exactly when no survivor's id was redirected and entities with one id ended in one group, as they do for distinct ids |
| EntityDeduplicator.RedirectsInACircle | app/domain/services/memory/entity_deduplicator.py:40-92 | a batch with ids 1, 2 and 1 and two swaps: the loop leaves redirects that lead to each other |
| EntityDeduplicator.BatchConservesMentions | app/domain/services/memory/entity_deduplicator.py:40-92 | the survivors of a batch count as many mentions as the batch did |
| GraphFusion.MatchStored | app/domain/services/memory/entity_deduplicator.py:105-132 | the stored entity to continue: first with the same key, else first candidate agreed on, else none; without an equal key something is matched exactly because the last answer used said the same and was confident enough |
| GraphFusion.FirstAgreementMatches | app/domain/services/memory/entity_deduplicator.py:105-132 | without an equal key, a first similar stored entity that is answered by the same entity and enough confidence is the one that is continued |
| GraphFusion.UniqueEntities | app/domain/services/memory/entity_deduplicator.py:345-358 | the distinct objects behind the indices, each once |
| GraphFusion.FuseOne | app/domain/services/memory/entity_deduplicator.py:105-132 | one object is fused with its match, its redirect recorded exactly when its id changed, everything else untouched |
| GraphFusion.MergeWithGraph | app/domain/services/memory/entity_deduplicator.py:94-134 | each distinct object is fused exactly once however many indices share it; those that continue a stored entity with another key correspond one to one to the answers used that say the same and are confident enough, so without such an answer there are none; redirects are exactly the id changes; the result is closed over ids and total on indices |
| GraphFusion.FusedStayKeyed | app/domain/services/memory/entity_deduplicator.py:275-284 | if ids are hashes of keys before, they are afterwards |
| GraphFusion.FusedIdsMeetIff | app/domain/services/memory/entity_deduplicator.py:94-134 | two entities with different keys end with the same id exactly when they continue stored entities of one id |
| GraphFusion.MentionsAddUp | app/domain/services/memory/entity_deduplicator.py:94-134 | when no two entities end with one id, each counts its own mentions plus those of its match, or plus 0 |
| GraphFusion.MentionsCounted | app/domain/services/memory/entity_deduplicator.py:94-134 | every survivor counts its own mentions and its match's, and for every listing of another object with its id that object's own and its match's |
| GraphFusion.StoredEntityCountedOnceIff | app/domain/services/memory/entity_deduplicator.py:94-134 | everyone's own mentions count once and the stored entity's once exactly when every other object with that id is listed once and continues nothing that was mentioned |
| GraphFusion.SharedIdMiscounts | app/domain/services/memory/entity_deduplicator.py:94-134 | where stored counts are at least 1 and ids are made from keys, the sum is right exactly when nobody else ends with that id |
| GraphFusion.AliasCountedTwice | app/domain/services/memory/entity_deduplicator.py:326-333 | two entities continue one stored entity, the second under two indices: its mentions count twice and those of the stored entity three times, whatever they are |
| GraphFusion.BuildEntities | app/domain/services/memory/graph_extractor.py:251-263 | batch and graph fusion together: every position gets an entity of its type, no two results share an id or a key, every id is the hash of its key; where every entity was mentioned once and no two representatives end with one id, each counts its positions on top of the stored entity with its id |
| GraphFusion.CountsOnTop | app/domain/services/memory/entity_deduplicator.py:94-134 | fused entities that each count their positions, and none of which ends with the id of another, count on top of the stored entity with that id, or from 0 |
| GraphFusion.TwoPathsAgreeIff | app/domain/services/memory/graph_extractor.py:251-292 | what both paths hand to the store, embeddings included, is the same exactly when the entity is written as the stored one, descriptions of equal length are equal, stored lists are clean, and the embedding that fusing keeps is the one of the longer description |
| GraphFusion.TwoPathsEmbedApart | app/domain/services/memory/graph_extractor.py:251-292 | a longer stored description without an embedding: with a deduplicator the extracted description is embedded, without one the stored description |
| GraphFusion.MergeEntitiesWithGraph | app/domain/services/memory/graph_extractor.py:337-368 | without a deduplicator every entity continues the first stored one with its key, under its id and its own name |
| GraphFusion.ContinuingKeepsIds | app/domain/services/memory/graph_extractor.py:337-357 | where ids are hashes of keys, that changes no id |
| GraphExtractor.ChunkText | app/domain/services/memory/graph_extractor.py:75-96 | the chunks joined are the stripped text, none empty or too long, all but the last full, each with its own index and id |
| GraphExtractor.ExtractStatements | app/domain/services/memory/fact_extractor.py:89-147 | exactly the usable statements of all answers, in order, numbered through, each belonging to a chunk |
| GraphExtractor.StatementIdsDistinct | app/domain/services/memory/fact_extractor.py:126-133 | with injective ids no two statements share one, equal texts included |
| GraphExtractor.BuiltIsSelfContained | app/domain/services/memory/graph_extractor.py:98-186 | relations force mentions, mentions force entities, entities force statements, statements force chunks, and every edge end is in the graph |
| GraphExtractor.BuildGraph | app/domain/services/memory/graph_extractor.py:98-157 | relations are those of the linkable triplets in order, one mention per statement and entity, one entity row for every id and only those, and the graph is self-contained |
| MemoryExtraction.ListEntities | app/infrastructure/repositories/neo4j_memory_graph_repository.py:160-187 | every stored entity is read back exactly once, under its type, as a new object with its id and name; missing and zero values become defaults |
| MemoryExtraction.CountsReadPositive | app/infrastructure/repositories/neo4j_memory_graph_repository.py:2216-2235 | an entity that is read was mentioned at least once |
| MemoryExtraction.BuildRaw | app/domain/services/memory/graph_extractor.py:294-318 | one new object for exactly the indices that were extracted with a name, each the last entity extracted for its index, field by field |
| MemoryExtraction.LastNamedExtracted | app/domain/services/memory/graph_extractor.py:294-318 | an index has a last entity exactly when an entity with a name was extracted for it, and that is one |
| MemoryExtraction.BuildShared | app/domain/services/memory/graph_extractor.py:265-290 | for exactly the indices that were extracted with a name, the object of the first entity with the name and type of the last one for that index; one object per name and type |
| MemoryExtraction.EmbedEntities | app/domain/services/memory/graph_extractor.py:320-335 | exactly the last object of each id is embedded, if it has no embedding; nothing else changes |
| MemoryExtraction.ResolveByAnswers | app/domain/services/memory/graph_extractor.py:251-263 | against any keyed store and for all answers: a row for exactly the indices that were extracted with a name, of the type of the last entity extracted for it, with ids made from names and types |
| MemoryExtraction.ResolveByName | app/domain/services/memory/graph_extractor.py:265-292 | without a deduplicator: a row for exactly those indices, with the type and the id of the last entity extracted for it |
| MemoryExtraction.ExtractMemory | app/domain/services/memory/graph_extractor.py:45-73 | for all answers, storing an extraction changes the store as five plain loops would, everything in the graph is stored, every entity extracted last for its index stands in the graph and nobody else does, and entity ids are made from names and types. Where no two entities end with one id, as when no answer about stored entities agrees, the stored count of an entity rises by exactly the number of extracted indices that resolved to it (by one without a deduplicator), and entities without rows stay as they are; if no answer agrees each index keeps the id of its last entity |
| MemoryExtraction.ExtractAll | app/domain/services/memory/graph_extractor.py:45-73 | from any store with one node per name and type, and its id made from them, any sequence of extractions with any answers leads to such a store, and no entity disappears or fades |
| Upserts.FoldTwice | app/infrastructure/repositories/neo4j_memory_graph_repository.py:1898-1964 | upserting the same rows twice is upserting them once, repeated ids included |
| GraphRows.EntityRegular | app/infrastructure/repositories/neo4j_memory_graph_repository.py:1934-1964 | an entity update either overwrites or moves one way, so a repeated row changes nothing |
| GraphWrite.ChainedWritesWhatItReaches | app/infrastructure/repositories/neo4j_memory_graph_repository.py:1898-1999 | for every store and graph, the chained UNWIND query writes what plain loops write of the lists that it reaches |
| GraphWrite.ChainedIsPlain | app/infrastructure/repositories/neo4j_memory_graph_repository.py:1898-1999 | for self-contained graphs the chained query equals five independent upsert loops |
| GraphWrite.EntitiesWithoutChunksDropped | app/infrastructure/repositories/neo4j_memory_graph_repository.py:1907-1935 | a graph with entities but no chunk has all of them dropped |
| GraphRepository.Repository.MergeGraph | app/infrastructure/repositories/neo4j_memory_graph_repository.py:1899-1998 | the query as nested loops over rows ends in the modelled store |
| EntityStore.EntitiesNeverFade | app/infrastructure/repositories/neo4j_memory_graph_repository.py:1934-1964 | over any sequence of extractions no entity disappears, falls in importance, confidence or mentions, or leaves long-term memory |
| EntityStore.StoredAreGreatest | app/infrastructure/repositories/neo4j_memory_graph_repository.py:1940-1954 | after any rows were written, the stored importance, confidence and count of an id are the greatest of those before and of all its rows; ids without rows are as before |
| EntityStore.EntityWritten | app/infrastructure/repositories/neo4j_memory_graph_repository.py:1934-1964 | what one row makes of its entity, field by field: names, texts and embedding of the row; uses, creation, facts and traits of the store, or of the row for a new one; long-term stays |
| EntityStore.StatementWritten | app/infrastructure/repositories/neo4j_memory_graph_repository.py:1913-1931 | what one row makes of its statement, field by field; uses and last use stay where stored |
| EntityStore.RelationWritten | app/infrastructure/repositories/neo4j_memory_graph_repository.py:1970-1989 | what one row makes of its relation, field by field; uses and last use stay where stored |
| EntityStore.ChunkWritten | app/infrastructure/repositories/neo4j_memory_graph_repository.py:1908-1911 | what one row makes of its chunk: index and text are those of the row |
| EntityStore.CountsStayNonNegative | app/infrastructure/repositories/neo4j_memory_graph_repository.py:1948-1954 | over any sequence of writes no stored mention count becomes negative |
| EntityStore.OneNodePerKey | app/infrastructure/repositories/neo4j_memory_graph_repository.py:1934-1964 | of any sequence of writes with keyed rows: nodes with one name and type are one node, and a node keeps its name and type |
| EntityStore.ResolvedRowsKeyed | app/domain/services/memory/graph_extractor.py:251-263 | what resolving an extraction hands on is keyed, as the store law asks |
| EntityStore.JoinedFactsStoredIff | app/infrastructure/repositories/neo4j_memory_graph_repository.py:1960-1961 | the core facts joined in memory are what the store holds afterwards exactly when the stored list was clean and nothing was new; the same of traits |
| EntityStore.NewFactIsLost | app/infrastructure/repositories/neo4j_memory_graph_repository.py:1960-1961 | a new fact and a new trait are joined in memory and not stored |
| DuplicateMerge.RelationsCompose | app/infrastructure/repositories/neo4j_memory_graph_repository.py:1519-1718 | moving relations by one group and then by another is moving them by both at once |
| DuplicateMerge.GroupRelations | app/infrastructure/repositories/neo4j_memory_graph_repository.py:1604-1665 | copying outgoing and incoming relations and deleting the duplicates is the quotient by the group: relations inside a class vanish except loops on the keeper |
| DuplicateMerge.GroupInvolves | app/infrastructure/repositories/neo4j_memory_graph_repository.py:1591-1604 | copying the involvements of events and deleting the duplicates is the quotient by the group; the role is one of an original that has one, and otherwise empty where an edge was moved and missing where none was |
| DuplicateMerge.InvolvesCompose | app/infrastructure/repositories/neo4j_memory_graph_repository.py:1591-1604 | moving involvements by one group and then by another is moving them by both at once, roles included |
| DuplicateMerge.FirstIsBest | app/infrastructure/repositories/neo4j_memory_graph_repository.py:1523-1538 | no member of a group precedes its keeper in the order long-term, oldest, most mentioned, most accessed |
| DuplicateMerge.KeeperIsPreferred | app/infrastructure/repositories/neo4j_memory_graph_repository.py:1523-1538 | the keeper is long-term if any member is; among members of its layer oldest, of those most mentioned, of those most used; missing values are now and 0 |
| DuplicateMerge.FlattenUnique | app/infrastructure/repositories/neo4j_memory_graph_repository.py:1720-1732 | equals the fold that appends unseen non-empty stripped texts of all lists |
| DuplicateMerge.FlattenedShape | app/infrastructure/repositories/neo4j_memory_graph_repository.py:1720-1732 | the result has no repetitions and holds exactly the non-empty stripped texts |
| DuplicateMerge.UpdateKeeper | app/infrastructure/repositories/neo4j_memory_graph_repository.py:1681-1706 | the keeper sums up its group: summed mentions and accesses, the first longest description, long-term if any was and otherwise its own layer or short-term, all facts and traits once in order of appearance; every other property is its own |
| DuplicateMerge.GroupTotal | app/infrastructure/repositories/neo4j_memory_graph_repository.py:1546-1551 | giving the keeper the sum of its group and deleting the rest leaves every total unchanged |
| DuplicateMerge.CountsAdd | app/infrastructure/repositories/neo4j_memory_graph_repository.py:1546-1551 | mentions and uses are summed entity by entity and list by list, a missing count being 0 |
| DuplicateMerge.Repository.MergeDuplicateEntities | app/infrastructure/repositories/neo4j_memory_graph_repository.py:1519-1718 | merging group by group is one simultaneous quotient by (lower-case name, type): nodes, mentions, relations, communities and totals; the reported numbers are right |
| DuplicateMerge.MentionedIff | app/infrastructure/repositories/neo4j_memory_graph_repository.py:1574-1588 | a statement mentions a survivor exactly when it mentioned a member of its class |
| DuplicateMerge.RelatedIff | app/infrastructure/repositories/neo4j_memory_graph_repository.py:1604-1665 | different survivors are related exactly when their classes were; a survivor has a loop exactly when it had it before |
| DuplicateMerge.RelationsKeepProperties | app/infrastructure/repositories/neo4j_memory_graph_repository.py:1604-1665 | every relation that is left was one before between the same classes; moved, its present properties survive and missing ones become 0.5, 0.8, 0 and short-term; unmoved, it is as it was |
| DuplicateMerge.EdgesKeepIds | app/infrastructure/repositories/neo4j_memory_graph_repository.py:1574-1603 | mentions and involvements are exactly those before, ended at the keepers under their own ids, or under one of their other end and the keeper if they had none |
| DuplicateMerge.NamesakesMerge | app/infrastructure/repositories/neo4j_memory_graph_repository.py:1523-1538 | of entities with one type and one lower-case name that is not empty exactly one is left and stands for the others; an entity without namesake is unchanged |
| DuplicateMerge.OneCommunityIff | app/infrastructure/repositories/neo4j_memory_graph_repository.py:1666-1680 | a survivor is in at most one community exactly when the communities of its class agreed |
| DuplicateMerge.KeeperInTwoCommunities | app/infrastructure/repositories/neo4j_memory_graph_repository.py:1666-1680 | two members of different communities leave the keeper in both |
| DuplicateMerge.SecondRunFindsNothing | app/infrastructure/repositories/neo4j_memory_graph_repository.py:1519-1718 | after a run, no listing of the entities has a group left to merge |
| SearchFusion.ImportanceOrderKeptIff | app/infrastructure/repositories/neo4j_memory_graph_repository.py:2028-2052 | reading importance keeps the order of two entities unless the lower is 0 and the higher positive but below the default |
| SearchFusion.RowIsRead | app/infrastructure/repositories/neo4j_memory_graph_repository.py:2028-2052 | present values of a row are kept, except importance 0 and an empty layer; missing ones become 0.5, short-term and 0 |
| SearchFusion.LastScoreCounts | app/infrastructure/repositories/neo4j_memory_graph_repository.py:1482-1485 | an entity has a score in a lane exactly if it has a row there, and it is that of its last one |
| SearchFusion.NormalizeScores | app/infrastructure/repositories/neo4j_memory_graph_repository.py:1507-1517 | scales a lane to the unit interval; a lane whose scores are practically equal becomes all ones |
| SearchFusion.NormalizingIsMonotone | app/infrastructure/repositories/neo4j_memory_graph_repository.py:1507-1517 | scaling never reverses an order, ties and missing entries included |
| SearchFusion.ScaledByExtremes | app/infrastructure/repositories/neo4j_memory_graph_repository.py:1507-1517 | the worst score of a lane becomes 0, the best 1, the others keep their proportions; practically equal ones all become 1 |
| SearchFusion.FusionIsMonotone | app/infrastructure/repositories/neo4j_memory_graph_repository.py:1494-1501 | at least as good in both lanes, importance and layer means no lower fused score |
| SearchFusion.ScoreGap | app/infrastructure/repositories/neo4j_memory_graph_repository.py:1494-1501 | how far one entity is ahead of another: 55 parts of a hundred for the vector lane, 30 for full text, 15 for importance, 5 for long-term memory |
| SearchFusion.VectorLeaderWins | app/infrastructure/repositories/neo4j_memory_graph_repository.py:1494-1501 | of two entities that each lead one lane and are missing from the other, the one in the vector lane wins exactly unless the other is ahead in importance by more than 5/3, or 4/3 if it is long-term |
| SearchFusion.KeepBest | app/infrastructure/repositories/neo4j_memory_graph_repository.py:1488-1493 | one hit per entity, the first with its greatest raw score over both lanes; entities in order of first appearance |
| SearchFusion.Rank | app/infrastructure/repositories/neo4j_memory_graph_repository.py:1502-1506 | a permutation of the scored hits, best first, equals in order of appearance |
| SearchFusion.TopOfRanking | app/infrastructure/repositories/neo4j_memory_graph_repository.py:1502-1506 | the cut ranking holds distinct entities, as many as asked or all, best first and equals in order of appearance; whoever is left out goes behind all that are in it |
| SearchFusion.FuseRows | app/infrastructure/repositories/neo4j_memory_graph_repository.py:1473-1506 | the whole fusion returns the best of the rescored hits, best first, equals in order of first appearance |
| SearchFusion.BetterEntityNotDropped | app/infrastructure/repositories/neo4j_memory_graph_repository.py:1473-1506 | an entity at least as good as a returned one in every respect is returned too, or ties with it |
| AgentTranscript.AppendWellFormedIff | app/domain/services/agents/base.py:169-188 | adding a message keeps a history well formed exactly when it fits the last one |
| AgentTranscript.CompactingKeepsForm | app/domain/models/memory.py:38-56 | compacting keeps exactly the well-formed and the complete histories, and is idempotent |
| AgentTranscript.CompactingRemoves | app/domain/models/memory.py:38-56 | compacting removes the results of looking at web pages and all reasoning, and nothing else |
| AgentTranscript.RollBackCompletes | app/domain/services/agents/base.py:201-238 | roll-back completes every well-formed history, touches only a pending call, and is idempotent |
| AgentTranscript.RollBackAnswersQuestion | app/domain/services/agents/base.py:201-238 | a pending question is kept and answered under its id by exactly the message that came in; any other pending call is dropped |
| AgentTranscript.TranscriptWellFormedIff | app/domain/services/agents/base.py:77-319 | in every run, left at any point and rolled back before the next message: the history is well formed at every moment exactly when nothing is recorded between a call that could not be saved and the next roll-back; whatever the model was asked had all calls answered exactly when nothing is asked in between |
| AgentTranscript.TranscriptAlwaysWellFormed | app/domain/services/agents/base.py:77-319 | if every call can be saved, every prefix of such a run has a well-formed history, and whatever the model was asked had all calls answered |
| AgentTranscript.UnsavedCallSpoils | app/domain/services/agents/base.py:95-149 | a call that cannot be saved, and one more attempt: the model is asked with the call pending, and its answer spoils the history |
| AgentTranscript.InvokeKeepsFormIff | app/domain/services/agents/base.py:240-262 | a new invocation keeps the history well formed exactly when no call is pending |
| AgentTranscript.InvokingAfterExhaustionSpoils | app/domain/services/agents/base.py:256-319 | invoking with a pending call and no roll-back spoils the history for good |
| AgentTranscript.ExhaustionLeavesCallPending | app/domain/services/agents/base.py:256-319 | one tool round allowed and two calls made: the run ends with the second call pending |
| AgentTranscript.HistoryGrows | app/domain/services/agents/base.py:77-319 | within invocations the history only grows |
| AgentTranscript.AttemptIsRecorded | app/domain/services/agents/base.py:90-143 | what an attempt leaves in the history and was asked with: of several calls only the first, a blank answer and a nudge if nothing came |
| AgentTranscript.AttemptLeads | app/domain/services/agents/base.py:90-149 | where an attempt leads: to its call, to the end with an answer or out of iterations, or to the next attempt until there is none |
| AgentTranscript.FailedAttempts | app/domain/services/agents/base.py:90-149 | failing attempts: as many as configured and no more, the last one gives up, and the history is untouched |
| AgentTranscript.WhatCanHappen | app/domain/services/agents/base.py:77-319 | an idle agent is invoked, rolled back or compacted; one that asks tries again while attempts are left; one that calls waits for its tool |
| AgentTranscript.ResultIsRecorded | app/domain/services/agents/base.py:272-310 | a finished call is answered by its result, under its id or a new one if it had none |
| AgentTranscript.Memory.RollBack | app/domain/models/memory.py:34-36 | drops the last message, if any |
| AgentTranscript.Memory.Compact | app/domain/models/memory.py:38-56 | edits every message in place as modelled |
| AgentTranscript.BaseAgent.AskOnce | app/domain/services/agents/base.py:90-146 | one attempt is the modelled step: the reply is added to memory, and an attempt whose save fails keeps it there and is repeated |
| AgentTranscript.BaseAgent.InvokeLlm | app/domain/services/agents/base.py:77-149 | the retry loop takes exactly the steps that the replies dictate and ends with the first reply that can be saved last in memory, or given up or abandoned |
| AgentTranscript.BaseAgent.Invoke | app/domain/services/agents/base.py:240-319 | an invocation on the live memory takes exactly the steps that replies, cancellations and tool results dictate, and they are a run of the model |
| AgentTranscript.BaseAgent.RollBack | app/domain/services/agents/base.py:201-238 | the live memory becomes the rolled-back history |
| AgentTranscript.BaseAgent.CompactMemory | app/domain/services/agents/base.py:190-199 | the live memory becomes the compacted history, a modelled step of its run |
| PlanFlow.SplicingKeepsFinished | app/domain/services/agents/planner.py:93-107 | a plan update keeps every finished prefix |
| PlanFlow.UpdateWithAnswer | app/domain/services/agents/planner.py:70-108 | after an answer the steps from the first that was not carried out are exactly those of the answer, and unchanged if all were; the rest of the plan stays, and the plan is published with them between what the agent did before and after |
| PlanFlow.UpdateWithoutPlan | app/domain/services/agents/planner.py:84-91 | an answer that is no plan ends the update with an exception and leaves the plan |
| PlanFlow.NextStepIsFromAnswer | app/domain/services/flows/planner_react.py:183-228 | after an update the run goes on with the first step of the answer that was not carried out, at its position in the plan, and summarises if there is none |
| PlanFlow.CreateWithAnswer | app/domain/services/flows/planner_react.py:151-181 | a created plan is the answer; title, message and plan are published in this order |
| PlanFlow.CreateWithoutPlan | app/domain/services/agents/planner.py:46-68 | an answer that is no plan ends with an exception and leaves the old plan; without an answer it stays too |
| PlanFlow.ExecuteWithAnswer | app/domain/services/agents/react.py:37-107 | executing a step publishes its start, the tools, and the outcome with its text; the step ends with exactly that outcome |
| PlanFlow.ExecuteWithError | app/domain/services/agents/react.py:37-107 | an error is published with the failed step and kept in it |
| PlanFlow.ExecuteWithQuestion | app/domain/services/agents/react.py:56-72 | a question to the user is shown as a message; then the step waits, and nothing that follows is published |
| PlanFlow.ExecuteWithoutOutcome | app/domain/services/agents/react.py:75-81 | an answer that is no outcome of a step completes the step as it was and raises |
| PlanFlow.SummarizeWithAnswer | app/domain/services/agents/react.py:109-139 | a summary publishes the reply between what the agent did before and after |
| PlanFlow.SummariesRecorded | app/domain/services/flows/planner_react.py:229-239 | a summary is recorded with the steps that it found, and nothing else is recorded as one |
| PlanFlow.FindFirstPending | app/domain/services/agents/planner.py:95-101 | the search finds the first step that is not done, if there is one |
| PlanFlow.ExecutionEnds | app/domain/services/agents/react.py:37-107 | an execution that completes leaves the step completed and publishes no wait; one that waits publishes the wait last and once |
| PlanFlow.FinishedStepsStay | app/domain/services/flows/planner_react.py:143-249 | at every later moment the steps up to one that ran are what they were when it finished, and no position runs twice |
| PlanFlow.RunEndsProperly | app/domain/services/flows/planner_react.py:143-249 | summarising starts only when all steps are done; an ended run published the completed plan and Done last; a waiting one published the wait last |
| PlanFlow.PlannerReActFlow.Invoke | app/domain/services/flows/planner_react.py:100-250 | the loop over the fields publishes and ends exactly as the state machine |
| AgentTaskRunner.NothingAfterWait | app/domain/agent_task_runner.py:395-472 | a session that waits published the wait last and once; anything follows a wait only if the task is cancelled while the waiting status is written: then the end, and the session completes |
| AgentTaskRunner.CancelledAfterWait | app/domain/agent_task_runner.py:395-472 | a task that publishes a wait and is cancelled then publishes the end |
| AgentTaskRunner.NewerInputStops | app/domain/agent_task_runner.py:428-460 | newer input stops the publishing: events up to the first after which it is queued are published and nothing else |
| AgentTaskRunner.FailureIsReported | app/domain/agent_task_runner.py:405-487 | a failing flow: all its events, then the failure, the session completed, and later inputs not looked at |
| AgentTaskRunner.InterruptedGoesOn | app/domain/agent_task_runner.py:405-460 | input that is interrupted is followed by the newer one, after what was published |
| AgentTaskRunner.EmptyMessageIsRefused | app/domain/agent_task_runner.py:358-364 | an empty message is answered with an error without running the flow |
| AgentTaskRunner.Publish | app/domain/agent_task_runner.py:415-455 | publishing one input stops at a wait, at newer input, at the end, or where the task is cancelled |
| AgentTaskRunner.Invoke | app/domain/agent_task_runner.py:395-480 | the runner loop publishes and ends as modelled, cancelled at any number of published events or not at all |
| PopLock.OnlyOwnerReleases | app/infrastructure/external/message_queue/redis_stream_message_queue.py:49-68 | a held lock disappears only by expiry or by the release of the call that owns it |
| PopLock.ReleaseFrees | app/infrastructure/external/message_queue/redis_stream_message_queue.py:49-68 | a release by the owner of an unexpired lock leaves the lock free |
| PopLock.TakenUntilExpiry | app/infrastructure/external/message_queue/redis_stream_message_queue.py:21-47 | a taken lock refuses others exactly until its ten seconds are over |
| PopLock.HeldLockRefuses | app/infrastructure/external/message_queue/redis_stream_message_queue.py:21-47 | a call that finds the lock held at every attempt gives up with nothing after the last, and no sooner |
| PopLock.NoMessageIsLost | app/infrastructure/external/message_queue/redis_stream_message_queue.py:70-140 | in every interleaving, cancellations included, a message that left the stream is the result of a pop, or of one that was cancelled with it; one that did not is still there |
| PopLock.NothingDroppedIff | app/infrastructure/external/message_queue/redis_stream_message_queue.py:110-140 | nothing is dropped exactly when no call is cancelled between its delete and its return |
| PopLock.LateCancelLoses | app/infrastructure/external/message_queue/redis_stream_message_queue.py:110-140 | a pop that is cancelled after its delete: the message is neither in the stream nor returned |
| PopLock.OnceIffDeletesEffective | app/infrastructure/external/message_queue/redis_stream_message_queue.py:110-140 | each message is returned at most once exactly when every delete found its message |
| PopLock.PunctualPopsAreFifo | app/infrastructure/external/message_queue/redis_stream_message_queue.py:110-140 | if no delete comes after its lock expired, what was popped followed by what is left is what was put, in order, nothing twice |
| PopLock.UndisturbedPop | app/infrastructure/external/message_queue/redis_stream_message_queue.py:110-140 | a pop that meets a free lock, with nobody interfering, returns exactly the first message (None only if there is none), leaves the rest and leaves the lock free |
| PopLock.PutThenPop | app/infrastructure/external/message_queue/redis_stream_message_queue.py:70-140 | any number of messages put and any number of undisturbed pops: the i-th pop returns the i-th message that was put, further ones None |
| PopLock.CancelledReturnsNothing | app/infrastructure/external/message_queue/redis_stream_message_queue.py:110-140 | a cancelled call returns nothing; past the lock its release frees it, and stream and other calls stay as they are |
| PopLock.MutualExclusion | app/infrastructure/external/message_queue/redis_stream_message_queue.py:21-47 | at most one call that is in time is past the lock |
| PopLock.LateDeleteDuplicates | app/infrastructure/external/message_queue/redis_stream_message_queue.py:110-140 | a reader that outlives its lock: both calls return the one message |
| PopLock.RedisStreamMessageQueue.AcquireLock | app/infrastructure/external/message_queue/redis_stream_message_queue.py:21-47 | tries until locked or until the time is used up, never longer, with any steps of others in between; a free lock is taken at once, and left alone it waits 100 ms after each attempt that fails |
| PopLock.RedisStreamMessageQueue.Pop | app/infrastructure/external/message_queue/redis_stream_message_queue.py:110-140 | a whole pop takes only modelled steps, with any steps of others in between, and returns its result; meeting a free lock, with only time passing, it returns the first message, leaves the rest and frees the lock |
| DocumentChunker.Window | app/domain/services/notebook/chunker.py:67-80 | the loop cuts exactly the modelled windows |
| DocumentChunker.NormalizedConcat | app/domain/services/notebook/chunker.py:28-30 | a normalised line is the stripped line; normalised texts are joined by one line break unless one is empty |
| DocumentChunker.WindowsKeepPhrases | app/domain/services/notebook/chunker.py:67-80 | no boundary breaks a phrase of at most overlap + 1 characters that neither starts nor ends in white space |
| DocumentChunker.LongerPhraseBroken | app/domain/services/notebook/chunker.py:67-80 | the bound is sharp: for every size and overlap and every greater length, a phrase of that length in a text of which no window holds it |
| DocumentChunker.PhraseSurvivesBothLevels | app/domain/services/notebook/chunker.py:20-41 | such a phrase of the normalised document, line breaks included, is unbroken in some parent and in some child of that parent |
| DocumentChunker.LinePhraseSurvives | app/domain/services/notebook/chunker.py:20-41 | in particular every such phrase on one line of the document |
| DocumentChunker.ChunksFit | app/domain/services/notebook/chunker.py:20-41 | chunks of both levels are not empty, fit their window and are pieces of what they were cut from |
| DocumentChunker.ChunkParentChild | app/domain/services/notebook/chunker.py:20-41 | the two levels are the windows of the normalised text and of each parent |
| ToolNames.GetAllTools | app/domain/services/tools/mcp.py:268-296 | the loops print every tool of every server, in order |
| ToolNames.Resolve | app/domain/services/tools/mcp.py:307-326 | the loop finds the first configured match, whose printed name is the one asked for, or nothing |
| ToolNames.ResolutionIsUnique | app/domain/services/tools/mcp.py:307-326 | at most one answer |
| ToolNames.RoundTripsIff | app/domain/services/tools/mcp.py:275-326 | a printed name parses back exactly when no earlier server's prefix fits it |
| ToolNames.ParsingUndoesPrintingIff | app/domain/services/tools/mcp.py:275-326 | parsing undoes printing for every tool of every server exactly when no effective prefix begins another |
| ToolNames.NamesDiffer | app/domain/services/tools/mcp.py:275-281 | then printed names of different tools differ |
| ToolNames.UnderscoreClash | app/domain/services/tools/mcp.py:275-326 | servers "a" and "a_b": tool "t" of the second parses as tool "b_t" of the first |

## Left out

- Vectors: floating-point rounding; `sqrt` is a parameter that is exact where a lemma says so, and the vectors of one average have one dimension.
- CommunityClusterer.FullCluster: the metadata summaries; a store has one user, and community ids are any function of labels, so relabelling on a second run is not tied to the first.
- EntityDeduplicator.DedupBatch: assumes that equal ids in a batch mean equal keys, as ids are hashes of keys in `app/domain/services/memory/graph_extractor.py:294-318`. It promises a summary of each group; the order in which lists are joined is fixed by `DedupOne` step by step.
- EntityDeduplicator.Choose: the language model's answer may be anything; a failed or disabled call is the answer that never merges. Name similarity is any function.
- GraphFusion.BuildEntities: ids are hashes of normalised name and type, taken as injective.
- GraphExtractor.BuildGraph: events and their participants.
- MemoryExtraction.ExtractMemory: events and their participants; where two extracted entities end with one stored id, its count is that of `GraphFusion.MentionsCounted`.
- MemoryExtraction.ExtractAll: extractions follow one another and their reads, model calls and writes succeed; merging of stored duplicates and community clustering do not run in between.
- GraphRepository.Repository.MergeGraph: the separate write of events, and the user id that every pattern also matches.
- DuplicateMerge.Repository.MergeDuplicateEntities: entity ids are not empty. Where several relations or involvements land on the same end points and id, the properties are those of one of them.
- SearchFusion.FuseRows: rows carry one score per entity and lane where monotonicity is claimed; relations and statements shown with a hit are not part of it.
- AgentTranscript: tool results and replies are values; only the assistant role is modelled for replies, and only the first tool call of a reply, which is all the code keeps. A save that fails outside the retry loop ends the invocation, like any other exception there.
- PlanFlow: the events of planner and executor are arbitrary lists; liveness, titles and recall of memories are left out.
- AgentTaskRunner.Invoke: files, screenshots, session titles and counters; database calls succeed; a second cancellation, or one while a failure is being reported or tools are cleaned up.
- PopLock: `get`, `clear`, `delete_message` and `size`; Redis commands succeed and are atomic; time is whole milliseconds.
- DocumentChunker.ChunkParentChild: splitting into lines is an input; white space is any predicate.
- ToolNames.Resolve: connecting to servers and calling the tool.
- Routes, schemas, migrations, sandbox, browser, search engines, storage, authentication and configuration: plumbing without a law of this kind.
