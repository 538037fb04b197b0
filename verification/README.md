# SpiceDB: a verified model of its hard parts

SpiceDB decides whether a subject has a permission on a resource. The answer follows from a schema and a graph of relationships, where a relationship may carry a condition (a caveat) and a subject may be a wildcard with exclusions. This project models the parts of SpiceDB that are hard to get right and proves what they promise.

- **Caveats** (`Caveats`, `CaveatRunner`). Caveat expressions and their combinators, each with its own reading of "no expression"; and the run of an expression under a context that leaves caveats open, against three-valued and classical logic.
- **Subject sets** (`Subjects`, `SubjectSets`, `ExpansionFold`). Concrete subjects, an optional wildcard with exclusions, a condition on each. The set denotes a truth value for every assignment of caveats and every subject id. Intersection is exactly conjunction. Union and subtraction are disjunction and difference except at exactly stated points, all of which need a caveated wildcard. Expansion trees are folded into such sets, exactly wherever the wildcards in them are combined exactly.
- **Checks** (`Membership`, `Reducers`, `DispatchSets`, `CheckSemantics`, `CheckMapping`, `CheckParts`, `Check`, `CheckReference`). The recursive, batched, chunked and short-circuiting evaluation of a check, with child results arriving in any order. A check that returns gives each resource of the batch exactly its own meaning under every assignment, and it returns whenever the schema's references resolve and the depth is above the rank of the data.
- **Aliases** (`Aliasing`). Resolving permissions that only name another, with a cycle found exactly when there is one.
- **Streams** (`LimitTrackers`, `LimitedStream`). Parallel tasks whose results reach the parent in task order under one shared limit, in every interleaving. Every run settles within a stated number of steps.
- **Cursored iterators** (`CursoredIterators`, `Resumption`, `Nesting`, `ParallelBranches`, `ParallelMapping`, `MappingProgress`, `TaskSlots`, `Starvation`, `ChunkProducer`, `LookupSession`). Iterators that can be resumed from the cursor of any item, the combinators that build them, and their parallel forms in every interleaving, with the slots of the task runner that runs them and the exact condition under which they get through. The chunk producer of lookup with its cache, and whole sessions of pages taken from it while chunks are evicted.
- **Task runner** (`PreloadedRunner`). Preloaded tasks, bounded runners, and cancellation on the first error, in every interleaving. Every run ends within a stated number of steps.

Code that changes things step by step is modelled by classes, methods and loops proved against specification functions. Concurrent code is a state with its possible steps, and what is proved holds in every state of every run. Pure code is functions and lemmas.

Some properties one would expect are false of the code. They are stated with a concrete witness and the exact condition under which they hold:

- Adding a caveated wildcard to a set can admit a subject that neither side admits (`UnionOvershootWitness`, `AddExactExactlyWhen`), and subtracting a wildcard with exclusions from a set with a caveated wildcard can drop or keep the wrong subjects (`SubtractInexactWitness`, `SubtractExactExactlyWhen`). For whole sets the exact conditions are `UnionExactExactlyWhen` and `DifferenceExactExactlyWhen`.
- A caveat expression can stay partial although every completion of the context gives it the same value (`TwiceUsedStaysPartial`). It cannot when no caveat is used twice (`PartialIffUndetermined`).
- The sequential producer and mapper skip every hold, while the concurrent form treats a hold that no chunk directly precedes as an error (`MisplacedHoldWitness`). When it ends, it ends with an error exactly if there is such a hold (`ConcurrentYieldsSequential`). The producer of lookup never makes such a hold (`ChunkedLookup.Produce`).
- A stream whose limit is used up does not always cancel the tasks that still run: not when a later task uses it up exactly (`UsedUpWitness`). `CancelsExactlyWhen` says exactly when it does.
- The concurrent producer and mapper can wait forever. A runner of the task runner that finds no task keeps its slot for a moment, and a task scheduled in between gets no runner. With two slots this can happen to the second of two chunks before a hold (`TwoSlotsWitness`). `StarvesExactlyWhen` says exactly for which lists of chunks and holds, and for which concurrency, some run waits forever. For all others every run gets through (`ConcurrentYieldsSequential`). A concurrency of one is not affected: it takes the sequential form.

That no target of an alias is itself an alias holds of what aliasing receives, definitions built with kinds and validated (`BuiltTargetsAreFinal`). It rests on the kinds: a definition made without the builder can be valid and lack them (`AliasTargetWitness`), and `TargetsAreFinal` says exactly when a target is then an alias.

Where the code and its comments differ the model follows the code. A dispatched check whose permission is an alias is sent on without the caller's results setting, so it asks for all results. `Invert` of "no expression" is "no expression" again, so every caller treats that case itself. A NOT with several children looks at the first only, and an operation without children is true exactly for AND. The chunk producer with a chunk size of zero makes chunks of one resource.

## Model

| member | source | states |
|---|---|---|
| `Caveats.CaveatAsExpr` | internal/caveats/builder.go:10-20 | a missing caveat holds always, another exactly when its caveat is true |
| `Caveats.ShortcircuitedOr` | internal/caveats/builder.go:59-65 | under every assignment a disjunction in which "no expression" is true; the result is "no expression" exactly when an operand is |
| `Caveats.Or` | internal/caveats/builder.go:68-89 | a disjunction in which a missing operand is dropped |
| `Caveats.And` | internal/caveats/builder.go:92-113 | under every assignment a conjunction in which "no expression" is true |
| `Caveats.Invert` | internal/caveats/builder.go:117-130 | negation, and "no expression" for "no expression" |
| `Caveats.Subtract` | internal/caveats/builder.go:134-152 | conjunction with the negation of the second operand, a missing one of which removes nothing |
| `CaveatRunner.RunExpression` | internal/caveats/run.go:206-408 | fails exactly when a child it looks at fails; otherwise its value, partial flag and missing names are the three-valued meaning of the expression, with or without debugging and whatever the failing leaves would have been |
| `CaveatRunner.RunOperation` | internal/caveats/run.go:359-407 | the same for the loop over the children of a conjunction or disjunction with its early exit |
| `CaveatRunner.AndStep` | internal/caveats/run.go:274-307 | folding one more child of a conjunction keeps the three-valued conjunction of all children so far |
| `CaveatRunner.OrStep` | internal/caveats/run.go:309-342 | the same for disjunction |
| `CaveatRunner.SyntheticMissing` | internal/caveats/run.go:440-462 | the missing names of a combined partial result are those of its partial children, whether collected during the run or from the debug results |
| `CaveatRunner.DecidedEarly` | internal/caveats/run.go:376-397 | stopping at a decisive child gives the value that all children would have given |
| `CaveatRunner.DebugSucceedsLess` | internal/caveats/run.go:359-407 | where the debugging run succeeds the plain run succeeds, so the two agree on value, partial flag and missing names |
| `CaveatRunner.DeterminedIsClassical` | internal/caveats/run.go:206-408 | a determined result is the classical value under every completion of the open leaves |
| `CaveatRunner.ContextOnlyRefines` | internal/caveats/run.go:206-408 | adding context never changes a determined result, and a result that stays partial misses no new name |
| `CaveatRunner.SuppliedNamesDetermine` | internal/caveats/run.go:206-408 | supplying every name reported missing determines the result |
| `CaveatRunner.PartialIffUndetermined` | internal/caveats/run.go:206-408 | when no caveat is used twice a result is determined exactly when all completions agree |
| `CaveatRunner.TwiceUsedStaysPartial` | internal/caveats/run.go:206-408 | with a caveat used twice a result can be partial although all completions agree |
| `Subjects.ExclusionsMapFor` | internal/datasets/basesubjectset.go:850-856 | the map holds an id exactly when the wildcard excludes it by name, with the last of several entries; with distinct entries it denotes exactly the exclusions |
| `Subjects.UnionConcreteWithConcrete` | internal/datasets/basesubjectset.go:436-459 | holds exactly when one of the two does |
| `Subjects.SubtractConcreteFromConcrete` | internal/datasets/basesubjectset.go:608-637 | holds exactly when the first does and the second does not |
| `Subjects.IntersectConcreteWithConcrete` | internal/datasets/basesubjectset.go:686-703 | holds exactly when both do |
| `Subjects.UnionWildcardWithConcrete` | internal/datasets/basesubjectset.go:383-432 | the concrete subject is no longer excluded when it holds; all other exclusions stay |
| `Subjects.SubtractConcreteFromWildcard` | internal/datasets/basesubjectset.go:640-682 | the concrete subject is excluded as well when it holds |
| `Subjects.SubtractWildcardFromConcrete` | internal/datasets/basesubjectset.go:559-605 | stays exactly when the wildcard does not cover it |
| `Subjects.IntersectConcreteWithWildcard` | internal/datasets/basesubjectset.go:752-813 | stays exactly when the wildcard covers it |
| `Subjects.ConcreteFromExclusion` | internal/datasets/basesubjectset.go:489-540 | an exclusion of the subtracted wildcard becomes a concrete subject under the stated condition |
| `Subjects.SubtractWildcardFromWildcard` | internal/datasets/basesubjectset.go:464-555 | what is left of the wildcard, and the concrete subjects made from the exclusions that only the subtracted wildcard has |
| `SubjectSets.BaseSubjectSet.constructor` | internal/datasets/basesubjectset.go:52-58 | an empty set satisfies the representation invariant |
| `SubjectSets.BaseSubjectSet.Add` | internal/datasets/basesubjectset.go:79-106 | under every assignment an id is a member afterwards exactly when it was one, is covered by the subject, or is at a named overshoot point; the invariant and plain wildcards are kept |
| `SubjectSets.BaseSubjectSet.AddWildcard` | internal/datasets/basesubjectset.go:80-94 | the same for a wildcard, whose exclusions lose every concrete member |
| `SubjectSets.BaseSubjectSet.Subtract` | internal/datasets/basesubjectset.go:119-142 | an id stays a member exactly when it was one and is not covered, apart from the named points; the invariant is kept |
| `SubjectSets.BaseSubjectSet.SubtractWildcard` | internal/datasets/basesubjectset.go:120-132 | the same for a wildcard, including concretes overwritten by exclusions |
| `SubjectSets.BaseSubjectSet.SubtractFromConcretes` | internal/datasets/basesubjectset.go:121-123 | exactly the concretes not covered by the wildcard stay |
| `SubjectSets.BaseSubjectSet.SubtractAll` | internal/datasets/basesubjectset.go:146-150 | difference of the two sets under every assignment, apart from the named points |
| `SubjectSets.BaseSubjectSet.IntersectionDifference` | internal/datasets/basesubjectset.go:163-215 | exactly the conjunction of the two sets, whatever is caveated |
| `SubjectSets.BaseSubjectSet.IntersectConcretes` | internal/datasets/basesubjectset.go:175-194 | first loop: this set's concretes that the other set contains |
| `SubjectSets.BaseSubjectSet.AddFromWildcard` | internal/datasets/basesubjectset.go:196-210 | second loop: the other set's concretes that this set's wildcard covers |
| `SubjectSets.BaseSubjectSet.UnionWith` | internal/datasets/basesubjectset.go:218-226 | no member of the set or of the list is lost, with any caveats |
| `SubjectSets.BaseSubjectSet.UnionWithSet` | internal/datasets/basesubjectset.go:230-232 | disjunction of the two sets under every assignment, apart from the named overshoot points |
| `SubjectSets.BaseSubjectSet.AsSlice` | internal/datasets/basesubjectset.go:259-265 | the slice lists the set's subjects once each, the wildcard last |
| `SubjectSets.BaseSubjectSet.Clone` | internal/datasets/basesubjectset.go:269-275 | a new set with the same contents |
| `SubjectSets.BaseSubjectSet.WithParentCaveatExpression` | internal/datasets/basesubjectset.go:290-315 | a copy whose members are those of the set for which the parent's condition holds too |
| `SubjectSets.BaseSubjectSet.ApplyParent` | internal/datasets/basesubjectset.go:304-312 | the loop over the concretes |
| `SubjectSets.BaseSubjectSet.UnionWildcardWithWildcard` | internal/datasets/basesubjectset.go:319-379 | conditions or'ed, an id excluded exactly when both exclude it, an error exactly when a wildcard is among the exclusions |
| `SubjectSets.BaseSubjectSet.IntersectWildcardWithWildcard` | internal/datasets/basesubjectset.go:707-748 | conditions and'ed, an id excluded exactly when one excludes it, and the error case |
| `SubjectSets.BaseSubjectSet.AddExclusions` | internal/datasets/basesubjectset.go:342-353 | the exclusions become a set without wildcard that denotes them |
| `SubjectSets.PlainSetsHomomorphism` | internal/datasets/basesubjectset.go:79-232 | sets whose wildcards carry no caveat are closed under the three operations, which on them are exactly or, and, and-not |
| `SubjectSets.AddExactExactlyWhen` | internal/datasets/basesubjectset.go:319-432 | adding is exact at a point if and only if it is not an overshoot point without concrete entry, and never overshoots without a caveated wildcard on one side and exclusions |
| `SubjectSets.SubtractExactExactlyWhen` | internal/datasets/basesubjectset.go:464-605 | subtracting is exact at a point if and only if it is none of the named points, and always with a plain wildcard or without exclusions on the subtracted one |
| `SubjectSets.UnionExactExactlyWhen` | internal/datasets/basesubjectset.go:218-232 | the union of two sets is exact at a point if and only if it is not an overshoot point of their wildcards without concrete entry on either side; always when one wildcard is missing, both are plain or neither has exclusions |
| `SubjectSets.DifferenceExactExactlyWhen` | internal/datasets/basesubjectset.go:146-150 | the difference of two sets is exact at a point if and only if it is none of the named points of the subtracted wildcard, or a subtracted concrete decides it; always when the first wildcard is plain or the second is missing or has no exclusions |
| `SubjectSets.UnionOvershootWitness` | internal/datasets/basesubjectset.go:319-379 | a union that admits an id neither side admits |
| `SubjectSets.SubtractInexactWitness` | internal/datasets/basesubjectset.go:464-555 | a subtraction that drops a member, and one that leaves a subtracted id |
| `ExpansionFold.TrackingSubjectSet.constructor` | internal/developmentmembership/trackingsubjectset.go:19-24 | an empty tracking set |
| `ExpansionFold.TrackingSubjectSet.GetSetForKey` | internal/developmentmembership/trackingsubjectset.go:84-109 | the set of a subject type, an empty one when there was none |
| `ExpansionFold.TrackingSubjectSet.Add` | internal/developmentmembership/trackingsubjectset.go:74-82 | adds to the set of the subject's type and no other |
| `ExpansionFold.TrackingSubjectSet.AddFrom` | internal/developmentmembership/trackingsubjectset.go:40-48 | union for every subject type |
| `ExpansionFold.TrackingSubjectSet.Intersect` | internal/developmentmembership/trackingsubjectset.go:161-177 | intersection for the types of both, nothing for the others |
| `ExpansionFold.TrackingSubjectSet.Exclude` | internal/developmentmembership/trackingsubjectset.go:132-145 | difference for every type of this set |
| `ExpansionFold.TrackingSubjectSet.ApplyParentCaveatExpression` | internal/developmentmembership/trackingsubjectset.go:180-188 | the parent's condition on the set of every type |
| `ExpansionFold.PopulateFoundSubjects` | internal/developmentmembership/membership.go:59-167 | fails exactly on unknown operations and empty exclusions; otherwise the set is the recursive fold of the tree in terms of the set operations, and for each subject type whose wildcards are combined exactly its members are, under every assignment, exactly those the tree grants; without exclusions nothing granted is missing |
| `ExpansionFold.FoldsMeans` | internal/developmentmembership/membership.go:59-167 | that fold has exactly the members the tree grants wherever no union joins a caveated wildcard with another one while someone is excluded, and no exclusion subtracts a wildcard from a caveated one |
| `ExpansionFold.PlainIsExact` | internal/developmentmembership/membership.go:59-167 | a tree whose wildcards carry no caveat is combined exactly everywhere |
| `ExpansionFold.PopulateLeaf` | internal/developmentmembership/membership.go:149-163 | the subjects of a leaf are added one after another |
| `ExpansionFold.PopulateChildren` | internal/developmentmembership/membership.go:68-147 | the sets of the children are combined one after another, intersection and exclusion starting from the first |
| `ExpansionFold.PopulateChild` | internal/developmentmembership/membership.go:70-80 | one more child is folded and combined, and fails exactly when it cannot be folded |
| `ExpansionFold.CombineChild` | internal/developmentmembership/membership.go:76-142 | union, intersection or difference for every subject type |
| `ExpansionFold.FoldLeafStep` | internal/developmentmembership/membership.go:151-160 | adding a subject keeps the meaning of the leaf so far |
| `ExpansionFold.FoldUnionStep` | internal/developmentmembership/membership.go:68-83 | adding a child's set keeps the meaning of the union of the children so far, exactly where the wildcards allow it |
| `ExpansionFold.FoldIntersectionStep` | internal/developmentmembership/membership.go:85-116 | intersecting keeps the meaning of the intersection so far |
| `ExpansionFold.FoldExclusionStep` | internal/developmentmembership/membership.go:118-147 | excluding keeps the meaning of the exclusion so far, exactly where the wildcards allow it |
| `ExpansionFold.FoldParentStep` | internal/developmentmembership/trackingsubjectset.go:180-188 | putting the node's own condition on the set gives the meaning of the node |
| `Membership.MembershipSet.constructor` | internal/graph/membershipset.go:24-29 | an empty set, nothing determined |
| `Membership.MembershipSet.AddMember` | internal/graph/membershipset.go:95-118 | the member holds exactly when it did or the expression does; the determined flag stays exact |
| `Membership.MembershipSet.AddDirectMember` | internal/graph/membershipset.go:48-50 | the same for a relationship's caveat |
| `Membership.MembershipSet.AddMemberWithParentCaveat` | internal/graph/membershipset.go:67-74 | the same for an expression under a relationship's caveat |
| `Membership.MembershipSet.UnionWith` | internal/graph/membershipset.go:122-128 | pointwise disjunction with the results; the flag says exactly whether some member has no caveat |
| `Membership.MembershipSet.IntersectWith` | internal/graph/membershipset.go:132-152 | pointwise conjunction, flag exact |
| `Membership.MembershipSet.RemoveMissing` | internal/graph/membershipset.go:133-137 | removes exactly the members the results do not report |
| `Membership.MembershipSet.Subtract` | internal/graph/membershipset.go:156-173 | pointwise difference, flag exact |
| `Membership.MembershipSet.AsCheckResultsMap` | internal/graph/membershipset.go:226-241 | the results report exactly the members, caveated exactly when conditional |
| `Reducers.Union` | internal/graph/check.go:1073-1117 | for every order of arrival: sound and complete for the disjunction of the children, or one unconditional member when that is enough; it fails exactly when a failure arrives, and, where one member is enough, no certain member before it |
| `Reducers.All` | internal/graph/check.go:1120-1172 | the same for the conjunction; it fails exactly when a failure arrives while some id is still common to all results |
| `Reducers.Difference` | internal/graph/check.go:1175-1254 | the same for the first child without the others; it fails exactly when the first fails, or another while something of the first is left |
| `Reducers.Arrive` | internal/graph/check.go:1260-1278 | children's results in any order, each still answering its own problem |
| `Reducers.AnswersAgree` | internal/graph/check.go:1073-1254 | two complete answers to one problem denote the same members, so the order of arrival does not show |
| `Reducers.SingleResultIsAll` | internal/graph/check.go:222-227 | for one id a single result is all results |
| `DispatchSets.CheckDispatchSet.constructor` | internal/graph/checkdispatchset.go:60-65 | represents no relationships |
| `DispatchSets.CheckDispatchSet.AddForRelationship` | internal/graph/checkdispatchset.go:68-90 | represents one relationship more: its subject, whether any of its relationships is caveated, and its mapping |
| `DispatchSets.CheckDispatchSet.DispatchChunks` | internal/graph/checkdispatchset.go:92-135 | every subject is in exactly one chunk of its type, chunks are within the size, and at most ceil(k/size) chunks of a type with k caveated subjects are flagged |
| `DispatchSets.SortedEntries` | internal/graph/checkdispatchset.go:99-113 | all subjects of a type once each, caveated ones first, then by id |
| `DispatchSets.ChunkEntries` | internal/graph/checkdispatchset.go:115-131 | the chunks of one type list the entries in order |
| `DispatchSets.OneChunk` | internal/graph/checkdispatchset.go:118-130 | a chunk is flagged exactly when one of its subjects is caveated |
| `DispatchSets.MappingsStep` | internal/graph/checkdispatchset.go:140-144 | the mappings of a subject are exactly those of its relationships |
| `CheckMapping.MapFoundResources` | internal/graph/check.go:517-537 | each resource gets the disjunction over its relationships of the relationship's caveat and the child's expression, whatever kind the child's results have |
| `CheckMapping.AddMappings` | internal/graph/check.go:527-529 | the mappings of one subject are added under its expression |
| `CheckMapping.MappedAnswers` | internal/graph/check.go:484-512 | answers about a chunk's subjects become answers about the resources, also when a single result is enough, because flagged chunks ask for all results |
| `CheckMapping.ChunksCover` | internal/graph/check.go:483-512 | the chunks together miss no relationship, so their disjunction is the meaning of all of them |
| `CheckMapping.BuildDispatchSet` | internal/graph/check.go:472-480 | the dispatch set of relationships read in any order |
| `CheckSemantics.AliasSameMeaning` | internal/dispatch/graph/graph.go:324-353 | away from the subject's own type an alias chain never changes membership |
| `CheckSemantics.AliasRanks` | internal/dispatch/graph/graph.go:324-353 | following an alias does not leave the depth that is enough |
| `CheckParts.Unique` | internal/graph/check.go:183-184 | the distinct ids of the request |
| `CheckParts.FilterForFoundMemberResource` | internal/graph/check.go:765-779 | splits off the subject's own id exactly when the relation asked about is the subject's own |
| `CheckParts.CombineResultWithFoundResources` | internal/graph/check.go:1317-1334 | the results and the members found before together, whatever kind the results have; a certain member on either side stays one |
| `CheckParts.IdentityAnswers` | internal/graph/check.go:186-219 | putting the subject's own id back keeps the answer right |
| `CheckParts.CheckSelf` | internal/graph/check.go:598-621 | exactly the resource that is the subject |
| `CheckParts.ClassifyAllowed` | internal/graph/check.go:336-383 | which kinds of subject the relation allows |
| `CheckParts.FindMatches` | internal/graph/check.go:421-434 | the members granted by matching relationships; it stops early exactly when one certain member is enough and there is one |
| `CheckParts.SelectDirect` | internal/graph/check.go:336-420 | selects exactly the relationships that grant membership directly, and tells when no userset can add a member |
| `CheckParts.MatchesAreDirect` | internal/graph/check.go:384-420 | the first query selects exactly the relationships that grant membership directly |
| `CheckParts.NonTerminalsAreIndirect` | internal/graph/check.go:452-471 | the second query selects exactly those that lead to other usersets |
| `CheckParts.NotCertain` | internal/graph/check.go:436-445 | the ids not yet found without a caveat |
| `CheckParts.ArrowIsRels` | internal/graph/check.go:987-1002 | the relationships an arrow follows decide exactly its meaning |
| `Check.DispatchOverSubjects` | internal/graph/check.go:472-514 | dispatching over the subjects of relationships and mapping back answers what the relationships grant |
| `Check.CheckChunks` | internal/graph/check.go:484-512 | every chunk's result answers its part |
| `Check.CheckChunk` | internal/graph/check.go:484-512 | the same for one chunk |
| `Check.AskAbout` | internal/graph/check.go:484-506 | a chunk of subjects is asked about itself, or about the relation computed on it |
| `Check.CheckComputedUserset` | internal/graph/check.go:623-690 | answers the relation of the given objects; the subject itself is an answer, a missing relation behind an arrow is none, and a missing type is an error |
| `Check.CheckTupleToUserset` | internal/graph/check.go:942-1023 | answers the arrow; an unknown tupleset is an error |
| `Check.RunSetOperation` | internal/graph/check.go:567-596 | answers the child of a rewrite; `_this` is an error |
| `Check.RunChildren` | internal/graph/check.go:1260-1278 | every child of a rewrite is answered |
| `Check.CheckUsersetRewrite` | internal/graph/check.go:539-559 | answers the rewrite; an exclusion of one child is an error |
| `Check.CheckDirect` | internal/graph/check.go:304-515 | answers a relation without rewrite; a relationship without a caveat decides the check whatever its usersets would do, for one id or when one is enough, and for all ids when each has one |
| `Check.CheckIndirect` | internal/graph/check.go:452-515 | answers what its usersets grant |
| `Check.CheckInternal` | internal/graph/check.go:165-245 | answers the relation for the requested ids; an empty request and a wildcard subject are refused; the subject itself and certain relationships are enough for an answer |
| `Check.CheckRelation` | internal/graph/check.go:222-245 | answers the relation's own rule; resetting a single id to a single result changes nothing |
| `Check.DispatchCheck` | internal/dispatch/graph/graph.go:273-360 | a check with any depth left answers its relation, alias or not, and succeeds when the depth is above the rank of the data, or when the ids asked about are plain: the subject itself or certain by a relationship; without depth, or for an unknown relation, it fails |
| `CheckReference.ReferenceIsSolution` | internal/graph/check.go:165-245 | on data without cycles plain recursion solves the equations of membership |
| `CheckReference.SolutionIsReference` | internal/graph/check.go:165-245 | and nothing else does |
| `CheckReference.CheckBatch` | internal/graph/check.go:99-245 | a check of a batch reports each resource exactly as the reference does for it alone, under every assignment, whatever the batch, the chunk size and the order of arrival; and it succeeds when the schema's references resolve and the depth is above the rank |
| `Aliasing.ComputePermissionAliases` | internal/namespace/aliasing.go:12-82 | terminates in every order of iteration; stated of the rules as they are written, it fails exactly when permissions name each other in a ring, then names exactly those that lead nowhere, and otherwise maps exactly the names whose rule is just another name, each to where these rules lead |
| `Aliasing.RulesDecide` | internal/namespace/aliasing.go:17-53 | chains, ends and rings of references are those of the rules as they are written: a union of exactly one computed userset |
| `Aliasing.Classify` | internal/namespace/aliasing.go:17-53 | every relation is resolved at once or waits for a permission |
| `Aliasing.Pass` | internal/namespace/aliasing.go:57-69 | a pass in any order resolves something, or every waiting name waits for another |
| `Aliasing.TryResolve` | internal/namespace/aliasing.go:58-68 | a name whose target is resolved gets the end of its own chain |
| `Aliasing.Stuck` | internal/namespace/aliasing.go:70-77 | a pass without progress means a ring, and the names left are exactly those without an end |
| `Aliasing.AllResolved` | internal/namespace/aliasing.go:55-81 | with nothing left waiting there is no ring |
| `Aliasing.EndsAreUnique` | internal/namespace/aliasing.go:12-82 | exactly one map sends every name to the end of its chain |
| `Aliasing.TargetsAreFinal` | internal/namespace/aliasing.go:40-52 | no target is itself a key if and only if no chain stops at a name that is not marked as a permission and refers to another |
| `Aliasing.BuiltTargetsAreFinal` | pkg/schema/typesystem_validation.go:173-202 | in a validated definition whose kinds are as the builder sets them no target is itself a key |
| `Aliasing.AliasTargetWitness` | pkg/namespace/builder.go:49-63 | a valid definition in which no kind says that `viewer` is a permission: the target of `view` is `viewer`, itself an alias of `editor` |
| `Aliasing.StoredAliasesResolved` | internal/namespace/aliasing.go:12-82 | the map gives what checks assume of stored aliases |
| `LimitTrackers.LimitTracker.constructor` | internal/graph/limits.go:19-24 | zero allows any number of results, another limit exactly that many |
| `LimitTrackers.LimitTracker.PrepareForPublishing` | internal/graph/limits.go:41-55 | takes one out of the limit exactly when one is left |
| `LimitTrackers.LimitTracker.MarkAlreadyPublished` | internal/graph/limits.go:59-74 | takes a number out, an error exactly when it exceeds the limit |
| `LimitTrackers.Limits.Cut` | internal/graph/limits.go:41-55 | the longest prefix within the limit |
| `LimitedStream.ParallelLimitedIndexedStream.constructor` | internal/graph/cursors.go:429-453 | nothing published, nothing completed |
| `LimitedStream.ParallelLimitedIndexedStream.New` | internal/graph/cursors.go:429-453 | an error exactly when the number of streams is not positive, otherwise a stream with nothing published |
| `LimitedStream.ParallelLimitedIndexedStream.PublishResults` | internal/graph/cursors.go:527-541 | publishes one task's results until the limit is reached |
| `LimitedStream.ParallelLimitedIndexedStream.TaskCompleted` | internal/graph/cursors.go:493-545 | publishes every task that has become ready, in order, as the specification function does, and says what is left when the over-limit error stops it |
| `LimitedStream.PublishAllCuts` | internal/graph/cursors.go:527-541 | publishing is cutting at the limit |
| `LimitedStream.PublishReadyInv` | internal/graph/cursors.go:506-544 | publishing what is ready meets no error and keeps the invariant |
| `LimitedStream.CancelsExactlyWhen` | internal/graph/cursors.go:493-545 | reporting completion cancels every registered task exactly when the limit was used up before, the first task has used it up, or a result no longer fits, and no task otherwise |
| `LimitedStream.UsedUpWitness` | internal/graph/cursors.go:527-541 | a later task uses up the limit exactly, and the task after it is not canceled |
| `LimitedStream.BeginInv` | internal/graph/cursors.go:456-481 | starting a task under a copy of the limit keeps the invariant |
| `LimitedStream.EmitInv` | internal/graph/cursors.go:456-481 | a task's output, straight to the parent or collected, keeps it |
| `LimitedStream.CompleteInv` | internal/graph/cursors.go:493-545 | reporting completion never hits the over-limit error and keeps it |
| `LimitedStream.RunInv` | internal/graph/cursors.go:353-407 | the invariant holds in every state of every run |
| `LimitedStream.NotStuck` | internal/graph/cursors.go:353-407 | a task that has not settled can take a step |
| `LimitedStream.StepWorks` | internal/graph/cursors.go:353-407 | every step gets some task further and throws no other back |
| `LimitedStream.RunsSettle` | internal/graph/cursors.go:353-407 | no run is longer than the outputs call for, and until all tasks have settled it can go on |
| `LimitedStream.ParentReceivesInOrder` | internal/graph/cursors.go:353-407 | for every order of starts and completions the parent has received a prefix of the concatenated outputs within the limit; every run goes on, within a stated bound, until all tasks have settled, and then the parent has received exactly as much as the limit allows |
| `PreloadedRunner.PreloadedTaskRunner.constructor` | internal/taskrunner/preloadedtaskrunner.go:28-41 | no tasks and no error, with at least one runner allowed whatever limit is asked for |
| `PreloadedRunner.Preload` | internal/taskrunner/preloadedtaskrunner.go:44-47 | adding tasks one by one leads to the state in which every run of the protocol starts |
| `PreloadedRunner.PreloadedTaskRunner.SelectTask` | internal/taskrunner/preloadedtaskrunner.go:116-128 | takes the first task, none exactly when the queue is empty |
| `PreloadedRunner.PreloadedTaskRunner.Empty` | internal/taskrunner/preloadedtaskrunner.go:140-154 | drops every queued task and its wait, with an error stored |
| `PreloadedRunner.SpawnInv` | internal/taskrunner/preloadedtaskrunner.go:73-91 | a spawn attempt keeps the invariant |
| `PreloadedRunner.RunnerStepInv` | internal/taskrunner/preloadedtaskrunner.go:93-114 | every step of a runner keeps it |
| `PreloadedRunner.RunInv` | internal/taskrunner/preloadedtaskrunner.go:44-154 | the invariant holds in every state of every run |
| `PreloadedRunner.EveryTaskOnce` | internal/taskrunner/preloadedtaskrunner.go:44-154 | each task is queued, in flight with one runner or settled, never twice; the wait count is the number queued or in flight; runners stay within the limit; after the first spawn attempt a non-empty queue has a live runner |
| `PreloadedRunner.WaitNilMeansSuccess` | internal/taskrunner/preloadedtaskrunner.go:58-65 | at a wait count of zero every task is settled, and without a stored error every task ran and succeeded |
| `PreloadedRunner.ErrorsStop` | internal/taskrunner/preloadedtaskrunner.go:93-154 | in every run a stored error means that the context is canceled, and a task's error that this task failed; the first error is kept, and once the context is canceled no runner at the head of its loop ever takes another task |
| `PreloadedRunner.FailingRunWitness` | internal/taskrunner/preloadedtaskrunner.go:93-138 | a run of one task that fails: its error is stored and the wait is over |
| `PreloadedRunner.StepShrinks` | internal/taskrunner/preloadedtaskrunner.go:51-128 | every step that changes anything leaves less to do |
| `PreloadedRunner.RunsAreBounded` | internal/taskrunner/preloadedtaskrunner.go:51-128 | what is left and what was done stay within nine steps for a task |
| `PreloadedRunner.WaitEnds` | internal/taskrunner/preloadedtaskrunner.go:51-114 | while tasks are waited for the runners themselves can go on, and no run is longer than a stated bound, so the wait ends |
| `CursoredIterators.HeadRoundTrip` | internal/cursorediterator/cursor.go:14-45 | reading a head gives back what was added and the cursor below; an empty cursor gives the zero value |
| `CursoredIterators.IntHeads` | internal/cursorediterator/cursor.go:14-45 | an integer section is read as its value, a text is an error, and an empty cursor starts at zero |
| `CursoredIterators.Consumer.YieldOutput` | internal/cursorediterator/primitives.go:14-32 | a consumer with more room than there are items gets them all and the error if there is one, any other gets the first items and no error; canceled exactly when it failed or was stopped |
| `CursoredIterators.JoinIterators` | internal/cursorediterator/primitives.go:14-38 | yields one iterator after another until one fails or the consumer stops, and never yields after that; an error reaches a consumer that has room for what comes before it |
| `CursoredIterators.Consumer.YieldAdjusted` | internal/cursorediterator/blocks.go:68-95 | yields an iterator's items with one more section at the head of each cursor |
| `CursoredIterators.Consumer.YieldIndexed` | internal/cursorediterator/blocks.go:106-139 | yields a header's items, each with the index after its own |
| `CursoredIterators.CursoredWithIntegerHeader` | internal/cursorediterator/blocks.go:46-144 | the header's items from the index on, then the next iterator's; only the latter once the header is marked complete; errors reach the consumer, and an unreadable cursor is one |
| `CursoredIterators.CursoredBranches` | internal/cursorediterator/blocks.go:189-235 | the branches from the index on, the first of them from the remaining cursor, as far as the consumer takes them; errors reach the consumer, and an unreadable cursor is one |
| `CursoredIterators.CursoredProducerMapper` | internal/cursorediterator/blocks.go:394-455 | every chunk mapped in turn, the first from the remaining cursor, holds skipped; errors reach the consumer, and an unreadable cursor is one |
| `CursoredIterators.FeedJoin` | internal/cursorediterator/primitives.go:14-38 | a consumer fed two outputs has what it would have of their join |
| `Resumption.ExactMeansSuffix` | internal/cursorediterator/blocks.go:31-45 | with exact cursors, started at the cursor of an item the iterator yields precisely what came after it |
| `Resumption.SuffixMeansExact` | internal/cursorediterator/blocks.go:31-45 | and conversely |
| `Resumption.PagesConcatenate` | internal/cursorediterator/blocks.go:31-45 | pages of any sizes concatenate to the unpaged run |
| `Resumption.IntegerHeaderResumes` | internal/cursorediterator/blocks.go:46-144 | the integer header resumes from every cursor it can have yielded when header and next iterator do |
| `Resumption.BranchesResume` | internal/cursorediterator/blocks.go:163-235 | ordered branches resume when each branch does |
| `Resumption.ProducerMapperResumes` | internal/cursorediterator/blocks.go:394-455 | the sequential producer and mapper resume when producer and mapper do, also when the producer makes new cursors at each start |
| `Resumption.HoldsAreSkipped` | internal/cursorediterator/blocks.go:409-412 | holds do not show in what is yielded |
| `Nesting.NestingResumes` | internal/cursorediterator/blocks.go:46-455 | any nesting of the combinators over components that obey their laws resumes |
| `Nesting.NestingPages` | internal/cursorediterator/blocks.go:46-455 | so pages of any sizes of any nesting concatenate to its unpaged run |
| `ParallelBranches.StepInv` | internal/cursorediterator/blocks.go:237-322 | every step keeps what each collector holds and what has been yielded |
| `ParallelBranches.RunInv` | internal/cursorediterator/blocks.go:237-322 | so it holds in every state of every run |
| `ParallelBranches.NotStuck` | internal/cursorediterator/blocks.go:237-322 | until the consumer is through some step is possible, although collectors are bounded and branches share few slots |
| `ParallelBranches.StepWorks` | internal/cursorediterator/blocks.go:237-322 | every step is progress |
| `ParallelBranches.ParallelYieldsSequential` | internal/cursorediterator/blocks.go:189-322 | in every interleaving a prefix of the sequential items and cursors has been yielded, all of them when the consumer is through, no run is stuck before that, and no run is longer than a stated bound |
| `ParallelMapping.StepInv` | internal/cursorediterator/blocks.go:457-612 | every step of producer, mapper tasks and consumer keeps the invariant |
| `ParallelMapping.RunInv` | internal/cursorediterator/blocks.go:457-612 | so it holds in every state of every run |
| `ParallelMapping.HoldsAreRespected` | internal/cursorediterator/blocks.go:493-511 | the producer gets past a hold only after everything before the hold was yielded |
| `ParallelMapping.EntriesYieldMapped` | internal/cursorediterator/blocks.go:398-453 | the entries of the protocol yield what the sequential loop yields |
| `MappingProgress.StepWorks` | internal/cursorediterator/blocks.go:457-612 | every step of the protocol is exactly one unit of work, by the producer, a mapper task or the consumer |
| `MappingProgress.WorkBound` | internal/cursorediterator/blocks.go:457-612 | the work never exceeds what the entries call for |
| `MappingProgress.MisplacedHoldWitness` | internal/cursorediterator/blocks.go:493-511 | a lone hold ends the concurrent form with an error, while the sequential form just yields nothing |
| `TaskSlots.SlotStepInv` | internal/taskrunner/taskrunner.go:54-128 | every step of producer, consumer and runners keeps: tasks are queued or run by one runner each, there are no more runners than slots, and a task is left without a runner only while the producer is there and as many chunks precede it as there are other slots |
| `TaskSlots.SlotRunShows` | internal/cursorediterator/blocks.go:466-551 | a run with slots shows as a run of the protocol, so whatever holds of those holds with slots |
| `TaskSlots.SlotStepShrinks` | internal/taskrunner/taskrunner.go:54-128 | every step, also of a runner, leaves less to do |
| `TaskSlots.NotStarved` | internal/taskrunner/taskrunner.go:54-128 | unless the entries are too much for the slots some step is possible until the consumer is through |
| `Starvation.StarvesExactlyWhen` | internal/cursorediterator/blocks.go:466-551 | with any concurrency some run waits forever if and only if, before any misplaced hold, there is a chunk that as many chunks precede as there are slots beside the producer's, with a hold after it or at least as many entries as the channel takes |
| `Starvation.RunsUntilStarved` | internal/taskrunner/taskrunner.go:60-104 | a run whose runners stay until such a chunk is scheduled can be continued to where it waits forever |
| `Starvation.OneSlotNeverEnds` | internal/taskrunner/taskrunner.go:38-49 | with one slot, as a concurrency of zero gives, no run of such entries ever ends |
| `Starvation.TooMuchForOne` | internal/cursorediterator/blocks.go:466-551 | for one slot that means: a chunk comes first, and there is a hold or more than the channel takes |
| `Starvation.TwoSlotsWitness` | internal/graph/lr3stats.go:41-53 | with two slots a run on two chunks and a hold waits forever |
| `Starvation.ConcurrentYieldsSequential` | internal/cursorediterator/blocks.go:457-612 | with any concurrency and in every interleaving a prefix of the sequential yield has been yielded and no run is longer than a stated bound; the end without an error means all of the yield, the end with one exactly that the first misplaced hold was reached; every other run can go on unless the entries are too much for the slots |
| `Starvation.ConcurrentFormRefines` | internal/cursorediterator/blocks.go:394-612 | the concurrent form has yielded a prefix of the items and cursors of the sequential one; it gets through within a stated number of steps unless the chunks are too much for the slots, and then has yielded exactly those items when no hold is misplaced |
| `ChunkProducer.RelationshipsChunk.constructor` | internal/graph/lookupresources3.go:1157-1163 | an empty chunk |
| `ChunkProducer.RelationshipsChunk.AddRelationship` | internal/graph/lookupresources3.go:1187-1206 | collects the relationship and returns the number of distinct resources |
| `ChunkProducer.RelationshipsChunk.IsPopulated` | internal/graph/lookupresources3.go:1166-1168 | whether anything was collected |
| `ChunkProducer.CollectMeans` | internal/graph/lookupresources3.go:1187-1206 | a chunk lists a subject for a resource exactly when a relationship between them was found, with every parameter some such relationship misses |
| `ChunkProducer.CollectKeys` | internal/graph/lookupresources3.go:1187-1206 | its resources are exactly those found |
| `ChunkProducer.VerdictMeans` | internal/graph/lookupresources3.go:829-850 | a relationship is kept exactly when some completion of the context makes its caveat true, or its caveat has no name; it is kept with exactly the context parameters that the caveat misses |
| `ChunkProducer.QueryExactly` | internal/graph/lookupresources3.go:795-808 | a query without a cursor returns all relationships, one with a cursor exactly those ranked above it |
| `ChunkProducer.ChunksListExactly` | internal/graph/lookupresources3.go:795-887 | the chunks list, in the order of the query, exactly the relationships after the cursor whose caveat may apply, each with the parameters it misses |
| `ChunkProducer.GroupsAreAll` | internal/graph/lookupresources3.go:822-887 | the chunks together are exactly what was found, in order |
| `ChunkProducer.ChunkSizes` | internal/graph/lookupresources3.go:855-872 | every chunk but the last has exactly the chunk size of distinct resources, the last no more |
| `ChunkProducer.FoundAfter` | internal/graph/lookupresources3.go:796-808 | querying after a relationship that was found finds exactly what was found after it |
| `ChunkProducer.ChunksAt` | internal/graph/lookupresources3.go:822-887 | starting where a chunk starts gives that chunk and those after it |
| `ChunkProducer.ChunkedLookup.constructor` | internal/graph/lookupresources3.go:1342-1350 | an empty cache is valid |
| `ChunkProducer.ChunkedLookup.Evict` | internal/graph/lookupresources3.go:1359-1375 | losing any set of chunks at any time keeps the cache valid and what was given out |
| `ChunkProducer.ChunkedLookup.LookupRelationshipsChunk` | internal/graph/lookupresources3.go:1454-1460 | finds a chunk exactly when its id is in the cache, and then the one that starts after the cursor of the index; an id that was not given out here is a miss |
| `ChunkProducer.ChunkedLookup.NewChunk` | internal/graph/lookupresources3.go:1157-1163 | an empty chunk with an id not given out before |
| `ChunkProducer.ChunkedLookup.GiveOut` | internal/graph/lookupresources3.go:1352-1357 | stores the chunk exactly when the request is limited, and keeps the cache valid |
| `ChunkProducer.ChunkedLookup.GiveOutNext` | internal/graph/lookupresources3.go:856-867 | what is given out is the next chunk, with an index that leads back to it |
| `ChunkProducer.ChunkedLookup.Absorb` | internal/graph/lookupresources3.go:854-872 | one more relationship, and a new chunk when this one is full |
| `ChunkProducer.ChunkedLookup.FetchFrom` | internal/graph/lookupresources3.go:795-887 | fills exactly the chunks that start after the cursor, and caches each of them when the request is limited |
| `ChunkProducer.ChunkedLookup.ProduceCached` | internal/graph/lookupresources3.go:748-777 | the cached chunk, the hold if there is one, and what is fetched after it |
| `ChunkProducer.ChunkedLookup.Produce` | internal/graph/lookupresources3.go:738-888 | the chunks made at an index are the same whether its chunk is still cached, was evicted or was never here; a cached chunk comes first and from the cache; there is a hold exactly when the chunk was cached, the request is limited and more work is waiting, and it follows that chunk; the cache stays valid and gets every chunk made |
| `ChunkProducer.ServedFromCache` | internal/graph/lookupresources3.go:748-777 | a cached chunk and what is fetched after it are what would be fetched without the cache |
| `ChunkProducer.ChunksResume` | internal/graph/lookupresources3.go:738-888 | a producer that serves these chunks at every index obeys the producer's resume law, whatever ids it gives out at each start |
| `ChunkProducer.AnyIDsWillDo` | internal/graph/lookupresources3.go:1157-1163 | the producer that gives out any ids at all, new ones at each start, is such a producer |
| `ChunkProducer.LookupPagesConcatenate` | internal/graph/lookupresources3.go:715-888 | when the mapper resumes on every chunk, pages of any sizes of an iterator over such a producer concatenate to the unpaged run |
| `LookupSession.FetchPage` | internal/graph/lookupresources3.go:715-888 | a page taken from the cache at a cursor that owes some items has the first of them, and its last cursor owes exactly the others |
| `LookupSession.FetchPages` | internal/graph/lookupresources3.go:715-888 | a session of pages of any sizes on one cache, each starting at the last cursor of the page before and with any chunks evicted in between, gives exactly the items of the unpaged run |
| `LookupSession.PagePromises` | internal/cursorediterator/blocks.go:394-455 | mapping the chunks that were served gives the items owed, each with a cursor that owes exactly those after it |

## Left out

- Intersection arrows (`.all()`): caveats are gathered per subject across the whole batch, so the statement about single resources does not apply to them.
- Check hints, debug traces, response metadata, spans, metrics and logging: they stand beside the answer.
- Options that skip caveats or expiration in queries: the store is taken to return whole relationships, and expired ones not at all.
- Compiling and evaluating a single caveat: a leaf is true, false, partial with missing names, or an error.
- The text of errors, and which of several errors is returned: an error is one value.
- Conversion between cursor sections and strings, and the 64-bit range of indexes: sections are integers or texts, and converters are parameters with a round-trip law.
- CursoredIterators.CursoredBranches: a negative branch index in a cursor ends the program; here it is an error. No iterator yields such a cursor.
- Contexts in which cursors are disabled: the iterators then yield the same items without cursors.
- Cancellation and errors of the iterators' parallel forms: those runs are taken to be free of both, apart from a hold without a chunk. The sequential forms include errors and consumers that stop.
- Errors, cancellation and waiting of the general task runner: it is modelled as far as the concurrent producer and mapper use it, which is scheduling tasks that do not fail.
- Datastore errors and caveat errors inside the chunk producer: it is modelled on runs without them.
- Uniqueness of generated chunk ids: ids of the cache are drawn from a counter. `AnyIDsWillDo` needs no uniqueness.
- LookupSession.FetchPage: makes all chunks of a page before any is mapped; the program may stop making chunks once the page is full.
- SubjectSets.BaseSubjectSet.Add: a wildcard handed in is taken to have distinct, concrete exclusions, as every caller gives it; the error for a wildcard among the exclusions is stated of `UnionWildcardWithWildcard` and `IntersectWildcardWithWildcard`.
- SubjectSets.BaseSubjectSet.AddWildcard: the same wildcards as for `Add`.
- SubjectSets.BaseSubjectSet.UnionWith: the same wildcards as for `Add`.
- SubjectSets.BaseSubjectSet.Subtract: a wildcard handed in is taken to have distinct, concrete exclusions, as every caller gives it; of several exclusions with one id the program uses the last.
- SubjectSets.BaseSubjectSet.SubtractWildcard: the same wildcards as for `Subtract`.
- SubjectSets.BaseSubjectSet.SubtractFromConcretes: the same wildcards as for `Subtract`.
- ExpansionFold.TrackingSubjectSet.GetSetForKey: hands out the contents of the set; the program stores a created set and hands out a reference to it.
- ExpansionFold.TrackingSubjectSet.Add: the sets of a tracking set are kept by their contents, so sharing one set between two tracking sets is not modelled; the resource that a subject was found for is not tracked.
- ChunkProducer.ChunkedLookup.GiveOut: the cache keeps a chunk by its contents; the program keeps a reference to a chunk that is not changed after it was given out.
- PreloadedRunner.WaitEnds: a task that itself never returns is not excluded; running a task is one step.
- Adding tasks to a preloaded runner after it was started.
- Other lookups, the query planner and everything that only carries data between these parts: they would add easy members.
