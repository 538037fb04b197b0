/** The evaluation of a check over a batch of resource ids: recursive, batched, chunked, and
    cut short when a single result is enough.

    Each method is proved against the meaning of the problem it answers: an error-free result
    reports exactly the members, or, when a single result was allowed, at least one certain
    member and nothing false. Child results are combined in every possible order of arrival,
    and relationships are read in every possible order. */
module Check {
  import opened Common
  import opened Tuples
  import opened Membership
  import opened Reducers
  import opened DispatchSets
  import opened CheckSemantics
  import opened CheckMapping
  import opened CheckParts

  /** The subjects of the relationships can be asked about with the depth that is left. */
  ghost predicate RelsReach(p: Problem, rank: Rank, relationships: set<Relationship>, computed: Option<string>,
                            depth: nat) {
    forall r <- relationships ::
      && rank(ONR(r.subject.objectType, r.subject.objectID,
                  TargetRelation(r.subject.Reference(), computed))) < depth - 1
      && if computed.None? then HasRelation(p, r.subject.objectType, r.subject.relation)
         else r.subject.objectType in p.schema && computed.value != ELLIPSIS
  }

  lemma ChunkReach(p: Problem, rank: Rank, rels: seq<Relationship>, types: SubjectsByType, chunk: DispatchChunk,
                   computed: Option<string>, depth: nat, size: nat)
    requires SubjectsOf(types, rels) && chunk.resourceType in types
             && ChunkShape(chunk, types[chunk.resourceType], size)
    requires RelsReach(p, rank, (set rel <- rels), computed, depth)
    ensures RanksBelow(rank, chunk.resourceType.objectType, TargetRelation(chunk.resourceType, computed),
                       chunk.resourceIds, depth - 1)
    ensures if computed.None? then HasRelation(p, chunk.resourceType.objectType, chunk.resourceType.relation)
            else chunk.resourceType.objectType in p.schema && computed.value != ELLIPSIS
  {
    forall id <- chunk.resourceIds
      ensures exists r <- rels :: r.subject == ONR(chunk.resourceType.objectType, id, chunk.resourceType.relation)
    {
      var s := ONR(chunk.resourceType.objectType, id, chunk.resourceType.relation);
      assert s.Reference() == chunk.resourceType;
      assert HasEntry(types, s);
      assert HasSubject(rels, s);
    }
    assert chunk.resourceIds[0] in chunk.resourceIds;
  }

  /** Dispatches over the subjects of the relationships and maps the results back. */
  method DispatchOverSubjects(p: Problem, chunkSize: nat, depth: nat, relationships: set<Relationship>,
                              computed: Option<string>, setting: ResultsSetting,
                              ghost ids: set<string>, ghost m: Meaning, ghost rank: Rank)
    returns (r: CheckResult)
    requires depth > 0 && Ready(p, m) && relationships <= p.store
    requires forall rel <- relationships :: rel.resource.objectID in ids
    ensures r.Checked? ==> Answers(r.results, ids, RelsTruth(m, relationships, computed), setting)
    ensures Completable(p, rank) && RelsReach(p, rank, relationships, computed, depth) ==> r.Checked?
    decreases depth, 4, 0
  {
    var dispatchSet, rels := BuildDispatchSet(relationships);
    var chunks := dispatchSet.DispatchChunks(chunkSize);
    ghost var types := dispatchSet.bySubjectType;
    assert relationships == (set rel <- rels);
    var results := CheckChunks(p, chunkSize, depth, dispatchSet, chunks, computed, setting, rels, ids, m, rank);
    var arrived, arrivedTruths := Arrive(results, ids, ChunkTruths(m, rels, chunks, computed), setting);
    ChunksCover(m, rels, types, chunks, computed, arrivedTruths, EffectiveSize(chunkSize), relationships);
    r := Union(arrived, setting, ids, arrivedTruths);
  }

  method CheckChunks(p: Problem, chunkSize: nat, depth: nat, dispatchSet: CheckDispatchSet, chunks: seq<DispatchChunk>,
                     computed: Option<string>, setting: ResultsSetting, ghost rels: seq<Relationship>,
                     ghost ids: set<string>, ghost m: Meaning, ghost rank: Rank)
    returns (results: seq<CheckResult>)
    requires depth > 0 && Ready(p, m) && dispatchSet.Represents(rels)
    requires forall rel <- rels :: rel in p.store && rel.resource.objectID in ids
    requires forall c <- chunks :: c.resourceType in dispatchSet.bySubjectType &&
               ChunkShape(c, dispatchSet.bySubjectType[c.resourceType], EffectiveSize(chunkSize))
    ensures AllAnswer(results, ids, ChunkTruths(m, rels, chunks, computed), setting)
    ensures Completable(p, rank) && RelsReach(p, rank, (set rel <- rels), computed, depth) ==> Failed !in results
    decreases depth, 3
  {
    ghost var truths := ChunkTruths(m, rels, chunks, computed);
    results := [];
    for i := 0 to |chunks|
      invariant |results| == i
      invariant forall j | 0 <= j < i :: results[j].Checked? ==> Answers(results[j].results, ids, truths[j], setting)
      invariant Completable(p, rank) && RelsReach(p, rank, (set rel <- rels), computed, depth) ==> Failed !in results
    {
      assert chunks[i] in chunks;
      var result := CheckChunk(p, chunkSize, depth, dispatchSet, chunks[i], computed, setting, rels, ids, m, rank);
      results := results + [result];
    }
  }

  /** One chunk: ask about its subjects, and map what is found to the resources. */
  method CheckChunk(p: Problem, chunkSize: nat, depth: nat, dispatchSet: CheckDispatchSet, chunk: DispatchChunk,
                    computed: Option<string>, setting: ResultsSetting, ghost rels: seq<Relationship>,
                    ghost ids: set<string>, ghost m: Meaning, ghost rank: Rank)
    returns (r: CheckResult)
    requires depth > 0 && Ready(p, m) && dispatchSet.Represents(rels)
    requires forall rel <- rels :: rel in p.store && rel.resource.objectID in ids
    requires chunk.resourceType in dispatchSet.bySubjectType
    requires ChunkShape(chunk, dispatchSet.bySubjectType[chunk.resourceType], EffectiveSize(chunkSize))
    ensures r.Checked? ==> Answers(r.results, ids, ChunkTruth(m, rels, chunk, computed), setting)
    ensures Completable(p, rank) && RelsReach(p, rank, (set rel <- rels), computed, depth) ==> r.Checked?
    decreases depth, 2, 1
  {
    ghost var types := dispatchSet.bySubjectType;
    var childSetting := if chunk.hasIncomingCaveats then REQUIRE_ALL_RESULTS else setting;
    if RelsReach(p, rank, (set rel <- rels), computed, depth) {
      ChunkReach(p, rank, rels, types, chunk, computed, depth, EffectiveSize(chunkSize));
    }
    var child := AskAbout(p, chunkSize, depth, chunk.resourceType, computed, chunk.resourceIds, childSetting, m, rank);
    if child.Failed? {
      return Failed;
    }
    var mapped := MapFoundResources(child.results, chunk.resourceType, dispatchSet.bySubject, rels);
    MappedAnswers(m, rels, types, chunk, computed, child.results, mapped, ids, setting, EffectiveSize(chunkSize));
    return Checked(mapped);
  }

  /** The userset itself, or the computed relation on its objects. */
  method AskAbout(p: Problem, chunkSize: nat, depth: nat, kind: RelationReference, computed: Option<string>,
                  ids: seq<string>, setting: ResultsSetting, ghost m: Meaning, ghost rank: Rank)
    returns (r: CheckResult)
    requires depth > 0 && Ready(p, m) && ids != [] && Distinct(ids)
    ensures r.Checked? ==>
            Answers(r.results, IdSet(ids), RelationTruth(m, kind.objectType, TargetRelation(kind, computed)), setting)
    ensures (&& Completable(p, rank)
             && RanksBelow(rank, kind.objectType, TargetRelation(kind, computed), ids, depth - 1)
             && if computed.None? then HasRelation(p, kind.objectType, kind.relation)
                else kind.objectType in p.schema && computed.value != ELLIPSIS) ==> r.Checked?
    decreases depth, 2, 0
  {
    if computed.None? {
      r := DispatchCheck(p, chunkSize, depth - 1, kind.objectType, kind.relation, ids, setting, m, rank);
    } else {
      r := CheckComputedUserset(p, chunkSize, depth, kind.objectType, computed.value, true, ids, setting, m, rank);
    }
  }

  ghost predicate NotItself(p: Problem, namespace: string, relation: string, ids: seq<string>) {
    forall id <- ids :: ONR(namespace, id, relation) != p.subject
  }

  lemma NoIds(ids: seq<string>)
    ensures IdSet(ids) == {} <==> ids == []
  {
    if ids != [] {
      assert ids[0] in IdSet(ids);
    }
  }

  lemma OnlyItself(p: Problem, namespace: string, relation: string, ids: seq<string>, filtered: seq<string>)
    requires p.subject.Reference() == RelationReference(namespace, relation) && p.subject.objectID in ids ==>
             IdSet(filtered) == IdSet(ids) - {p.subject.objectID}
    ensures NotItself(p, namespace, relation, ids) <==>
            !(p.subject.Reference() == RelationReference(namespace, relation) && p.subject.objectID in ids)
    ensures !NotItself(p, namespace, relation, ids) && |ids| == 1 ==> filtered == []
  {
    if !NotItself(p, namespace, relation, ids) && |ids| == 1 {
      assert IdSet(ids) == {ids[0]};
      NoIds(filtered);
    }
  }

  /** The relation `relation` of the objects `ids`, all of type `namespace`. */
  method CheckComputedUserset(p: Problem, chunkSize: nat, depth: nat, namespace: string, relation: string,
                              viaTupleset: bool, ids: seq<string>,
                              setting: ResultsSetting, ghost m: Meaning, ghost rank: Rank)
    returns (r: CheckResult)
    requires depth > 0 && Ready(p, m) && ids != [] && Distinct(ids)
    ensures r.Checked? ==> Answers(r.results, IdSet(ids), RelationTruth(m, namespace, relation), setting)
    ensures Completable(p, rank) && RanksBelow(rank, namespace, relation, ids, depth - 1) ==>
            HasRelation(p, namespace, relation) || (viaTupleset && namespace in p.schema && relation != ELLIPSIS) ==>
                r.Checked?
    ensures !NotItself(p, namespace, relation, ids) && (setting == ALLOW_SINGLE_RESULT || |ids| == 1) ==> r.Checked?
    ensures (&& NotItself(p, namespace, relation, ids)
             && if viaTupleset then namespace !in p.schema else !HasRelation(p, namespace, relation)) ==> r.Failed?
    ensures viaTupleset && namespace in p.schema && relation != ELLIPSIS && !HasRelation(p, namespace, relation) ==>
            r.Checked?
    decreases depth, 1
  {
    var found, filtered := FilterForFoundMemberResource(p, namespace, relation, ids);
    OnlyItself(p, namespace, relation, ids, filtered);
    if (found.hasDeterminedMember && setting == ALLOW_SINGLE_RESULT) || filtered == [] {
      var results := found.AsCheckResultsMap();
      assert filtered == [] ==> IdSet(filtered) == {} && IdSet(ids) == {p.subject.objectID};
      IdentityAlone(p, m, namespace, relation, IdSet(ids), results, setting);
      return Checked(results);
    }
    if viaTupleset {
      if namespace !in p.schema {
        return Failed;
      }
      if relation != ELLIPSIS && relation !in p.schema[namespace] {
        NoRelationNoMembers(p, m, namespace, relation, IdSet(ids), setting);
        return Checked(map[]);
      }
    }
    var result := DispatchCheck(p, chunkSize, depth - 1, namespace, relation, filtered, setting, m, rank);
    r := CombineResultWithFoundResources(result, found);
    if r.Checked? && filtered != ids {
      IdentityAnswers(p, m, namespace, relation, IdSet(ids), result.results, r.results, setting);
    }
  }

  lemma ArrowReach(p: Problem, rank: Rank, namespace: string, tupleset: string, computed: string, ids: seq<string>,
                   relationships: set<Relationship>, depth: nat)
    requires depth > 0 && CanRunChild(p, rank, TupleToUserset(tupleset, computed), namespace, ids, depth)
             && relationships <= p.store
    requires forall r <- relationships ::
             r.resource.objectType == namespace && r.resource.relation == tupleset && r.resource.objectID in ids
    ensures RelsReach(p, rank, relationships, Some(computed), depth)
  {
  }

  lemma NonTerminalsReach(p: Problem, rank: Rank, namespace: string, relation: string, ids: seq<string>,
                          relationships: set<Relationship>, depth: nat)
    requires CanDispatch(p, rank, namespace, relation, ids, depth) && p.schema[namespace][relation].rewrite.None?
             && relationships <= p.store
    requires forall r <- relationships ::
               && r.resource.objectType == namespace && r.resource.relation == relation && r.resource.objectID in ids
               && r.subject.relation != ELLIPSIS
    ensures RelsReach(p, rank, relationships, None, depth)
  {
  }

  /** An arrow: the tupleset's subjects, then the computed relation on each of them. */
  method CheckTupleToUserset(p: Problem, chunkSize: nat, depth: nat, namespace: string, tupleset: string,
                             computed: string, ids: seq<string>,
                             setting: ResultsSetting, ghost m: Meaning, ghost rank: Rank)
    returns (r: CheckResult)
    requires depth > 0 && Ready(p, m)
    ensures r.Checked? ==>
            Answers(r.results, IdSet(ids), ChildTruth(p, m, TupleToUserset(tupleset, computed), namespace), setting)
    ensures CanRunChild(p, rank, TupleToUserset(tupleset, computed), namespace, ids, depth) ==> r.Checked?
    ensures !HasRelation(p, namespace, tupleset) || p.schema[namespace][tupleset].allowed.None? ==> r.Failed?
    decreases depth, 5
  {
    if !HasRelation(p, namespace, tupleset) || p.schema[namespace][tupleset].allowed.None? {
      return Failed;
    }
    var relationships := set rel <- p.store |
        rel.resource.objectType == namespace && rel.resource.relation == tupleset && rel.resource.objectID in ids;
    if CanRunChild(p, rank, TupleToUserset(tupleset, computed), namespace, ids, depth) {
      ArrowReach(p, rank, namespace, tupleset, computed, ids, relationships, depth);
    }
    r := DispatchOverSubjects(p, chunkSize, depth, relationships, Some(computed), setting, IdSet(ids), m, rank);
    if r.Checked? {
      ArrowIsRels(p, m, namespace, tupleset, computed, IdSet(ids), relationships);
      AnswersElsewhere(r.results, IdSet(ids), RelsTruth(m, relationships, Some(computed)),
                       ChildTruth(p, m, TupleToUserset(tupleset, computed), namespace), setting);
    }
  }

  method RunSetOperation(p: Problem, chunkSize: nat, depth: nat, namespace: string, child: Child,
                         requested: seq<string>, ids: seq<string>,
         setting: ResultsSetting, ghost m: Meaning, ghost rank: Rank)
    returns (r: CheckResult)
    requires depth > 0 && Ready(p, m) && ids != [] && Distinct(ids)
    requires p.subject.relation == ELLIPSIS ==> IdSet(ids) == IdSet(requested)
    ensures r.Checked? ==> Answers(r.results, IdSet(ids), ChildTruth(p, m, child, namespace), setting)
    ensures CanRunChild(p, rank, child, namespace, ids, depth) ==> r.Checked?
    ensures child.This? ==> r.Failed?
    ensures (&& child.ComputedUserset? && !HasRelation(p, namespace, child.relation)
             && NotItself(p, namespace, child.relation, ids)) ==> r.Failed?
    decreases depth, 6, child, 3
  {
    match child
    case This =>
      r := Failed;
    case Nil =>
      r := Checked(map[]);
    case Self =>
      r := CheckSelf(p, namespace, requested, IdSet(ids), setting, m);
    case ComputedUserset(relation) =>
      r := CheckComputedUserset(p, chunkSize, depth, namespace, relation, false, ids, setting, m, rank);
      assert RelationTruth(m, namespace, relation) == ChildTruth(p, m, child, namespace);
    case TupleToUserset(tupleset, computed) =>
      r := CheckTupleToUserset(p, chunkSize, depth, namespace, tupleset, computed, ids, setting, m, rank);
    case Nested(rewrite) =>
      r := CheckUsersetRewrite(p, chunkSize, depth, namespace, rewrite, requested, ids, setting, m, rank);
      assert RewriteTruth(p, m, rewrite, namespace) == ChildTruth(p, m, child, namespace);
  }

  /** Runs children `from`, `from` + 1, ... of a rewrite. */
  method RunChildren(p: Problem, chunkSize: nat, depth: nat, namespace: string, rewrite: Rewrite, from: nat,
                     requested: seq<string>, ids: seq<string>,
         setting: ResultsSetting, ghost m: Meaning, ghost rank: Rank)
    returns (results: seq<CheckResult>)
    requires p.subject.relation == ELLIPSIS ==> IdSet(ids) == IdSet(requested)
    requires depth > 0 && Ready(p, m) && ids != [] && Distinct(ids) && from <= |rewrite.children|
    ensures AllAnswer(results, IdSet(ids), ChildTruths(p, m, rewrite.children[from..], namespace), setting)
    ensures CanRewrite(p, rank, rewrite, namespace, ids, depth) ==> Failed !in results
    decreases depth, 6, rewrite, 1
  {
    ghost var truths := ChildTruths(p, m, rewrite.children[from..], namespace);
    results := [];
    for i := from to |rewrite.children|
      invariant |results| == i - from
      invariant forall j | 0 <= j < |results| :: results[j].Checked? ==>
                Answers(results[j].results, IdSet(ids), truths[j], setting)
      invariant CanRewrite(p, rank, rewrite, namespace, ids, depth) ==> Failed !in results
    {
      assert rewrite.children[i] in rewrite.children;
      var result := RunSetOperation(p, chunkSize, depth, namespace, rewrite.children[i], requested, ids, setting, m,
                                    rank);
      assert rewrite.children[from..][i - from] == rewrite.children[i];
      results := results + [result];
    }
  }

  method CheckUsersetRewrite(p: Problem, chunkSize: nat, depth: nat, namespace: string, rewrite: Rewrite,
                             requested: seq<string>, ids: seq<string>,
         setting: ResultsSetting, ghost m: Meaning, ghost rank: Rank)
    returns (r: CheckResult)
    requires depth > 0 && Ready(p, m) && ids != [] && Distinct(ids)
    requires p.subject.relation == ELLIPSIS ==> IdSet(ids) == IdSet(requested)
    ensures r.Checked? ==> Answers(r.results, IdSet(ids), RewriteTruth(p, m, rewrite, namespace), setting)
    ensures CanRewrite(p, rank, rewrite, namespace, ids, depth) ==> r.Checked?
    ensures rewrite.ExclusionOf? && |rewrite.children| == 1 ==> r.Failed?
    decreases depth, 6, rewrite, 2
  {
    assert rewrite.children[0..] == rewrite.children;
    match rewrite
    case UnionOf(children) =>
      var results := RunChildren(p, chunkSize, depth, namespace, rewrite, 0, requested, ids, setting, m, rank);
      var arrived, truths := Arrive(results, IdSet(ids), ChildTruths(p, m, children, namespace), setting);
      UnionTruth(p, m, children, namespace, truths);
      r := Union(arrived, setting, IdSet(ids), truths);
    case IntersectionOf(children) =>
      var childSetting := if |children| > 1 then REQUIRE_ALL_RESULTS else setting;
      var results := RunChildren(p, chunkSize, depth, namespace, rewrite, 0, requested, ids, childSetting, m, rank);
      var arrived, truths := Arrive(results, IdSet(ids), ChildTruths(p, m, children, namespace), childSetting);
      IntersectionTruth(p, m, children, namespace, truths);
      r := All(arrived, setting, IdSet(ids), truths);
    case ExclusionOf(children) =>
      if |children| == 0 {
        return Checked(map[]);
      }
      if |children| == 1 {
        return Failed;
      }
      assert children[0] in children;
      var base := RunSetOperation(p, chunkSize, depth, namespace, children[0], requested, ids, REQUIRE_ALL_RESULTS, m,
                                  rank);
      var results := RunChildren(p, chunkSize, depth, namespace, rewrite, 1, requested, ids, REQUIRE_ALL_RESULTS, m,
                                 rank);
      var arrived, truths := Arrive(results, IdSet(ids), ChildTruths(p, m, children[1..], namespace),
                                    REQUIRE_ALL_RESULTS);
      ExclusionTruth(p, m, children, namespace, truths);
      r := Difference(base, arrived, setting, IdSet(ids), ChildTruth(p, m, children[0], namespace), truths);
  }

  /** The id is the subject itself, or a relationship without a caveat decides the check. */
  ghost predicate Plain(p: Problem, namespace: string, relation: string, id: string) {
    || ONR(namespace, id, relation) == p.subject
    || (&& HasRelation(p, namespace, relation) && p.schema[namespace][relation].rewrite.None?
        && CertainlyDirect(p, ONR(namespace, id, relation)))
  }

  /** One plain id is enough, or all ids are plain. */
  ghost predicate Obvious(p: Problem, namespace: string, relation: string, ids: seq<string>, setting: ResultsSetting) {
    || (setting == ALLOW_SINGLE_RESULT && exists id <- ids :: Plain(p, namespace, relation, id))
    || (ids != [] && forall id <- ids :: Plain(p, namespace, relation, id))
  }

  lemma ObviousHere(p: Problem, namespace: string, relation: string, ids: seq<string>, setting: ResultsSetting)
    requires Obvious(p, namespace, relation, ids, setting) && NotItself(p, namespace, relation, ids)
    ensures HasRelation(p, namespace, relation) && p.schema[namespace][relation].rewrite.None?
    ensures |ids| == 1 ==> Obvious(p, namespace, relation, ids, ALLOW_SINGLE_RESULT)
  {
    assert ids != [] ==> ids[0] in ids;
  }

  /** Splitting off the subject itself leaves an obvious check obvious. */
  lemma StaysObvious(p: Problem, namespace: string, relation: string, requested: seq<string>, filtered: seq<string>,
                     setting: ResultsSetting)
    requires Obvious(p, namespace, relation, requested, setting) && filtered != []
    requires forall id <- filtered :: id in requested
    requires forall id <- requested :: id in filtered || ONR(namespace, id, relation) == p.subject
    requires setting == ALLOW_SINGLE_RESULT ==> NotItself(p, namespace, relation, requested)
    ensures Obvious(p, namespace, relation, filtered, setting)
  {
  }

  /** Relations without a rewrite: first the subject itself and its wildcard, then, for ids not
      yet certain, the usersets written on the relation. A relationship that decides the check is
      enough, whatever the usersets would do. */
  method CheckDirect(p: Problem, chunkSize: nat, depth: nat, namespace: string, relation: string, ids: seq<string>,
                     setting: ResultsSetting, ghost m: Meaning, ghost rank: Rank)
    returns (r: CheckResult)
    requires depth > 0 && Ready(p, m) && HasRelation(p, namespace, relation) && p.subject.objectID != PUBLIC_WILDCARD
    requires p.schema[namespace][relation].rewrite.None?
    ensures r.Checked? ==> Answers(r.results, IdSet(ids), DirectTruth(p, m, namespace, relation), setting)
    ensures CanDispatch(p, rank, namespace, relation, ids, depth) ==> r.Checked?
    ensures NotItself(p, namespace, relation, ids) && Obvious(p, namespace, relation, ids, setting) ==> r.Checked?
    decreases depth, 5
  {
    var matches, hasNonTerminals := SelectDirect(p, namespace, relation, ids, m);
    var found, stopped := FindMatches(matches, setting);
    if stopped {
      var results := found.AsCheckResultsMap();
      DirectStopped(p, m, namespace, relation, ids, matches, found.membersByID, results);
      return Checked(results);
    }
    DirectMembers(p, namespace, relation, ids, matches, found.membersByID);
    var further := NotCertain(ids, found);
    if !hasNonTerminals || further == [] {
      var results := found.AsCheckResultsMap();
      DirectOnly(p, m, namespace, relation, IdSet(ids), found.membersByID, results, setting);
      return Checked(results);
    }
    assert further[0] in further;
    var result := CheckIndirect(p, chunkSize, depth, namespace, relation, ids, further, setting, m, rank);
    ghost var members := found.membersByID;
    r := CombineResultWithFoundResources(result, found);
    if r.Checked? {
      DirectCombined(p, m, namespace, relation, IdSet(ids), IdSet(further), members, result.results, r.results,
                     setting);
    }
  }

  /** The usersets written on the relation, for the ids in `further`. */
  method CheckIndirect(p: Problem, chunkSize: nat, depth: nat, namespace: string, relation: string,
                       ghost ids: seq<string>, further: seq<string>,
                       setting: ResultsSetting, ghost m: Meaning, ghost rank: Rank)
    returns (r: CheckResult)
    requires depth > 0 && Ready(p, m) && HasRelation(p, namespace, relation)
             && p.schema[namespace][relation].rewrite.None?
    requires forall id <- further :: id in ids
    ensures r.Checked? ==> Answers(r.results, IdSet(further), IndirectTruth(p, m, namespace, relation), setting)
    ensures CanDispatch(p, rank, namespace, relation, ids, depth) ==> r.Checked?
    decreases depth, 4, 1
  {
    var relationships := set rel <- p.store |
        && rel.resource.objectType == namespace && rel.resource.relation == relation && rel.resource.objectID in further
        && rel.subject.relation != ELLIPSIS;
    NonTerminalsAreIndirect(p, m, namespace, relation, IdSet(further), relationships);
    if CanDispatch(p, rank, namespace, relation, ids, depth) {
      NonTerminalsReach(p, rank, namespace, relation, ids, relationships, depth);
    }
    r := DispatchOverSubjects(p, chunkSize, depth, relationships, None, setting, IdSet(further), m, rank);
    if r.Checked? {
      AnswersElsewhere(r.results, IdSet(further), RelsTruth(m, relationships, None),
                       IndirectTruth(p, m, namespace, relation), setting);
    }
  }

  method CheckInternal(p: Problem, chunkSize: nat, depth: nat, namespace: string, relation: string,
                       requested: seq<string>, setting: ResultsSetting, ghost m: Meaning, ghost rank: Rank)
    returns (r: CheckResult)
    requires depth > 0 && Ready(p, m) && HasRelation(p, namespace, relation)
    ensures r.Checked? ==> Answers(r.results, IdSet(requested), RelationTruth(m, namespace, relation), setting)
    ensures requested == [] || p.subject.objectID == PUBLIC_WILDCARD ==> r.Failed?
    ensures CanDispatch(p, rank, namespace, relation, requested, depth) ==> r.Checked?
    ensures p.subject.objectID != PUBLIC_WILDCARD && Obvious(p, namespace, relation, requested, setting) ==> r.Checked?
    decreases depth, 8
  {
    if requested == [] || p.subject.objectID == PUBLIC_WILDCARD {
      return Failed;
    }
    var ids := Unique(requested);
    var found, filtered := FilterForFoundMemberResource(p, namespace, relation, ids);
    if found.hasDeterminedMember && setting == ALLOW_SINGLE_RESULT {
      var results := found.AsCheckResultsMap();
      IdentityAlone(p, m, namespace, relation, IdSet(ids), results, setting);
      return Checked(results);
    }
    if filtered == [] {
      r := CombineResultWithFoundResources(Checked(map[]), found);
      assert IdSet(filtered) == {} && IdSet(ids) == {p.subject.objectID};
      IdentityAlone(p, m, namespace, relation, IdSet(ids), r.results, setting);
      return;
    }
    assert forall id <- filtered :: id in IdSet(ids) && id in IdSet(requested);
    if Obvious(p, namespace, relation, requested, setting) {
      LeftAfterFilter(p, namespace, relation, requested, ids, filtered, setting);
    }
    var result := CheckRelation(p, chunkSize, depth, namespace, relation, requested, filtered, setting, m, rank);
    r := CombineResultWithFoundResources(result, found);
    if r.Checked? && filtered != ids {
      IdentityAnswers(p, m, namespace, relation, IdSet(ids), result.results, r.results, setting);
    }
  }

  lemma LeftAfterFilter(p: Problem, namespace: string, relation: string, requested: seq<string>, ids: seq<string>,
                        filtered: seq<string>, setting: ResultsSetting)
    requires Obvious(p, namespace, relation, requested, setting) && filtered != [] && IdSet(ids) == IdSet(requested)
    requires forall id <- filtered :: id in ids
    requires if p.subject.Reference() == RelationReference(namespace, relation) && p.subject.objectID in ids
             then setting != ALLOW_SINGLE_RESULT && IdSet(filtered) == IdSet(ids) - {p.subject.objectID}
             else filtered == ids
    ensures Obvious(p, namespace, relation, filtered, setting)
  {
    forall id <- requested
      ensures id in filtered || ONR(namespace, id, relation) == p.subject
      ensures ONR(namespace, id, relation) == p.subject ==> setting != ALLOW_SINGLE_RESULT
    {
      assert id in IdSet(requested) && id in ids;
      if id == p.subject.objectID && p.subject.Reference() == RelationReference(namespace, relation) {
        assert p.subject == ONR(namespace, id, relation);
      } else {
        assert id in IdSet(ids) && id in IdSet(filtered);
      }
    }
    forall id <- filtered ensures id in requested {
      assert id in IdSet(ids);
    }
    StaysObvious(p, namespace, relation, requested, filtered, setting);
  }

  /** The relation's own rule, for ids that are not the subject itself. One id alone may always
      stop at the first result. */
  method CheckRelation(p: Problem, chunkSize: nat, depth: nat, namespace: string, relation: string,
                       requested: seq<string>, filtered: seq<string>,
                       setting: ResultsSetting, ghost m: Meaning, ghost rank: Rank)
    returns (r: CheckResult)
    requires depth > 0 && Ready(p, m) && HasRelation(p, namespace, relation) && p.subject.objectID != PUBLIC_WILDCARD
    requires filtered != [] && Distinct(filtered)
    requires p.subject.Reference() == RelationReference(namespace, relation) ==> p.subject.objectID !in IdSet(filtered)
    requires p.subject.relation == ELLIPSIS ==> IdSet(filtered) == IdSet(requested)
    ensures r.Checked? ==> Answers(r.results, IdSet(filtered), RelationTruth(m, namespace, relation), setting)
    ensures CanDispatch(p, rank, namespace, relation, filtered, depth) ==> r.Checked?
    ensures Obvious(p, namespace, relation, filtered, setting) ==> r.Checked?
    decreases depth, 7
  {
    var resultsSetting := if |filtered| == 1 then ALLOW_SINGLE_RESULT else setting;
    assert NotItself(p, namespace, relation, filtered);
    if Obvious(p, namespace, relation, filtered, setting) {
      ObviousHere(p, namespace, relation, filtered, setting);
    }
    ghost var truth: Truth;
    if p.schema[namespace][relation].rewrite.None? {
      truth := DirectTruth(p, m, namespace, relation);
      r := CheckDirect(p, chunkSize, depth, namespace, relation, filtered, resultsSetting, m, rank);
    } else {
      var rewrite := p.schema[namespace][relation].rewrite.value;
      truth := RewriteTruth(p, m, rewrite, namespace);
      if CanDispatch(p, rank, namespace, relation, filtered, depth) {
        forall id <- filtered ensures RewriteRanked(p, rank, rewrite, namespace, id, depth - 1) {
          var o := ONR(namespace, id, relation);
          assert HasRelation(p, o.objectType, o.relation);
          RewriteRankedMore(p, rank, rewrite, namespace, id, rank(o), depth - 1);
        }
      }
      r := CheckUsersetRewrite(p, chunkSize, depth, namespace, rewrite, requested, filtered, resultsSetting, m, rank);
    }
    if r.Checked? {
      RuleDecides(p, m, namespace, relation, IdSet(filtered), truth, r.results, resultsSetting);
      if |filtered| == 1 {
        assert IdSet(filtered) == {filtered[0]};
        SingleResultIsAll(r.results, filtered[0], RelationTruth(m, namespace, relation));
        AnswersWeaken(r.results, IdSet(filtered), RelationTruth(m, namespace, relation), setting);
      }
    }
  }

  /** Dispatching follows the stored alias instead. */
  predicate Aliased(p: Problem, namespace: string, relation: string) {
    && HasRelation(p, namespace, relation) && p.schema[namespace][relation].aliasing.Some?
    && namespace != p.subject.objectType
  }

  /** A check request: refused when no depth is left or the relation is unknown; a permission
      that merely aliases a relation is replaced by it when the subject is of another type. */
  method DispatchCheck(p: Problem, chunkSize: nat, depth: nat, namespace: string, relation: string, ids: seq<string>,
                       setting: ResultsSetting, ghost m: Meaning, ghost rank: Rank)
    returns (r: CheckResult)
    requires Ready(p, m)
    ensures r.Checked? ==> Answers(r.results, IdSet(ids), RelationTruth(m, namespace, relation), setting)
    ensures CanDispatch(p, rank, namespace, relation, ids, depth) ==> r.Checked?
    ensures depth == 0 || !HasRelation(p, namespace, relation) || ids == [] || p.subject.objectID == PUBLIC_WILDCARD ==>
            r.Failed?
    ensures Aliased(p, namespace, relation) && depth > 0 && p.subject.objectID != PUBLIC_WILDCARD ==>
            && (!HasRelation(p, namespace, p.schema[namespace][relation].aliasing.value) ==> r.Failed?)
            && (HasRelation(p, namespace, p.schema[namespace][relation].aliasing.value)
                && Obvious(p, namespace, p.schema[namespace][relation].aliasing.value, ids, REQUIRE_ALL_RESULTS) ==>
                r.Checked?)
    ensures (&& depth > 0 && HasRelation(p, namespace, relation) && !Aliased(p, namespace, relation)
             && p.subject.objectID != PUBLIC_WILDCARD && Obvious(p, namespace, relation, ids, setting)) ==> r.Checked?
    decreases depth, 9
  {
    if depth == 0 || !HasRelation(p, namespace, relation) {
      assert ids != [] ==> ids[0] in ids;
      return Failed;
    }
    var aliasing := p.schema[namespace][relation].aliasing;
    if aliasing.Some? && namespace != p.subject.objectType {
      if !HasRelation(p, namespace, aliasing.value) {
        return Failed;
      }
      ghost var path :| AliasChain(p.schema[namespace], path) && path[0] == relation
          && path[|path| - 1] == aliasing.value;
      if CanDispatch(p, rank, namespace, relation, ids, depth) {
        forall id <- ids ensures rank(ONR(namespace, id, aliasing.value)) < depth {
          AliasRanks(p, rank, namespace, path, id);
        }
      }
      r := CheckInternal(p, chunkSize, depth, namespace, aliasing.value, ids, REQUIRE_ALL_RESULTS, m, rank);
      if r.Checked? {
        AliasSameMeaning(p, m, namespace, path);
        AnswersWeaken(r.results, IdSet(ids), RelationTruth(m, namespace, relation), setting);
      }
      return;
    }
    r := CheckInternal(p, chunkSize, depth, namespace, relation, ids, setting, m, rank);
  }
}
