/** From the results for a chunk of subjects back to the resources they were found for. */
module CheckMapping {
  import opened Common
  import opened Caveats
  import opened Tuples
  import opened Membership
  import opened Reducers
  import opened DispatchSets
  import opened CheckSemantics

  ghost function IdSet(ids: seq<string>): set<string> {
    set id <- ids
  }

  /** The results hold the id, as whatever kind of member, and its expression holds. */
  ghost predicate Gives(results: ResultsMap, a: Assignment, id: string) {
    id in results && Holds(results[id].expression, a)
  }

  ghost predicate GivesAlways(results: ResultsMap, id: string) {
    id in results && results[id].expression.Always?
  }

  /** Some relationship leads from the resource to a found subject, and both conditions hold. */
  ghost predicate ViaRelationship(rels: seq<Relationship>, kind: RelationReference, results: ResultsMap,
                                  done: set<string>, id: string, a: Assignment) {
    exists r <- rels ::
      && r.resource.objectID == id && r.subject.Reference() == kind && r.subject.objectID in done
      && CaveatHolds(r, a) && Gives(results, a, r.subject.objectID)
  }

  ghost predicate ViaMapping(mappings: seq<ResourceIDAndCaveat>, expression: Condition, id: string, a: Assignment) {
    exists x <- mappings :: x.resourceID == id && Holds(CaveatAsExpr(x.caveat), a) && Holds(expression, a)
  }

  ghost predicate MapsResource(mappings: seq<ResourceIDAndCaveat>, id: string) {
    exists x <- mappings :: x.resourceID == id
  }

  ghost predicate CertainMapping(mappings: seq<ResourceIDAndCaveat>, expression: Condition) {
    expression.Always? && exists x <- mappings :: x.caveat.None?
  }

  ghost predicate HasCertain(members: map<string, Condition>) {
    exists id <- members :: members[id].Always?
  }

  /** `now` is `was` with every mapping added under its caveat and the expression. */
  ghost predicate Mapped(was: map<string, Condition>, mappings: seq<ResourceIDAndCaveat>, expression: Condition,
                         now: map<string, Condition>) {
    && (forall id :: id in now <==> id in was || MapsResource(mappings, id))
    && (forall a, id :: Membership.Listed(now, a, id) <==>
        Membership.Listed(was, a, id) || ViaMapping(mappings, expression, id, a))
    && (HasCertain(was) || CertainMapping(mappings, expression) ==> HasCertain(now))
  }

  lemma MappedStep(was: map<string, Condition>, mappings: seq<ResourceIDAndCaveat>, expression: Condition,
                   before: map<string, Condition>, x: ResourceIDAndCaveat, now: map<string, Condition>)
    requires Mapped(was, mappings, expression, before)
    requires now.Keys == before.Keys + {x.resourceID}
    requires forall other <- now | other != x.resourceID :: now[other] == before[other]
    requires now[x.resourceID].Always? <==>
               (expression.Always? && x.caveat.None?) || (x.resourceID in before && before[x.resourceID].Always?)
    requires forall a :: Membership.Listed(now, a, x.resourceID) <==>
               Membership.Listed(before, a, x.resourceID) || (Holds(CaveatAsExpr(x.caveat), a) && Holds(expression, a))
    ensures Mapped(was, mappings + [x], expression, now)
  {
    assert forall y :: y in mappings + [x] <==> y in mappings || y == x;
    assert forall id :: MapsResource(mappings + [x], id) <==> MapsResource(mappings, id) || x.resourceID == id;
    assert forall a, id :: ViaMapping(mappings + [x], expression, id, a) <==>
        || ViaMapping(mappings, expression, id, a)
        || (x.resourceID == id && Holds(CaveatAsExpr(x.caveat), a) && Holds(expression, a));
    assert forall a, id | id != x.resourceID :: Membership.Listed(now, a, id) <==> Membership.Listed(before, a, id);
    if HasCertain(before) {
      var id :| id in before && before[id].Always?;
      assert now[id].Always?;
    } else if CertainMapping(mappings + [x], expression) {
      assert now[x.resourceID].Always?;
    }
  }

  method AddMappings(found: MembershipSet, mappings: seq<ResourceIDAndCaveat>, expression: Condition)
    requires found.Valid()
    modifies found
    ensures found.Valid() && Mapped(old(found.membersByID), mappings, expression, found.membersByID)
  {
    for i := 0 to |mappings|
      invariant found.Valid() && Mapped(old(found.membersByID), mappings[..i], expression, found.membersByID)
    {
      ghost var before := found.membersByID;
      found.AddMemberWithParentCaveat(mappings[i].resourceID, expression, mappings[i].caveat);
      assert mappings[..i + 1] == mappings[..i] + [mappings[i]];
      MappedStep(old(found.membersByID), mappings[..i], expression, before, mappings[i], found.membersByID);
    }
    assert mappings[..|mappings|] == mappings;
  }

  ghost predicate FromRels(rels: seq<Relationship>, id: string) {
    exists r <- rels :: r.resource.objectID == id
  }

  /** Some uncaveated relationship leads to a certainly reported subject. */
  ghost predicate CertainVia(rels: seq<Relationship>, kind: RelationReference, results: ResultsMap, done: set<string>) {
    exists r <- rels ::
      r.subject.Reference() == kind && r.subject.objectID in done && GivesAlways(results, r.subject.objectID)
          && r.caveat.None?
  }

  ghost predicate MapProgress(rels: seq<Relationship>, kind: RelationReference, results: ResultsMap, done: set<string>,
                              members: map<string, Condition>) {
    && (forall id <- members :: FromRels(rels, id))
    && (forall a, id :: Membership.Listed(members, a, id) <==> ViaRelationship(rels, kind, results, done, id, a))
    && (CertainVia(rels, kind, results, done) ==> HasCertain(members))
  }

  lemma MapProgressStep(mappings: MappingsBySubject, rels: seq<Relationship>, kind: RelationReference,
                        results: ResultsMap, done: set<string>,
                        subject: ObjectAndRelation, before: map<string, Condition>, now: map<string, Condition>)
    requires MappingsOf(mappings, rels) && subject.Reference() == kind && subject.objectID in results
    requires MapProgress(rels, kind, results, done, before)
    requires Mapped(before, MappingsForSubject(mappings, subject), results[subject.objectID].expression, now)
    ensures MapProgress(rels, kind, results, done + {subject.objectID}, now)
  {
    SubjectMappings(mappings, rels, kind, results, subject);
    var ms := MappingsForSubject(mappings, subject);
    forall id <- now ensures FromRels(rels, id) {
      if id !in before {
        assert MapsResource(ms, id);
      }
    }
    forall a, id
      ensures ViaRelationship(rels, kind, results, done + {subject.objectID}, id, a) <==>
              ViaRelationship(rels, kind, results, done, id, a)
                  || ViaRelationship(rels, kind, results, {subject.objectID}, id, a)
    {
    }
    if CertainVia(rels, kind, results, done + {subject.objectID}) && !CertainVia(rels, kind, results, done) {
      assert CertainVia(rels, kind, results, {subject.objectID});
    }
  }

  /** Each resource gets the disjunction, over its relationships to found subjects, of the
      relationship's caveat and the subject's expression. */
  method MapFoundResources(results: ResultsMap, kind: RelationReference, bySubject: MappingsBySubject,
                           ghost rels: seq<Relationship>)
    returns (mapped: ResultsMap)
    requires MappingsOf(bySubject, rels)
    ensures MembersOnly(mapped)
    ensures forall id <- mapped :: FromRels(rels, id)
    ensures forall a, id :: Reports(mapped, a, id) <==> ViaRelationship(rels, kind, results, results.Keys, id, a)
    ensures CertainVia(rels, kind, results, results.Keys) ==> Determined(mapped)
  {
    var found := new MembershipSet();
    var todo := results.Keys;
    ghost var done: set<string> := {};
    while todo != {}
      invariant fresh(found) && found.Valid() && todo <= results.Keys && done == results.Keys - todo
      invariant MapProgress(rels, kind, results, done, found.membersByID)
    {
      var subjectID :| subjectID in todo;
      var subject := ONR(kind.objectType, subjectID, kind.relation);
      var mappings := MappingsForSubject(bySubject, subject);
      ghost var before := found.membersByID;
      AddMappings(found, mappings, results[subjectID].expression);
      MapProgressStep(bySubject, rels, kind, results, done, subject, before, found.membersByID);
      todo, done := todo - {subjectID}, done + {subjectID};
    }
    assert done == results.Keys;
    mapped := found.AsCheckResultsMap();
  }

  lemma SubjectMappings(mappings: MappingsBySubject, rels: seq<Relationship>, kind: RelationReference,
                        results: ResultsMap, subject: ObjectAndRelation)
    requires MappingsOf(mappings, rels) && subject.Reference() == kind && subject.objectID in results
    ensures var ms := MappingsForSubject(mappings, subject);
            && (forall id :: MapsResource(ms, id) ==> FromRels(rels, id))
            && (forall a, id :: ViaMapping(ms, results[subject.objectID].expression, id, a) <==>
                                ViaRelationship(rels, kind, results, {subject.objectID}, id, a))
            && (CertainVia(rels, kind, results, {subject.objectID}) ==>
                CertainMapping(ms, results[subject.objectID].expression))
  {
    var ms := MappingsForSubject(mappings, subject);
    var expression := results[subject.objectID].expression;
    forall x ensures x in ms <==> MapsTo(rels, subject, x) {
      if MapsTo(rels, subject, x) {
        assert HasSubject(rels, subject);
      }
    }
    forall a, id ensures ViaMapping(ms, expression, id, a) <==>
        ViaRelationship(rels, kind, results, {subject.objectID}, id, a) {
      if ViaMapping(ms, expression, id, a) {
        var x :| x in ms && x.resourceID == id && Holds(CaveatAsExpr(x.caveat), a) && Holds(expression, a);
        assert MapsTo(rels, subject, x);
        var r :| r in rels && r.subject == subject && MappingOf(r) == x;
        assert CaveatHolds(r, a);
      }
      if ViaRelationship(rels, kind, results, {subject.objectID}, id, a) {
        var r :| r in rels && r.resource.objectID == id && r.subject.Reference() == kind
            && r.subject.objectID == subject.objectID
                 && CaveatHolds(r, a) && Gives(results, a, r.subject.objectID);
        assert r.subject == subject;
        assert MapsTo(rels, subject, MappingOf(r));
        assert MappingOf(r) in ms;
      }
    }
    if CertainVia(rels, kind, results, {subject.objectID}) {
      var r :| r in rels && r.subject.Reference() == kind && r.subject.objectID == subject.objectID
               && GivesAlways(results, r.subject.objectID) && r.caveat.None?;
      assert r.subject == subject;
      assert MapsTo(rels, subject, MappingOf(r));
      assert MappingOf(r) in ms;
    }
  }

  // ---- Chunks of subjects.

  /** The relation asked of a subject: its own, or the one an arrow computes. */
  function TargetRelation(kind: RelationReference, computed: Option<string>): string {
    match computed
    case None => kind.relation
    case Some(relation) => relation
  }

  ghost predicate LeadsToMember(m: Meaning, r: Relationship, computed: Option<string>, a: Assignment) {
    && CaveatHolds(r, a)
    && (ONR(r.subject.objectType, r.subject.objectID, TargetRelation(r.subject.Reference(), computed)), a) in m
  }

  /** Some of the relationships leads from the resource to a member. */
  ghost predicate RelsHold(m: Meaning, rels: set<Relationship>, computed: Option<string>, id: string, a: Assignment) {
    exists r <- rels :: r.resource.objectID == id && LeadsToMember(m, r, computed, a)
  }

  ghost predicate InChunk(r: Relationship, chunk: DispatchChunk) {
    r.subject.Reference() == chunk.resourceType && r.subject.objectID in chunk.resourceIds
  }

  ghost predicate ChunkHolds(m: Meaning, rels: seq<Relationship>, chunk: DispatchChunk, computed: Option<string>,
                             id: string, a: Assignment) {
    exists r <- rels :: r.resource.objectID == id && InChunk(r, chunk) && LeadsToMember(m, r, computed, a)
  }

  ghost function RelsTruth(m: Meaning, rels: set<Relationship>, computed: Option<string>): Truth {
    iset q: (string, Assignment) | RelsHold(m, rels, computed, q.0, q.1)
  }

  ghost function ChunkTruth(m: Meaning, rels: seq<Relationship>, chunk: DispatchChunk,
                            computed: Option<string>): Truth {
    iset q: (string, Assignment) | ChunkHolds(m, rels, chunk, computed, q.0, q.1)
  }

  ghost function ChunkTruths(m: Meaning, rels: seq<Relationship>, chunks: seq<DispatchChunk>,
                             computed: Option<string>): (truths: seq<Truth>)
    ensures |truths| == |chunks|
    ensures forall i | 0 <= i < |chunks| :: truths[i] == ChunkTruth(m, rels, chunks[i], computed)
  {
    if chunks == [] then []
    else ChunkTruths(m, rels, chunks[..|chunks| - 1], computed) + [ChunkTruth(m, rels, chunks[|chunks| - 1], computed)]
  }

  /** Answers about the subjects of a chunk become answers about the resources, because a chunk
      with caveated relationships is always asked for all results. */
  lemma MappedAnswers(m: Meaning, rels: seq<Relationship>, types: SubjectsByType, chunk: DispatchChunk,
                      computed: Option<string>,
                      child: ResultsMap, mapped: ResultsMap, ids: set<string>, setting: ResultsSetting, size: nat)
    requires SubjectsOf(types, rels) && chunk.resourceType in types
             && ChunkShape(chunk, types[chunk.resourceType], size)
    requires forall r <- rels :: r.resource.objectID in ids && (r.caveat.Some? ==> r.caveat.value.name != "")
    requires Answers(child, IdSet(chunk.resourceIds),
                     RelationTruth(m, chunk.resourceType.objectType, TargetRelation(chunk.resourceType, computed)),
                     if chunk.hasIncomingCaveats then REQUIRE_ALL_RESULTS else setting)
    requires MembersOnly(mapped) && forall id <- mapped :: FromRels(rels, id)
    requires forall a, id :: Reports(mapped, a, id) <==>
             ViaRelationship(rels, chunk.resourceType, child, child.Keys, id, a)
    requires CertainVia(rels, chunk.resourceType, child, child.Keys) ==> Determined(mapped)
    ensures Answers(mapped, ids, ChunkTruth(m, rels, chunk, computed), setting)
  {
    MappedSound(m, rels, chunk, computed, child, mapped, ids);
    var target := RelationTruth(m, chunk.resourceType.objectType, TargetRelation(chunk.resourceType, computed));
    if Complete(child, IdSet(chunk.resourceIds), target) {
      MappedComplete(m, rels, chunk, computed, child, mapped, ids);
    } else {
      CertainIsMapped(rels, types, chunk, child, size);
    }
  }

  lemma MappedSound(m: Meaning, rels: seq<Relationship>, chunk: DispatchChunk, computed: Option<string>,
                    child: ResultsMap, mapped: ResultsMap, ids: set<string>)
    requires forall r <- rels :: r.resource.objectID in ids
    requires Sound(child, IdSet(chunk.resourceIds),
                   RelationTruth(m, chunk.resourceType.objectType, TargetRelation(chunk.resourceType, computed)))
    requires MembersOnly(mapped) && forall id <- mapped :: FromRels(rels, id)
    requires forall a, id :: Reports(mapped, a, id) <==>
             ViaRelationship(rels, chunk.resourceType, child, child.Keys, id, a)
    ensures Sound(mapped, ids, ChunkTruth(m, rels, chunk, computed))
  {
    var kind := chunk.resourceType;
    var target := RelationTruth(m, kind.objectType, TargetRelation(kind, computed));
    forall a, id | Reports(mapped, a, id) ensures (id, a) in ChunkTruth(m, rels, chunk, computed) {
      var r :| r in rels && r.resource.objectID == id && r.subject.Reference() == kind
          && r.subject.objectID in child.Keys
               && CaveatHolds(r, a) && Reports(child, a, r.subject.objectID);
      assert (r.subject.objectID, a) in target;
      assert InChunk(r, chunk) && LeadsToMember(m, r, computed, a);
    }
  }

  lemma MappedComplete(m: Meaning, rels: seq<Relationship>, chunk: DispatchChunk, computed: Option<string>,
                       child: ResultsMap, mapped: ResultsMap, ids: set<string>)
    requires Complete(child, IdSet(chunk.resourceIds),
                      RelationTruth(m, chunk.resourceType.objectType, TargetRelation(chunk.resourceType, computed)))
    requires forall a, id :: Reports(mapped, a, id) <==>
             ViaRelationship(rels, chunk.resourceType, child, child.Keys, id, a)
    ensures Complete(mapped, ids, ChunkTruth(m, rels, chunk, computed))
  {
    var target := RelationTruth(m, chunk.resourceType.objectType, TargetRelation(chunk.resourceType, computed));
    forall a, id | id in ids && (id, a) in ChunkTruth(m, rels, chunk, computed) ensures Reports(mapped, a, id) {
      var r :| r in rels && r.resource.objectID == id && InChunk(r, chunk) && LeadsToMember(m, r, computed, a);
      assert (r.subject.objectID, a) in target;
      assert Reports(child, a, r.subject.objectID);
    }
  }

  /** A certain subject in an uncaveated chunk makes one of its resources certain. */
  lemma CertainIsMapped(rels: seq<Relationship>, types: SubjectsByType, chunk: DispatchChunk, child: ResultsMap,
                        size: nat)
    requires SubjectsOf(types, rels) && chunk.resourceType in types
             && ChunkShape(chunk, types[chunk.resourceType], size)
    requires forall r <- rels :: r.caveat.Some? ==> r.caveat.value.name != ""
    requires child.Keys <= IdSet(chunk.resourceIds) && Determined(child) && !chunk.hasIncomingCaveats
    ensures CertainVia(rels, chunk.resourceType, child, child.Keys)
  {
    var id :| id in child && ReportsAlways(child, id);
    var s := ONR(chunk.resourceType.objectType, id, chunk.resourceType.relation);
    assert s.Reference() == chunk.resourceType;
    assert id in chunk.resourceIds;
    assert HasEntry(types, s) && !types[s.Reference()][s.objectID];
    assert HasSubject(rels, s) && !HasCaveatedSubject(rels, s);
    var r :| r in rels && r.subject == s;
    assert !Caveated(r);
  }

  /** Every relationship's subject is in some chunk, so together the chunks miss nothing. */
  lemma ChunksCover(m: Meaning, rels: seq<Relationship>, types: SubjectsByType, chunks: seq<DispatchChunk>,
                    computed: Option<string>, truths: seq<Truth>, size: nat, relationships: set<Relationship>)
    requires SubjectsOf(types, rels) && forall r :: r in rels <==> r in relationships
    requires forall kind <- types :: PartitionOf(chunks, kind, types[kind], size)
    requires forall t :: t in truths <==> t in ChunkTruths(m, rels, chunks, computed)
    ensures AnyOf(truths) == RelsTruth(m, relationships, computed)
  {
    var all := ChunkTruths(m, rels, chunks, computed);
    forall q: (string, Assignment) ensures q in AnyOf(truths) <==> q in RelsTruth(m, relationships, computed) {
      if InSome(truths, q) {
        var t :| t in truths && q in t;
        var i :| 0 <= i < |all| && all[i] == t;
        var r :| r in rels && r.resource.objectID == q.0 && InChunk(r, chunks[i]) && LeadsToMember(m, r, computed, q.1);
        assert r in relationships;
      }
      if RelsHold(m, relationships, computed, q.0, q.1) {
        var r :| r in relationships && r.resource.objectID == q.0 && LeadsToMember(m, r, computed, q.1);
        var i := ItsChunk(rels, types, chunks, size, r);
        assert all[i] in truths;
      }
    }
  }

  lemma ItsChunk(rels: seq<Relationship>, types: SubjectsByType, chunks: seq<DispatchChunk>, size: nat,
                 r: Relationship) returns (i: nat)
    requires SubjectsOf(types, rels) && r in rels
    requires forall kind <- types :: PartitionOf(chunks, kind, types[kind], size)
    ensures i < |chunks| && InChunk(r, chunks[i])
  {
    assert HasSubject(rels, r.subject);
    assert HasEntry(types, r.subject);
    InSomeChunk(chunks, r.subject.Reference(), r.subject.objectID);
    var c :| c in chunks && c.resourceType == r.subject.Reference() && r.subject.objectID in c.resourceIds;
    i :| 0 <= i < |chunks| && chunks[i] == c;
  }

  /** Collects the subjects of the relationships, read in any order. */
  method BuildDispatchSet(relationships: set<Relationship>) returns (dispatchSet: CheckDispatchSet,
        ghost rels: seq<Relationship>)
    ensures fresh(dispatchSet) && dispatchSet.Represents(rels)
    ensures forall r :: r in rels <==> r in relationships
  {
    dispatchSet := new CheckDispatchSet();
    rels := [];
    var todo := relationships;
    while todo != {}
      invariant fresh(dispatchSet) && dispatchSet.Represents(rels)
      invariant forall r :: r in rels <==> r in relationships && r !in todo
      invariant todo <= relationships
    {
      var rel :| rel in todo;
      dispatchSet.AddForRelationship(rel, rels);
      rels := rels + [rel];
      todo := todo - {rel};
    }
  }
}
