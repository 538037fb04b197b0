/** Steps of a check that do not recurse: the subject's own id, relationships written on the
    relation itself, and the joining of partial results. */
module CheckParts {
  import opened Common
  import opened Caveats
  import opened Tuples
  import opened Membership
  import opened Reducers
  import opened DispatchSets
  import opened CheckSemantics
  import opened CheckMapping

  /** What a problem whose evaluation has started must satisfy. */
  ghost predicate Ready(p: Problem, m: Meaning) {
    WellTyped(p) && Solution(p, m)
  }

  /** Answers depend on the truth only at the ids asked about. */
  lemma AnswersElsewhere(results: ResultsMap, ids: set<string>, truth: Truth, other: Truth, setting: ResultsSetting)
    requires Answers(results, ids, truth, setting)
    requires forall id, a | id in ids :: (id, a) in truth <==> (id, a) in other
    ensures Answers(results, ids, other, setting)
  {
  }

  /** Distinct ids, in order of first appearance. */
  method Unique(ids: seq<string>) returns (unique: seq<string>)
    ensures IdSet(unique) == IdSet(ids)
    ensures Distinct(unique)
    ensures ids != [] ==> unique != []
  {
    unique := [];
    for i := 0 to |ids|
      invariant IdSet(unique) == IdSet(ids[..i])
      invariant forall j, k | 0 <= j < k < |unique| :: unique[j] != unique[k]
    {
      assert ids[..i + 1] == ids[..i] + [ids[i]];
      assert IdSet(ids[..i + 1]) == IdSet(ids[..i]) + {ids[i]};
      if ids[i] !in unique {
        unique := unique + [ids[i]];
      }
    }
    assert ids[..|ids|] == ids;
    assert ids != [] ==> ids[0] in IdSet(unique);
  }

  /** Splits off the id of the subject itself when the relation asked about is the subject's own. */
  method FilterForFoundMemberResource(p: Problem, namespace: string, relation: string, ids: seq<string>)
    returns (found: MembershipSet, filtered: seq<string>)
    requires Distinct(ids)
    ensures fresh(found) && found.Valid()
    ensures Distinct(filtered) && forall id <- filtered :: id in ids
    ensures if p.subject.Reference() == RelationReference(namespace, relation) && p.subject.objectID in ids
            then found.membersByID == map[p.subject.objectID := Always]
                && IdSet(filtered) == IdSet(ids) - {p.subject.objectID}
            else found.membersByID == map[] && filtered == ids
    ensures found.hasDeterminedMember <==>
            p.subject.Reference() == RelationReference(namespace, relation) && p.subject.objectID in ids
  {
    found := new MembershipSet();
    if namespace != p.subject.objectType || relation != p.subject.relation {
      return found, ids;
    }
    for index := 0 to |ids|
      invariant p.subject.objectID !in ids[..index]
    {
      if p.subject.objectID == ids[index] {
        found.AddDirectMember(ids[index], None);
        assert ids == ids[..index] + [ids[index]] + ids[index + 1..];
        assert IdSet(ids[..index] + ids[index + 1..]) == IdSet(ids) - {p.subject.objectID};
        assert found.membersByID.Keys == {p.subject.objectID};
        return found, ids[..index] + ids[index + 1..];
      }
    }
    return found, ids;
  }

  /** Adds results to members that were found before. */
  method CombineResultWithFoundResources(result: CheckResult, found: MembershipSet) returns (r: CheckResult)
    requires found.Valid()
    modifies found
    ensures r.Failed? <==> result.Failed?
    ensures r.Checked? ==>
              && (forall a, id :: Reports(r.results, a, id) <==>
                                  Membership.Listed(old(found.membersByID), a, id) || Reports(result.results, a, id))
              && (old(found.hasDeterminedMember) || Determined(result.results) ==> Determined(r.results))
    ensures r.Checked? && MembersOnly(result.results) ==>
              MembersOnly(r.results) && r.results.Keys == old(found.membersByID.Keys) + result.results.Keys
  {
    if result.Failed? || found.membersByID == map[] {
      return result;
    }
    ghost var was := found.membersByID;
    found.UnionWith(result.results);
    UnionKeeps(was, result.results, found.membersByID);
    forall id ensures MembersOnly(result.results) ==> (id in found.membersByID <==> id in was || id in result.results) {
      assert EntryUnioned(was, result.results, found.membersByID, id);
    }
    var results := found.AsCheckResultsMap();
    r := Checked(results);
  }

  /** Putting the subject's own id back after the others have been answered. */
  lemma IdentityAnswers(p: Problem, m: Meaning, namespace: string, relation: string, ids: set<string>, rest: ResultsMap,
                        all: ResultsMap, setting: ResultsSetting)
    requires Solution(p, m) && p.subject.Reference() == RelationReference(namespace, relation)
             && p.subject.objectID in ids
    requires Answers(rest, ids - {p.subject.objectID}, RelationTruth(m, namespace, relation), setting)
    requires MembersOnly(all) && all.Keys == {p.subject.objectID} + rest.Keys
    requires forall a, id :: Reports(all, a, id) <==> id == p.subject.objectID || Reports(rest, a, id)
    requires Determined(all)
    ensures Answers(all, ids, RelationTruth(m, namespace, relation), setting)
  {
  }

  /** Only the subject's own id, certain. */
  lemma IdentityAlone(p: Problem, m: Meaning, namespace: string, relation: string, ids: set<string>, all: ResultsMap,
                      setting: ResultsSetting)
    requires Solution(p, m) && p.subject.Reference() == RelationReference(namespace, relation)
             && p.subject.objectID in ids
    requires MembersOnly(all) && all.Keys == {p.subject.objectID}
    requires forall a, id :: Reports(all, a, id) <==> id == p.subject.objectID
    requires Determined(all)
    requires setting == ALLOW_SINGLE_RESULT || ids == {p.subject.objectID}
    ensures Answers(all, ids, RelationTruth(m, namespace, relation), setting)
  {
  }

  /** Away from the subject itself the relation's rule decides. */
  lemma RuleDecides(p: Problem, m: Meaning, namespace: string, relation: string, ids: set<string>, truth: Truth,
                    results: ResultsMap, setting: ResultsSetting)
    requires Solution(p, m) && HasRelation(p, namespace, relation)
    requires p.subject.Reference() == RelationReference(namespace, relation) ==> p.subject.objectID !in ids
    requires forall id, a | id in ids :: (id, a) in truth <==>
             RuleHolds(p, m, p.schema[namespace][relation], ONR(namespace, id, relation), a)
    requires Answers(results, ids, truth, setting)
    ensures Answers(results, ids, RelationTruth(m, namespace, relation), setting)
  {
  }

  lemma NoRelationNoMembers(p: Problem, m: Meaning, namespace: string, relation: string, ids: set<string>,
                            setting: ResultsSetting)
    requires Ready(p, m) && !HasRelation(p, namespace, relation) && relation != ELLIPSIS
    ensures Answers(map[], ids, RelationTruth(m, namespace, relation), setting)
  {
  }

  /** The resource itself is the subject. */
  method CheckSelf(p: Problem, namespace: string, requested: seq<string>, ghost ids: set<string>,
                   ghost setting: ResultsSetting, ghost m: Meaning)
    returns (r: CheckResult)
    requires p.subject.relation == ELLIPSIS ==> ids == IdSet(requested)
    ensures r.Checked? && Answers(r.results, ids, ChildTruth(p, m, Self, namespace), setting)
  {
    if p.subject.relation != ELLIPSIS || namespace != p.subject.objectType {
      return Checked(map[]);
    }
    for i := 0 to |requested|
      invariant p.subject.objectID !in requested[..i]
    {
      if p.subject.objectID == requested[i] {
        var found := new MembershipSet();
        found.AddDirectMember(requested[i], None);
        var results := found.AsCheckResultsMap();
        assert results.Keys == {p.subject.objectID};
        return Checked(results);
      }
    }
    return Checked(map[]);
  }

  // ---- Relationships written on the relation itself.

  method ClassifyAllowed(p: Problem, allowed: seq<AllowedRelation>) returns (hasNonTerminals: bool,
        hasDirectSubject: bool, hasWildcardSubject: bool)
    ensures hasDirectSubject <==> AllowedRelation(p.subject.objectType, p.subject.relation) in allowed
    ensures hasWildcardSubject <==> AllowedWildcard(p.subject.objectType) in allowed
    ensures hasNonTerminals <==> exists x <- allowed :: x.AllowedWildcard? || x.relation != ELLIPSIS
  {
    hasNonTerminals, hasDirectSubject, hasWildcardSubject := false, false, false;
    for i := 0 to |allowed|
      invariant hasDirectSubject <==> AllowedRelation(p.subject.objectType, p.subject.relation) in allowed[..i]
      invariant hasWildcardSubject <==> AllowedWildcard(p.subject.objectType) in allowed[..i]
      invariant hasNonTerminals <==> exists x <- allowed[..i] :: x.AllowedWildcard? || x.relation != ELLIPSIS
    {
      assert allowed[..i + 1] == allowed[..i] + [allowed[i]];
      if allowed[i].namespace == p.subject.objectType {
        if allowed[i].AllowedWildcard? {
          hasWildcardSubject := true;
        } else if allowed[i].relation == p.subject.relation {
          hasDirectSubject := true;
        }
      }
      if allowed[i].AllowedWildcard? || allowed[i].relation != ELLIPSIS {
        hasNonTerminals := true;
      }
    }
    assert allowed[..|allowed|] == allowed;
  }

  ghost predicate MatchHolds(matches: set<Relationship>, id: string, a: Assignment) {
    exists r <- matches :: r.resource.objectID == id && CaveatHolds(r, a)
  }

  ghost predicate FromMatches(matches: set<Relationship>, id: string) {
    exists r <- matches :: r.resource.objectID == id
  }

  /** A match without a caveat. */
  ghost predicate CertainMatch(matches: set<Relationship>, id: string) {
    exists r <- matches :: r.resource.objectID == id && r.caveat.None?
  }

  lemma CertainOneMore(done: set<Relationship>, rel: Relationship, id: string)
    ensures CertainMatch(done + {rel}, id) <==>
            CertainMatch(done, id) || (rel.resource.objectID == id && rel.caveat.None?)
  {
    assert rel in done + {rel} && forall r <- done :: r in done + {rel};
  }

  /** Reads matching relationships until all are read or one certain member is enough. It stops early
      exactly when one is enough and there is one. */
  method FindMatches(matches: set<Relationship>, setting: ResultsSetting) returns (found: MembershipSet, stopped: bool)
    ensures fresh(found) && found.Valid()
    ensures stopped ==> found.hasDeterminedMember
    ensures stopped <==> setting == ALLOW_SINGLE_RESULT && exists r <- matches :: r.caveat.None?
    ensures !stopped ==> forall id :: id in found.membersByID && found.membersByID[id].Always? <==>
            CertainMatch(matches, id)
    ensures forall id <- found.membersByID :: FromMatches(matches, id)
    ensures forall a, id :: Membership.Listed(found.membersByID, a, id) ==> MatchHolds(matches, id, a)
    ensures !stopped ==> forall a, id :: MatchHolds(matches, id, a) ==> Membership.Listed(found.membersByID, a, id)
  {
    found := new MembershipSet();
    stopped := false;
    var todo := matches;
    while todo != {}
      invariant fresh(found) && found.Valid() && todo <= matches
      invariant forall id <- found.membersByID :: FromMatches(matches, id)
      invariant forall a, id :: Membership.Listed(found.membersByID, a, id) <==> MatchHolds(matches - todo, id, a)
      invariant forall id :: id in found.membersByID && found.membersByID[id].Always? <==>
                CertainMatch(matches - todo, id)
      invariant setting == ALLOW_SINGLE_RESULT ==> !found.hasDeterminedMember
    {
      var rel :| rel in todo;
      ghost var before := found.membersByID;
      found.AddDirectMember(rel.resource.objectID, rel.caveat);
      MatchOneMore(matches - todo, rel, before, found.membersByID);
      forall id ensures id in found.membersByID && found.membersByID[id].Always? <==>
          CertainMatch(matches - todo + {rel}, id)
      {
        CertainOneMore(matches - todo, rel, id);
      }
      assert matches - (todo - {rel}) == (matches - todo) + {rel};
      todo := todo - {rel};
      if setting == ALLOW_SINGLE_RESULT && found.hasDeterminedMember {
        forall a, id | Membership.Listed(found.membersByID, a, id) ensures MatchHolds(matches, id, a) {
          var r :| r in matches - todo && r.resource.objectID == id && CaveatHolds(r, a);
        }
        return found, true;
      }
    }
    assert matches - {} == matches;
    if setting == ALLOW_SINGLE_RESULT {
      forall r <- matches ensures r.caveat.Some? {
        assert !CertainMatch(matches, r.resource.objectID);
      }
    }
  }

  lemma MatchOneMore(done: set<Relationship>, rel: Relationship, before: map<string, Condition>,
                     now: map<string, Condition>)
    requires forall a, id :: Membership.Listed(before, a, id) <==> MatchHolds(done, id, a)
    requires now.Keys == before.Keys + {rel.resource.objectID}
    requires forall other <- now | other != rel.resource.objectID :: now[other] == before[other]
    requires forall a :: Membership.Listed(now, a, rel.resource.objectID) <==>
               Membership.Listed(before, a, rel.resource.objectID) || CaveatHolds(rel, a)
    ensures forall a, id :: Membership.Listed(now, a, id) <==> MatchHolds(done + {rel}, id, a)
  {
    forall a, id ensures Membership.Listed(now, a, id) <==> MatchHolds(done + {rel}, id, a) {
      if id == rel.resource.objectID {
        assert CaveatHolds(rel, a) ==> MatchHolds(done + {rel}, id, a);
      } else {
        assert Membership.Listed(now, a, id) <==> Membership.Listed(before, a, id);
      }
      if MatchHolds(done, id, a) {
        var r :| r in done && r.resource.objectID == id && CaveatHolds(r, a);
        assert r in done + {rel};
      }
    }
  }

  ghost function DirectTruth(p: Problem, m: Meaning, namespace: string, relation: string): Truth {
    iset q: (string, Assignment) | DirectHolds(p, ONR(namespace, q.0, relation), q.1)
        || IndirectHolds(p, m, ONR(namespace, q.0, relation), q.1)
  }

  ghost function IndirectTruth(p: Problem, m: Meaning, namespace: string, relation: string): Truth {
    iset q: (string, Assignment) | IndirectHolds(p, m, ONR(namespace, q.0, relation), q.1)
  }

  /** The relationships selected by the first query are those that grant membership directly. */
  lemma MatchesAreDirect(p: Problem, namespace: string, relation: string, ids: seq<string>, matches: set<Relationship>,
                         hasDirectSubject: bool, hasWildcardSubject: bool)
    requires WellTyped(p) && HasRelation(p, namespace, relation) && p.subject.objectID != PUBLIC_WILDCARD
    requires var allowed := p.schema[namespace][relation].allowed;
             allowed.Some? ==> && (hasDirectSubject <==>
                                   AllowedRelation(p.subject.objectType, p.subject.relation) in allowed.value)
                               && (hasWildcardSubject <==> AllowedWildcard(p.subject.objectType) in allowed.value)
    requires matches == set rel <- p.store |
               && rel.resource.objectType == namespace && rel.resource.relation == relation
               && rel.resource.objectID in ids
               && ((hasDirectSubject && rel.subject == p.subject) ||
                   (hasWildcardSubject && rel.subject == ONR(p.subject.objectType, PUBLIC_WILDCARD, ELLIPSIS)))
    ensures forall id, a | id in IdSet(ids) :: MatchHolds(matches, id, a) <==>
            DirectHolds(p, ONR(namespace, id, relation), a)
    ensures forall id :: FromMatches(matches, id) ==> id in IdSet(ids)
  {
  }

  /** The relationship itself makes the subject a member of the object, without a caveat. */
  ghost predicate CertainlyDirect(p: Problem, o: ObjectAndRelation) {
    exists r <- p.store :: r.resource == o && r.caveat.None? && MatchesSubject(p, r.subject)
  }

  lemma CertainMatches(p: Problem, namespace: string, relation: string, ids: seq<string>, matches: set<Relationship>,
                       hasDirectSubject: bool, hasWildcardSubject: bool)
    requires WellTyped(p) && HasRelation(p, namespace, relation) && p.subject.objectID != PUBLIC_WILDCARD
    requires var allowed := p.schema[namespace][relation].allowed;
             allowed.Some? ==> && (hasDirectSubject <==>
                                   AllowedRelation(p.subject.objectType, p.subject.relation) in allowed.value)
                               && (hasWildcardSubject <==> AllowedWildcard(p.subject.objectType) in allowed.value)
    requires matches == set rel <- p.store |
               && rel.resource.objectType == namespace && rel.resource.relation == relation
               && rel.resource.objectID in ids
               && ((hasDirectSubject && rel.subject == p.subject) ||
                   (hasWildcardSubject && rel.subject == ONR(p.subject.objectType, PUBLIC_WILDCARD, ELLIPSIS)))
    ensures forall id <- ids :: CertainlyDirect(p, ONR(namespace, id, relation)) ==> CertainMatch(matches, id)
  {
  }

  /** The relationships selected by the second query are those that lead to other usersets. */
  lemma NonTerminalsAreIndirect(p: Problem, m: Meaning, namespace: string, relation: string, ids: set<string>,
                                relationships: set<Relationship>)
    requires relationships == set rel <- p.store |
               && rel.resource.objectType == namespace && rel.resource.relation == relation
               && rel.resource.objectID in ids
               && rel.subject.relation != ELLIPSIS
    ensures forall id, a | id in ids :: RelsHold(m, relationships, None, id, a) <==>
            IndirectHolds(p, m, ONR(namespace, id, relation), a)
  {
  }

  /** The relationships an arrow follows are those of its tupleset. */
  lemma ArrowIsRels(p: Problem, m: Meaning, namespace: string, tupleset: string, computed: string, ids: set<string>,
                    relationships: set<Relationship>)
    requires relationships == set rel <- p.store |
               rel.resource.objectType == namespace && rel.resource.relation == tupleset && rel.resource.objectID in ids
    ensures forall id, a | id in ids :: (id, a) in RelsTruth(m, relationships, Some(computed)) <==>
                                        (id, a) in ChildTruth(p, m, TupleToUserset(tupleset, computed), namespace)
  {
  }

  lemma NoNonTerminals(p: Problem, m: Meaning, namespace: string, relation: string)
    requires WellTyped(p) && HasRelation(p, namespace, relation)
    requires var allowed := p.schema[namespace][relation].allowed;
             allowed.Some? ==> forall x <- allowed.value :: x.AllowedRelation? && x.relation == ELLIPSIS
    ensures forall id, a :: !IndirectHolds(p, m, ONR(namespace, id, relation), a)
  {
  }

  /** The relationships of the first query, and whether a second one can find anything. */
  method SelectDirect(p: Problem, namespace: string, relation: string, ids: seq<string>, ghost m: Meaning)
    returns (matches: set<Relationship>, hasNonTerminals: bool)
    requires WellTyped(p) && HasRelation(p, namespace, relation) && p.subject.objectID != PUBLIC_WILDCARD
    ensures forall id, a | id in IdSet(ids) :: MatchHolds(matches, id, a) <==>
            DirectHolds(p, ONR(namespace, id, relation), a)
    ensures forall id :: FromMatches(matches, id) ==> id in IdSet(ids)
    ensures forall id <- ids :: CertainlyDirect(p, ONR(namespace, id, relation)) ==> CertainMatch(matches, id)
    ensures !hasNonTerminals ==> forall id, a :: !IndirectHolds(p, m, ONR(namespace, id, relation), a)
  {
    var allowed := if p.schema[namespace][relation].allowed.Some? then p.schema[namespace][relation].allowed.value
        else [];
    var hasDirectSubject, hasWildcardSubject;
    hasNonTerminals, hasDirectSubject, hasWildcardSubject := ClassifyAllowed(p, allowed);
    matches := set rel <- p.store |
        && rel.resource.objectType == namespace && rel.resource.relation == relation && rel.resource.objectID in ids
        && ((hasDirectSubject && rel.subject == p.subject) ||
            (hasWildcardSubject && rel.subject == ONR(p.subject.objectType, PUBLIC_WILDCARD, ELLIPSIS)));
    MatchesAreDirect(p, namespace, relation, ids, matches, hasDirectSubject, hasWildcardSubject);
    CertainMatches(p, namespace, relation, ids, matches, hasDirectSubject, hasWildcardSubject);
    if !hasNonTerminals {
      NoNonTerminals(p, m, namespace, relation);
    }
  }

  /** The ids not yet found without a caveat. */
  method NotCertain(ids: seq<string>, found: MembershipSet) returns (further: seq<string>)
    ensures forall id :: id in further <==> id in ids && !(id in found.membersByID && found.membersByID[id].Always?)
  {
    further := [];
    for i := 0 to |ids|
      invariant forall id :: id in further <==>
                id in ids[..i] && !(id in found.membersByID && found.membersByID[id].Always?)
    {
      assert ids[..i + 1] == ids[..i] + [ids[i]];
      if ids[i] in found.membersByID && found.membersByID[ids[i]].Always? {
        continue;
      }
      further := further + [ids[i]];
    }
    assert ids[..|ids|] == ids;
  }

  /** All matches were read: the members found are those granted directly. */
  lemma DirectMembers(p: Problem, namespace: string, relation: string, ids: seq<string>, matches: set<Relationship>,
                      members: map<string, Condition>)
    requires forall id, a | id in IdSet(ids) :: MatchHolds(matches, id, a) <==>
             DirectHolds(p, ONR(namespace, id, relation), a)
    requires forall id :: FromMatches(matches, id) ==> id in IdSet(ids)
    requires forall id <- members :: FromMatches(matches, id)
    requires forall a, id :: Membership.Listed(members, a, id) <==> MatchHolds(matches, id, a)
    ensures members.Keys <= IdSet(ids)
    ensures forall a, id | id in IdSet(ids) :: Membership.Listed(members, a, id) <==>
            DirectHolds(p, ONR(namespace, id, relation), a)
  {
  }

  /** Reading stopped at a certain member. */
  lemma DirectStopped(p: Problem, m: Meaning, namespace: string, relation: string, ids: seq<string>,
                      matches: set<Relationship>, members: map<string, Condition>, results: ResultsMap)
    requires forall id, a | id in IdSet(ids) :: MatchHolds(matches, id, a) <==>
             DirectHolds(p, ONR(namespace, id, relation), a)
    requires forall id :: FromMatches(matches, id) ==> id in IdSet(ids)
    requires forall id <- members :: FromMatches(matches, id)
    requires forall a, id :: Membership.Listed(members, a, id) ==> MatchHolds(matches, id, a)
    requires MembersOnly(results) && results.Keys == members.Keys && Determined(results)
    requires forall a, id :: Reports(results, a, id) <==> Membership.Listed(members, a, id)
    ensures Answers(results, IdSet(ids), DirectTruth(p, m, namespace, relation), ALLOW_SINGLE_RESULT)
  {
  }

  /** No userset can add a member: there are none, or every id is certain already. */
  lemma DirectOnly(p: Problem, m: Meaning, namespace: string, relation: string, ids: set<string>,
                   members: map<string, Condition>, results: ResultsMap, setting: ResultsSetting)
    requires members.Keys <= ids
    requires forall a, id | id in ids :: Membership.Listed(members, a, id) <==>
             DirectHolds(p, ONR(namespace, id, relation), a)
    requires || (forall id, a :: !IndirectHolds(p, m, ONR(namespace, id, relation), a))
             || (forall id <- ids :: id in members && members[id].Always?)
    requires MembersOnly(results) && results.Keys == members.Keys
    requires forall a, id :: Reports(results, a, id) <==> Membership.Listed(members, a, id)
    ensures Answers(results, ids, DirectTruth(p, m, namespace, relation), setting)
  {
  }

  lemma DirectCombined(p: Problem, m: Meaning, namespace: string, relation: string, ids: set<string>,
                       further: set<string>,
                       members: map<string, Condition>, rest: ResultsMap, all: ResultsMap, setting: ResultsSetting)
    requires members.Keys <= ids
    requires forall a, id | id in ids :: Membership.Listed(members, a, id) <==>
             DirectHolds(p, ONR(namespace, id, relation), a)
    requires forall id :: id in further <==> id in ids && !(id in members && members[id].Always?)
    requires Answers(rest, further, IndirectTruth(p, m, namespace, relation), setting)
    requires MembersOnly(all) && all.Keys == members.Keys + rest.Keys
    requires forall a, id :: Reports(all, a, id) <==> Membership.Listed(members, a, id) || Reports(rest, a, id)
    requires Determined(rest) ==> Determined(all)
    ensures Answers(all, ids, DirectTruth(p, m, namespace, relation), setting)
  {
  }
}
