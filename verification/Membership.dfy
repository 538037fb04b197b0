/** Results of a check over a batch of resource ids, and the mutable set in which they are
    accumulated. */
module Membership {
  import opened Common
  import opened Caveats

  datatype MembershipKind = UNKNOWN | NOT_MEMBER | MEMBER | CAVEATED_MEMBER

  datatype ResourceResult = ResourceResult(membership: MembershipKind, expression: Condition)

  type ResultsMap = map<string, ResourceResult>

  datatype ResultsSetting = REQUIRE_ALL_RESULTS | ALLOW_SINGLE_RESULT

  datatype CheckResult = Checked(results: ResultsMap) | Failed

  /** The map reports the resource as a member under this assignment. */
  ghost predicate Reports(results: ResultsMap, a: Assignment, id: string) {
    id in results && results[id].membership != NOT_MEMBER && Holds(results[id].expression, a)
  }

  /** The map reports the resource as a member without any condition. */
  ghost predicate ReportsAlways(results: ResultsMap, id: string) {
    id in results && results[id].membership != NOT_MEMBER && results[id].expression.Always?
  }

  ghost predicate Determined(results: ResultsMap) {
    exists id <- results :: ReportsAlways(results, id)
  }

  /** Results as membership sets produce them: members only, caveated exactly when conditional. */
  ghost predicate MembersOnly(results: ResultsMap) {
    forall id <- results ::
      results[id].membership == if results[id].expression.Always? then MEMBER else CAVEATED_MEMBER
  }

  ghost predicate Listed(members: map<string, Condition>, a: Assignment, id: string) {
    id in members && Holds(members[id], a)
  }

  ghost predicate SameEntry(was: map<string, Condition>, now: map<string, Condition>, id: string) {
    (id in now <==> id in was) && (id in was ==> now[id] == was[id])
  }

  ghost predicate EntryUnioned(was: map<string, Condition>, results: ResultsMap, now: map<string, Condition>,
                               id: string) {
    if id in results && results[id].membership != NOT_MEMBER then
      id in now && now[id] == if id in was then ShortcircuitedOr(was[id], results[id].expression)
          else results[id].expression
    else
      SameEntry(was, now, id)
  }

  ghost predicate EntryIntersected(was: map<string, Condition>, results: ResultsMap, now: map<string, Condition>,
                                   id: string) {
    && (id in now <==> id in was && id in results && results[id].membership != NOT_MEMBER)
    && (id in now ==> now[id] == And(was[id], results[id].expression))
  }

  ghost predicate EntrySubtracted(was: map<string, Condition>, results: ResultsMap, now: map<string, Condition>,
                                  id: string) {
    && (id in now <==> id in was && !ReportsAlways(results, id))
    && (id in now ==> now[id] == if id in results && results[id].membership != NOT_MEMBER
        then Caveats.Subtract(was[id], results[id].expression) else was[id])
  }

  class MembershipSet {
    var membersByID: map<string, Condition>
    var hasDeterminedMember: bool

    /** The flag is set exactly when some member has no caveat. */
    ghost predicate Valid()
      reads this
    {
      hasDeterminedMember <==> exists id <- membersByID :: membersByID[id].Always?
    }

    constructor ()
      ensures Valid() && membersByID == map[]
    {
      membersByID := map[];
      hasDeterminedMember := false;
    }

    method AddMember(id: string, expr: Condition)
      requires Valid()
      modifies this
      ensures Valid()
      ensures membersByID ==
              old(membersByID)[id := if id in old(membersByID) then ShortcircuitedOr(old(membersByID)[id], expr)
                               else expr]
      ensures forall a :: Listed(membersByID, a, id) <==> Listed(old(membersByID), a, id) || Holds(expr, a)
    {
      ghost var was := membersByID;
      if id !in membersByID {
        hasDeterminedMember := hasDeterminedMember || expr.Always?;
        membersByID := membersByID[id := expr];
      } else if membersByID[id].Always? {
        assert membersByID == was[id := Always];
      } else if expr.Always? {
        hasDeterminedMember := true;
        membersByID := membersByID[id := Always];
      } else {
        membersByID := membersByID[id := Or(membersByID[id], expr)];
      }
      assert forall other <- was | other != id :: membersByID[other] == was[other];
      assert id in membersByID;
    }

    method AddDirectMember(id: string, caveat: Option<Caveat>)
      requires Valid()
      modifies this
      ensures Valid()
      ensures membersByID.Keys == old(membersByID.Keys) + {id}
      ensures membersByID[id].Always? <==> caveat.None? || (id in old(membersByID) && old(membersByID)[id].Always?)
      ensures forall other <- membersByID | other != id :: membersByID[other] == old(membersByID)[other]
      ensures forall a :: Listed(membersByID, a, id) <==>
              Listed(old(membersByID), a, id) || Holds(CaveatAsExpr(caveat), a)
    {
      AddMember(id, CaveatAsExpr(caveat));
    }

    /** Adds a member found through a relationship, whose caveat must hold as well. */
    method AddMemberWithParentCaveat(id: string, expression: Condition, parent: Option<Caveat>)
      requires Valid()
      modifies this
      ensures Valid()
      ensures membersByID.Keys == old(membersByID.Keys) + {id}
      ensures membersByID[id].Always? <==>
              (expression.Always? && parent.None?) || (id in old(membersByID) && old(membersByID)[id].Always?)
      ensures forall other <- membersByID | other != id :: membersByID[other] == old(membersByID)[other]
      ensures forall a :: Listed(membersByID, a, id) <==>
              Listed(old(membersByID), a, id) || (Holds(CaveatAsExpr(parent), a) && Holds(expression, a))
    {
      AddMember(id, And(CaveatAsExpr(parent), expression));
    }

    method UnionWith(results: ResultsMap)
      requires Valid()
      modifies this
      ensures Valid()
      ensures forall id :: EntryUnioned(old(membersByID), results, membersByID, id)
      ensures forall a, id :: Listed(membersByID, a, id) <==> Listed(old(membersByID), a, id) || Reports(results, a, id)
    {
      ghost var was := membersByID;
      var todo := results.Keys;
      while todo != {}
        invariant Valid() && todo <= results.Keys
        invariant forall id ::
                  if id in todo then SameEntry(was, membersByID, id) else EntryUnioned(was, results, membersByID, id)
      {
        var id :| id in todo;
        if results[id].membership != NOT_MEMBER {
          AddMember(id, results[id].expression);
        }
        todo := todo - {id};
      }
      forall a, id ensures Listed(membersByID, a, id) <==> Listed(was, a, id) || Reports(results, a, id) {
        assert EntryUnioned(was, results, membersByID, id);
      }
    }

    method IntersectWith(results: ResultsMap)
      requires Valid()
      modifies this
      ensures Valid()
      ensures forall id :: EntryIntersected(old(membersByID), results, membersByID, id)
      ensures forall a, id :: Listed(membersByID, a, id) <==> Listed(old(membersByID), a, id) && Reports(results, a, id)
    {
      ghost var was := membersByID;
      RemoveMissing(results);
      hasDeterminedMember := false;
      var todo := results.Keys;
      while todo != {}
        invariant todo <= results.Keys
        invariant forall id :: id in membersByID <==> id in was && id in results && results[id].membership != NOT_MEMBER
        invariant forall id <- membersByID ::
                  if id in todo then membersByID[id] == was[id] else EntryIntersected(was, results, membersByID, id)
        invariant hasDeterminedMember <==> exists id <- membersByID :: id !in todo && membersByID[id].Always?
      {
        var id :| id in todo;
        ghost var before := membersByID;
        todo := todo - {id};
        if id in membersByID && results[id].membership != NOT_MEMBER {
          if membersByID[id].Always? && results[id].expression.Always? {
            hasDeterminedMember := true;
          } else {
            membersByID := membersByID[id := And(membersByID[id], results[id].expression)];
          }
        }
        assert forall other <- membersByID | other != id :: membersByID[other] == before[other];
      }
      forall a, id ensures Listed(membersByID, a, id) <==> Listed(was, a, id) && Reports(results, a, id) {
        assert id in membersByID ==> EntryIntersected(was, results, membersByID, id);
      }
    }

    method RemoveMissing(results: ResultsMap)
      modifies this`membersByID
      ensures forall id :: id in membersByID <==>
              id in old(membersByID) && id in results && results[id].membership != NOT_MEMBER
      ensures forall id <- membersByID :: membersByID[id] == old(membersByID)[id]
    {
      var todo := membersByID.Keys;
      while todo != {}
        invariant todo <= membersByID.Keys <= old(membersByID.Keys)
        invariant forall id | id !in todo :: id in membersByID <==>
                  id in old(membersByID) && id in results && results[id].membership != NOT_MEMBER
        invariant forall id <- membersByID :: membersByID[id] == old(membersByID)[id]
      {
        var id :| id in todo;
        if id !in results || results[id].membership == NOT_MEMBER {
          membersByID := membersByID - {id};
        }
        todo := todo - {id};
      }
    }

    method Subtract(results: ResultsMap)
      requires Valid()
      modifies this
      ensures Valid()
      ensures forall id :: EntrySubtracted(old(membersByID), results, membersByID, id)
      ensures forall a, id :: Listed(membersByID, a, id) <==>
              Listed(old(membersByID), a, id) && !Reports(results, a, id)
    {
      ghost var was := membersByID;
      hasDeterminedMember := false;
      var todo := membersByID.Keys;
      while todo != {}
        invariant todo <= membersByID.Keys
        invariant forall id ::
                  if id in todo then SameEntry(was, membersByID, id) else EntrySubtracted(was, results, membersByID, id)
        invariant hasDeterminedMember <==> exists id <- membersByID :: id !in todo && membersByID[id].Always?
      {
        var id :| id in todo;
        ghost var before := membersByID;
        var expression := membersByID[id];
        todo := todo - {id};
        if id in results && results[id].membership != NOT_MEMBER {
          if results[id].expression.Always? {
            membersByID := membersByID - {id};
          } else {
            membersByID := membersByID[id := Caveats.Subtract(expression, results[id].expression)];
          }
        } else if expression.Always? {
          hasDeterminedMember := true;
        }
        assert forall other | other != id :: SameEntry(before, membersByID, other);
      }
      forall a, id ensures Listed(membersByID, a, id) <==> Listed(was, a, id) && !Reports(results, a, id) {
        assert EntrySubtracted(was, results, membersByID, id);
      }
    }

    method AsCheckResultsMap() returns (results: ResultsMap)
      requires Valid()
      ensures results.Keys == membersByID.Keys && MembersOnly(results)
      ensures forall a, id :: Reports(results, a, id) <==> Listed(membersByID, a, id)
      ensures forall id :: ReportsAlways(results, id) <==> id in membersByID && membersByID[id].Always?
      ensures Determined(results) <==> hasDeterminedMember
    {
      results := map[];
      var todo := membersByID.Keys;
      while todo != {}
        invariant todo <= membersByID.Keys && results.Keys == membersByID.Keys - todo
        invariant forall id <- results :: results[id].expression == membersByID[id]
        invariant MembersOnly(results)
      {
        var id :| id in todo;
        results := results[id := ResourceResult(if membersByID[id].When? then CAVEATED_MEMBER
                                                else MEMBER, membersByID[id])];
        todo := todo - {id};
      }
      assert forall id <- membersByID | membersByID[id].Always? :: ReportsAlways(results, id);
    }
  }
}
