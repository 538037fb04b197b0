/** The reference meaning of a check on data without cycles: plain recursion, one resource and
    one assignment at a time. It is the one solution of the membership equations, so every
    error-free check agrees with it. */
module CheckReference {
  import opened Caveats
  import opened Tuples
  import opened Membership
  import opened CheckSemantics
  import opened CheckMapping
  import opened Check

  ghost predicate Member(p: Problem, rank: Rank, o: ObjectAndRelation, a: Assignment)
    requires Ranked(p, rank)
    decreases rank(o), 1
  {
    || o == p.subject
    || (&& HasRelation(p, o.objectType, o.relation)
        && match p.schema[o.objectType][o.relation].rewrite
           case None =>
             || DirectHolds(p, o, a)
             || exists r <- p.store ::
                  && r.resource == o && CaveatHolds(r, a) && r.subject.relation != ELLIPSIS
                  && Member(p, rank, r.subject, a)
           case Some(rewrite) => RewriteMember(p, rank, rewrite, o.objectType, o.objectID, rank(o), a))
  }

  ghost predicate RewriteMember(p: Problem, rank: Rank, rewrite: Rewrite, namespace: string, id: string, bound: nat,
                                a: Assignment)
    requires Ranked(p, rank) && RewriteRanked(p, rank, rewrite, namespace, id, bound)
    decreases bound, 0, rewrite
  {
    match rewrite
    case UnionOf(children) => exists c <- children :: ChildMember(p, rank, c, namespace, id, bound, a)
    case IntersectionOf(children) => children != [] && forall c <- children ::
        ChildMember(p, rank, c, namespace, id, bound, a)
    case ExclusionOf(children) =>
      && children != [] && ChildMember(p, rank, children[0], namespace, id, bound, a)
      && forall i | 1 <= i < |children| :: !ChildMember(p, rank, children[i], namespace, id, bound, a)
  }

  ghost predicate ChildMember(p: Problem, rank: Rank, child: Child, namespace: string, id: string, bound: nat,
                              a: Assignment)
    requires Ranked(p, rank) && ChildRanked(p, rank, child, namespace, id, bound)
    decreases bound, 0, child
  {
    match child
    case This => false
    case Nil => false
    case Self => p.subject == ONR(namespace, id, ELLIPSIS)
    case ComputedUserset(relation) => Member(p, rank, ONR(namespace, id, relation), a)
    case TupleToUserset(tupleset, computed) =>
      exists r <- p.store ::
        && r.resource == ONR(namespace, id, tupleset) && CaveatHolds(r, a)
        && Member(p, rank, ONR(r.subject.objectType, r.subject.objectID, computed), a)
    case Nested(rewrite) => RewriteMember(p, rank, rewrite, namespace, id, bound, a)
  }

  ghost function ReferenceMeaning(p: Problem, rank: Rank): Meaning
    requires Ranked(p, rank)
  {
    iset q: (ObjectAndRelation, Assignment) | Member(p, rank, q.0, q.1)
  }

  /** `m` agrees with the recursion below the bound. */
  ghost predicate AgreesBelow(p: Problem, rank: Rank, m: Meaning, bound: nat, a: Assignment)
    requires Ranked(p, rank)
  {
    forall o: ObjectAndRelation | rank(o) < bound :: (o, a) in m <==> Member(p, rank, o, a)
  }

  lemma {:induction false} RewriteAgrees(p: Problem, rank: Rank, m: Meaning, rewrite: Rewrite, namespace: string,
                                         id: string, bound: nat, a: Assignment)
    requires Ranked(p, rank) && RewriteRanked(p, rank, rewrite, namespace, id, bound)
             && AgreesBelow(p, rank, m, bound, a)
    ensures RewriteHolds(p, m, rewrite, namespace, id, a) <==> RewriteMember(p, rank, rewrite, namespace, id, bound, a)
    decreases rewrite
  {
    forall c <- rewrite.children
      ensures ChildHolds(p, m, c, namespace, id, a) <==> ChildMember(p, rank, c, namespace, id, bound, a)
    {
      ChildAgrees(p, rank, m, c, namespace, id, bound, a);
    }
  }

  lemma {:induction false} ChildAgrees(p: Problem, rank: Rank, m: Meaning, child: Child, namespace: string, id: string,
                                       bound: nat, a: Assignment)
    requires Ranked(p, rank) && ChildRanked(p, rank, child, namespace, id, bound) && AgreesBelow(p, rank, m, bound, a)
    ensures ChildHolds(p, m, child, namespace, id, a) <==> ChildMember(p, rank, child, namespace, id, bound, a)
    decreases child
  {
    match child
    case TupleToUserset(tupleset, computed) =>
      forall r <- p.store | r.resource == ONR(namespace, id, tupleset)
        ensures var o := ONR(r.subject.objectType, r.subject.objectID, computed); (o, a) in m <==> Member(p, rank, o, a)
      {
      }
    case Nested(rewrite) => RewriteAgrees(p, rank, m, rewrite, namespace, id, bound, a);
    case _ =>
  }

  lemma RuleAgrees(p: Problem, rank: Rank, m: Meaning, o: ObjectAndRelation, a: Assignment)
    requires Ranked(p, rank) && AgreesBelow(p, rank, m, rank(o), a)
    ensures Equation(p, m, o, a) <==> Member(p, rank, o, a)
  {
    if HasRelation(p, o.objectType, o.relation) {
      var rewrite := p.schema[o.objectType][o.relation].rewrite;
      if rewrite.Some? {
        RewriteAgrees(p, rank, m, rewrite.value, o.objectType, o.objectID, rank(o), a);
      }
    }
  }

  /** The recursion solves the equations ... */
  lemma ReferenceIsSolution(p: Problem, rank: Rank)
    requires Ranked(p, rank)
    ensures Solution(p, ReferenceMeaning(p, rank))
  {
    var m := ReferenceMeaning(p, rank);
    forall o, a ensures (o, a) in m <==> Equation(p, m, o, a) {
      RuleAgrees(p, rank, m, o, a);
    }
  }

  /** ... and nothing else does. */
  lemma {:induction false} SolutionIsReference(p: Problem, rank: Rank, m: Meaning, o: ObjectAndRelation, a: Assignment)
    requires Ranked(p, rank) && Solution(p, m)
    ensures (o, a) in m <==> Member(p, rank, o, a)
    decreases rank(o)
  {
    forall below: ObjectAndRelation | rank(below) < rank(o) ensures (below, a) in m <==> Member(p, rank, below, a) {
      SolutionIsReference(p, rank, m, below, a);
    }
    RuleAgrees(p, rank, m, o, a);
  }

  /** A check of a batch reports each resource exactly as the reference does for it alone, under
      every assignment, whatever the batch, the chunk size and the order of arrival; and it
      succeeds whenever the depth exceeds the rank of the resources. */
  method CheckBatch(p: Problem, chunkSize: nat, depth: nat, namespace: string, relation: string, ids: seq<string>,
                    ghost rank: Rank) returns (r: CheckResult)
    requires WellTyped(p) && Ranked(p, rank)
    ensures r.Checked? ==> forall a, id ::
              Reports(r.results, a, id) <==> id in ids && Member(p, rank, ONR(namespace, id, relation), a)
    ensures CanDispatch(p, rank, namespace, relation, ids, depth) ==> r.Checked?
  {
    ghost var m := ReferenceMeaning(p, rank);
    ReferenceIsSolution(p, rank);
    r := DispatchCheck(p, chunkSize, depth, namespace, relation, ids, REQUIRE_ALL_RESULTS, m, rank);
    if r.Checked? {
      forall a, id ensures Reports(r.results, a, id) <==>
          id in ids && Member(p, rank, ONR(namespace, id, relation), a) {
        assert id in IdSet(ids) <==> id in ids;
        assert (id, a) in RelationTruth(m, namespace, relation) <==> Member(p, rank, ONR(namespace, id, relation), a);
      }
    }
  }
}
