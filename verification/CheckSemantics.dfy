/** Schemas, stores, and what it means for a subject to be a member of a resource.

    Membership is defined by equations, one for each object and relation: it is the subject
    itself, or the relation's rule grants it. A meaning is a solution of all the equations.
    When the data has no cycle the solution is unique; nothing here assumes that, since a
    check that returns agrees with every solution. */
module CheckSemantics {
  import opened Common
  import opened Caveats
  import opened Tuples
  import opened Reducers

  datatype AllowedRelation = AllowedRelation(namespace: string, relation: string) | AllowedWildcard(namespace: string)

  datatype Rewrite =
    | UnionOf(children: seq<Child>)
    | IntersectionOf(children: seq<Child>)
    | ExclusionOf(children: seq<Child>)

  datatype Child =
    | This
    | Nil
    | Self
    | ComputedUserset(relation: string)
    | TupleToUserset(tupleset: string, computed: string)
    | Nested(rewrite: Rewrite)

  /** A relation lists what subjects it allows; a permission has a rewrite. An alias names the
      relation that a permission is merely another name for. */
  datatype Relation = Relation(rewrite: Option<Rewrite>, allowed: Option<seq<AllowedRelation>>,
                               aliasing: Option<string>)

  type Definition = map<string, Relation>

  /** All that stays fixed while one check is evaluated. */
  datatype Problem = Problem(
    schema: map<string, Definition>,
    store: set<Relationship>,
    subject: ObjectAndRelation)

  /** The objects and relations of which the subject is a member, under each assignment. */
  type Meaning = iset<(ObjectAndRelation, Assignment)>

  ghost predicate CaveatHolds(r: Relationship, a: Assignment) {
    Holds(CaveatAsExpr(r.caveat), a)
  }

  /** The relationship's subject is the one asked about, or the wildcard of its type. */
  predicate MatchesSubject(p: Problem, subject: ObjectAndRelation) {
    subject == p.subject || subject == ONR(p.subject.objectType, PUBLIC_WILDCARD, ELLIPSIS)
  }

  ghost predicate DirectHolds(p: Problem, o: ObjectAndRelation, a: Assignment) {
    exists r <- p.store :: r.resource == o && CaveatHolds(r, a) && MatchesSubject(p, r.subject)
  }

  /** A relationship of the object to some userset of which the subject is a member. */
  ghost predicate IndirectHolds(p: Problem, m: Meaning, o: ObjectAndRelation, a: Assignment) {
    exists r <- p.store :: r.resource == o && CaveatHolds(r, a) && r.subject.relation != ELLIPSIS && (r.subject, a) in m
  }

  /** A relationship of the tupleset to some object on which the computed relation holds. */
  ghost predicate ArrowHolds(p: Problem, m: Meaning, tupleset: ObjectAndRelation, computed: string, a: Assignment) {
    exists r <- p.store ::
        r.resource == tupleset && CaveatHolds(r, a) && (ONR(r.subject.objectType, r.subject.objectID, computed), a) in m
  }

  ghost predicate ChildHolds(p: Problem, m: Meaning, child: Child, namespace: string, id: string, a: Assignment)
    decreases child
  {
    match child
    case This => false
    case Nil => false
    case Self => p.subject == ONR(namespace, id, ELLIPSIS)
    case ComputedUserset(relation) => (ONR(namespace, id, relation), a) in m
    case TupleToUserset(tupleset, computed) => ArrowHolds(p, m, ONR(namespace, id, tupleset), computed, a)
    case Nested(rewrite) => RewriteHolds(p, m, rewrite, namespace, id, a)
  }

  ghost predicate RewriteHolds(p: Problem, m: Meaning, rewrite: Rewrite, namespace: string, id: string, a: Assignment)
    decreases rewrite
  {
    match rewrite
    case UnionOf(children) => exists c <- children :: ChildHolds(p, m, c, namespace, id, a)
    case IntersectionOf(children) => children != [] && forall c <- children :: ChildHolds(p, m, c, namespace, id, a)
    case ExclusionOf(children) =>
      && children != [] && ChildHolds(p, m, children[0], namespace, id, a)
      && forall i | 1 <= i < |children| :: !ChildHolds(p, m, children[i], namespace, id, a)
  }

  predicate HasRelation(p: Problem, namespace: string, relation: string) {
    namespace in p.schema && relation in p.schema[namespace]
  }

  ghost predicate RuleHolds(p: Problem, m: Meaning, relation: Relation, o: ObjectAndRelation, a: Assignment) {
    match relation.rewrite
    case None => DirectHolds(p, o, a) || IndirectHolds(p, m, o, a)
    case Some(rewrite) => RewriteHolds(p, m, rewrite, o.objectType, o.objectID, a)
  }

  ghost predicate Equation(p: Problem, m: Meaning, o: ObjectAndRelation, a: Assignment) {
    || o == p.subject
    || (HasRelation(p, o.objectType, o.relation) && RuleHolds(p, m, p.schema[o.objectType][o.relation], o, a))
  }

  ghost predicate Solution(p: Problem, m: Meaning) {
    forall o, a :: (o, a) in m <==> Equation(p, m, o, a)
  }

  // ---- Truths: the pairs of resource id and assignment for which a problem is answered yes.

  ghost function RelationTruth(m: Meaning, namespace: string, relation: string): Truth {
    iset q: (string, Assignment) | (ONR(namespace, q.0, relation), q.1) in m
  }

  ghost function RewriteTruth(p: Problem, m: Meaning, rewrite: Rewrite, namespace: string): Truth {
    iset q: (string, Assignment) | RewriteHolds(p, m, rewrite, namespace, q.0, q.1)
  }

  ghost function ChildTruth(p: Problem, m: Meaning, child: Child, namespace: string): Truth {
    iset q: (string, Assignment) | ChildHolds(p, m, child, namespace, q.0, q.1)
  }

  ghost function ChildTruths(p: Problem, m: Meaning, children: seq<Child>, namespace: string): (truths: seq<Truth>)
    ensures |truths| == |children|
    ensures forall i | 0 <= i < |children| :: truths[i] == ChildTruth(p, m, children[i], namespace)
  {
    if children == [] then []
    else
      ChildTruths(p, m, children[..|children| - 1], namespace) +
      [ChildTruth(p, m, children[|children| - 1], namespace)]
  }

  lemma UnionTruth(p: Problem, m: Meaning, children: seq<Child>, namespace: string, truths: seq<Truth>)
    requires forall t :: t in truths <==> t in ChildTruths(p, m, children, namespace)
    ensures AnyOf(truths) == RewriteTruth(p, m, UnionOf(children), namespace)
  {
    var all := ChildTruths(p, m, children, namespace);
    forall q: (string, Assignment) ensures q in AnyOf(truths) <==>
        q in RewriteTruth(p, m, UnionOf(children), namespace) {
      if InSome(truths, q) {
        var t :| t in truths && q in t;
        var i :| 0 <= i < |all| && all[i] == t;
        assert children[i] in children;
      }
      if RewriteHolds(p, m, UnionOf(children), namespace, q.0, q.1) {
        var c :| c in children && ChildHolds(p, m, c, namespace, q.0, q.1);
        var i :| 0 <= i < |children| && children[i] == c;
        assert all[i] in truths;
      }
    }
  }

  lemma IntersectionTruth(p: Problem, m: Meaning, children: seq<Child>, namespace: string, truths: seq<Truth>)
    requires |truths| == |children| && forall t :: t in truths <==> t in ChildTruths(p, m, children, namespace)
    ensures AllOf(truths) == RewriteTruth(p, m, IntersectionOf(children), namespace)
  {
    var all := ChildTruths(p, m, children, namespace);
    forall q: (string, Assignment) ensures q in AllOf(truths) <==>
        q in RewriteTruth(p, m, IntersectionOf(children), namespace) {
      if InEvery(truths, q) {
        forall c <- children ensures ChildHolds(p, m, c, namespace, q.0, q.1) {
          var i :| 0 <= i < |children| && children[i] == c;
          assert all[i] in truths;
        }
      }
      if forall c <- children :: ChildHolds(p, m, c, namespace, q.0, q.1) {
        forall t <- truths ensures q in t {
          var i :| 0 <= i < |all| && all[i] == t;
          assert children[i] in children;
        }
      }
    }
  }

  lemma ExclusionTruth(p: Problem, m: Meaning, children: seq<Child>, namespace: string, truths: seq<Truth>)
    requires |children| > 1 && forall t :: t in truths <==> t in ChildTruths(p, m, children[1..], namespace)
    ensures FirstOnly(ChildTruth(p, m, children[0], namespace), truths) ==
            RewriteTruth(p, m, ExclusionOf(children), namespace)
  {
    var all := ChildTruths(p, m, children[1..], namespace);
    forall q: (string, Assignment)
      ensures InSome(truths, q) <==>
              exists i | 1 <= i < |children| :: ChildHolds(p, m, children[i], namespace, q.0, q.1)
    {
      if InSome(truths, q) {
        var t :| t in truths && q in t;
        var i :| 0 <= i < |all| && all[i] == t;
        assert ChildHolds(p, m, children[i + 1], namespace, q.0, q.1);
      }
      if i :| 1 <= i < |children| && ChildHolds(p, m, children[i], namespace, q.0, q.1) {
        assert all[i - 1] in truths;
      }
    }
  }

  // ---- Well-typed problems.

  predicate Allows(allowed: AllowedRelation, subject: ObjectAndRelation) {
    match allowed
    case AllowedRelation(namespace, relation) =>
      namespace == subject.objectType && relation == subject.relation && subject.objectID != PUBLIC_WILDCARD
    case AllowedWildcard(namespace) =>
      namespace == subject.objectType && subject.objectID == PUBLIC_WILDCARD && subject.relation == ELLIPSIS
  }

  /** A chain of permissions that each refer to the next and to nothing else. */
  ghost predicate AliasChain(def: Definition, path: seq<string>) {
    && path != []
    && forall i | 0 <= i < |path| - 1 ::
       path[i] in def && def[path[i]].rewrite == Some(UnionOf([ComputedUserset(path[i + 1])]))
  }

  ghost predicate AliasesResolved(def: Definition) {
    forall name <- def | def[name].aliasing.Some? ::
      exists path :: AliasChain(def, path) && path[0] == name && path[|path| - 1] == def[name].aliasing.value
  }

  /** What validation guarantees of schemas and writes: relationships name known relations and
      subjects these allow, written caveats have names, the subject's relation exists, the
      ellipsis is not a relation's name, and aliases point to the ends of alias chains. */
  ghost predicate WellTyped(p: Problem) {
    && (forall r <- p.store ::
          && HasRelation(p, r.resource.objectType, r.resource.relation)
          && var relation := p.schema[r.resource.objectType][r.resource.relation];
             relation.allowed.Some? && exists allowed <- relation.allowed.value :: Allows(allowed, r.subject))
    && (forall r <- p.store :: r.caveat.Some? ==> r.caveat.value.name != "")
    && (p.subject.relation == ELLIPSIS || HasRelation(p, p.subject.objectType, p.subject.relation))
    && (forall namespace <- p.schema :: ELLIPSIS !in p.schema[namespace] && AliasesResolved(p.schema[namespace]))
  }

  /** Away from the subject's own type an alias chain never changes membership. */
  lemma {:induction false} AliasSameMeaning(p: Problem, m: Meaning, namespace: string, path: seq<string>)
    requires Solution(p, m) && namespace in p.schema && AliasChain(p.schema[namespace], path)
    requires namespace != p.subject.objectType
    ensures RelationTruth(m, namespace, path[0]) == RelationTruth(m, namespace, path[|path| - 1])
    decreases |path|
  {
    if |path| > 1 {
      var children := [ComputedUserset(path[1])];
      forall q: (string, Assignment)
        ensures (ONR(namespace, q.0, path[0]), q.1) in m <==> (ONR(namespace, q.0, path[1]), q.1) in m
      {
        assert (ONR(namespace, q.0, path[0]), q.1) in m <==> Equation(p, m, ONR(namespace, q.0, path[0]), q.1);
        assert children[0] in children;
        assert RewriteHolds(p, m, UnionOf(children), namespace, q.0, q.1) <==>
               ChildHolds(p, m, children[0], namespace, q.0, q.1);
      }
      AliasSameMeaning(p, m, namespace, path[1..]);
    }
  }

  // ---- Data without cycles, and schemas on which a check runs into no error.

  /** Bounds the number of steps from an object and relation to the bottom of the data. */
  type Rank = ObjectAndRelation -> nat

  ghost predicate ChildRanked(p: Problem, rank: Rank, child: Child, namespace: string, id: string, bound: nat)
    decreases child
  {
    match child
    case ComputedUserset(relation) => rank(ONR(namespace, id, relation)) < bound
    case TupleToUserset(tupleset, computed) =>
      forall r <- p.store | r.resource == ONR(namespace, id, tupleset) ::
        rank(ONR(r.subject.objectType, r.subject.objectID, computed)) < bound
    case Nested(rewrite) => RewriteRanked(p, rank, rewrite, namespace, id, bound)
    case _ => true
  }

  ghost predicate RewriteRanked(p: Problem, rank: Rank, rewrite: Rewrite, namespace: string, id: string, bound: nat)
    decreases rewrite
  {
    forall c <- rewrite.children :: ChildRanked(p, rank, c, namespace, id, bound)
  }

  /** Everything a rule refers to ranks below the object it is applied to: there are no cycles. */
  ghost predicate Ranked(p: Problem, rank: Rank) {
    forall o: ObjectAndRelation | HasRelation(p, o.objectType, o.relation) ::
      match p.schema[o.objectType][o.relation].rewrite
      case None => forall r <- p.store | r.resource == o && r.subject.relation != ELLIPSIS :: rank(r.subject) < rank(o)
      case Some(rewrite) => RewriteRanked(p, rank, rewrite, o.objectType, o.objectID, rank(o))
  }

  lemma {:induction false} RewriteRankedMore(p: Problem, rank: Rank, rewrite: Rewrite, namespace: string, id: string,
                                             bound: nat, more: nat)
    requires RewriteRanked(p, rank, rewrite, namespace, id, bound) && bound <= more
    ensures RewriteRanked(p, rank, rewrite, namespace, id, more)
    decreases rewrite
  {
    forall c <- rewrite.children ensures ChildRanked(p, rank, c, namespace, id, more) {
      if c.Nested? {
        RewriteRankedMore(p, rank, c.rewrite, namespace, id, bound, more);
      }
    }
  }

  /** A child that refers to relations its type has, and to tuplesets that hold relationships. */
  ghost predicate ChildValid(p: Problem, child: Child, namespace: string)
    decreases child
  {
    match child
    case This => false
    case Nil => true
    case Self => true
    case ComputedUserset(relation) => HasRelation(p, namespace, relation)
    case TupleToUserset(tupleset, computed) =>
      && HasRelation(p, namespace, tupleset) && p.schema[namespace][tupleset].allowed.Some? && computed != ELLIPSIS
      && forall r <- p.store | r.resource.objectType == namespace && r.resource.relation == tupleset ::
         r.subject.objectType in p.schema
    case Nested(rewrite) => RewriteValid(p, rewrite, namespace)
  }

  ghost predicate RewriteValid(p: Problem, rewrite: Rewrite, namespace: string)
    decreases rewrite
  {
    && (rewrite.ExclusionOf? ==> |rewrite.children| != 1)
    && forall c <- rewrite.children :: ChildValid(p, c, namespace)
  }

  /** References resolve: the errors that remain are an empty request, a wildcard subject, an
      unknown relation and too little depth. */
  ghost predicate ReferencesResolve(p: Problem) {
    && (forall namespace <- p.schema, name <- p.schema[namespace] ::
          && (p.schema[namespace][name].rewrite.Some? ==>
              RewriteValid(p, p.schema[namespace][name].rewrite.value, namespace))
          && (p.schema[namespace][name].aliasing.Some? ==>
              HasRelation(p, namespace, p.schema[namespace][name].aliasing.value)))
    && (forall r <- p.store | r.subject.relation != ELLIPSIS ::
        HasRelation(p, r.subject.objectType, r.subject.relation))
  }

  ghost predicate Completable(p: Problem, rank: Rank) {
    Ranked(p, rank) && ReferencesResolve(p) && p.subject.objectID != PUBLIC_WILDCARD
  }

  ghost predicate RanksBelow(rank: Rank, namespace: string, relation: string, ids: seq<string>, bound: int) {
    forall id <- ids :: rank(ONR(namespace, id, relation)) < bound
  }

  ghost predicate CanDispatch(p: Problem, rank: Rank, namespace: string, relation: string, ids: seq<string>,
                              depth: nat) {
    Completable(p, rank) && HasRelation(p, namespace, relation) && ids != []
        && RanksBelow(rank, namespace, relation, ids, depth)
  }

  ghost predicate CanRewrite(p: Problem, rank: Rank, rewrite: Rewrite, namespace: string, ids: seq<string>, depth: nat)
    requires depth > 0
  {
    Completable(p, rank) && RewriteValid(p, rewrite, namespace) && forall id <- ids ::
        RewriteRanked(p, rank, rewrite, namespace, id, depth - 1)
  }

  ghost predicate CanRunChild(p: Problem, rank: Rank, child: Child, namespace: string, ids: seq<string>, depth: nat)
    requires depth > 0
  {
    Completable(p, rank) && ChildValid(p, child, namespace) && forall id <- ids ::
        ChildRanked(p, rank, child, namespace, id, depth - 1)
  }

  /** An alias's target ranks no higher than the permission it stands for. */
  lemma {:induction false} AliasRanks(p: Problem, rank: Rank, namespace: string, path: seq<string>, id: string)
    requires Ranked(p, rank) && namespace in p.schema && AliasChain(p.schema[namespace], path)
    ensures rank(ONR(namespace, id, path[|path| - 1])) <= rank(ONR(namespace, id, path[0]))
    decreases |path|
  {
    if |path| > 1 {
      var o := ONR(namespace, id, path[0]);
      var children := [ComputedUserset(path[1])];
      assert HasRelation(p, o.objectType, o.relation);
      assert children[0] in children;
      assert ChildRanked(p, rank, children[0], namespace, id, rank(o));
      AliasRanks(p, rank, namespace, path[1..], id);
    }
  }
}
