/** Folding an expansion tree into the set of subjects it grants access to, one subject set
    per subject type. */
module ExpansionFold {
  import opened Common
  import opened Caveats
  import opened Tuples
  import opened Subjects
  import opened SubjectSets

  datatype DirectSubject = DirectSubject(kind: RelationReference, id: string, caveat: Condition)

  datatype SetOperation = INVALID | UNION | INTERSECTION | EXCLUSION

  datatype TreeNode =
    | Intermediate(caveat: Condition, op: SetOperation, children: seq<TreeNode>)
    | LeafNode(caveat: Condition, subjects: seq<DirectSubject>)

  /** The meaning of a tree, by recursion on it. */
  ghost predicate Grants(t: TreeNode, a: Assignment, kind: RelationReference, id: string) {
    && Holds(t.caveat, a)
    && match t
       case LeafNode(_, subjects) =>
         exists s <- subjects :: s.kind == kind && Covers(AsSubject(s), a, id)
       case Intermediate(_, UNION, children) =>
         exists i | 0 <= i < |children| :: Grants(children[i], a, kind, id)
       case Intermediate(_, INTERSECTION, children) =>
         children != [] && forall i | 0 <= i < |children| :: Grants(children[i], a, kind, id)
       case Intermediate(_, EXCLUSION, children) =>
         && children != [] && Grants(children[0], a, kind, id)
         && forall i | 1 <= i < |children| :: !Grants(children[i], a, kind, id)
       case Intermediate(_, INVALID, _) => false
  }

  function AsSubject(s: DirectSubject): Subject {
    Subject(s.id, s.caveat, [])
  }

  /** Trees the fold accepts: known operations, and no exclusion without children. */
  ghost predicate Foldable(t: TreeNode) {
    t.Intermediate? ==>
      && t.op != INVALID && (t.op == EXCLUSION ==> t.children != [])
      && forall i | 0 <= i < |t.children| :: Foldable(t.children[i])
  }

  ghost predicate ExclusionFree(t: TreeNode) {
    t.Intermediate? ==> t.op != EXCLUSION && forall i | 0 <= i < |t.children| :: ExclusionFree(t.children[i])
  }

  /** The set of this type can have a wildcard. */
  ghost predicate MayHaveWildcard(t: TreeNode, kind: RelationReference) {
    match t
    case LeafNode(_, subjects) => exists s <- subjects :: s.kind == kind && s.id == PUBLIC_WILDCARD
    case Intermediate(_, UNION, children) => exists i | 0 <= i < |children| :: MayHaveWildcard(children[i], kind)
    case Intermediate(_, INTERSECTION, children) =>
      children != [] && forall i | 0 <= i < |children| :: MayHaveWildcard(children[i], kind)
    case Intermediate(_, EXCLUSION, children) => children != [] && MayHaveWildcard(children[0], kind)
    case Intermediate(_, INVALID, _) => false
  }

  /** If it has one, nothing puts a caveat on it. */
  ghost predicate Plain(t: TreeNode, kind: RelationReference) {
    MayHaveWildcard(t, kind) ==>
      && t.caveat.Always?
      && match t
         case LeafNode(_, subjects) =>
           forall s <- subjects | s.kind == kind && s.id == PUBLIC_WILDCARD :: s.caveat.Always?
         case Intermediate(_, _, children) => forall i | 0 <= i < |children| :: Plain(children[i], kind)
  }

  /** Combining child `i` with those before it is exact: of two wildcards neither is caveated, or, in a
      union, neither excludes anyone, or, in an exclusion, those before are not caveated. */
  ghost predicate JoinsExactly(op: SetOperation, children: seq<TreeNode>, i: nat, kind: RelationReference)
    requires 0 < i < |children|
  {
    match op
    case UNION =>
      || !MayHaveWildcard(children[i], kind) || (forall j | 0 <= j < i :: !MayHaveWildcard(children[j], kind))
      || (forall j | 0 <= j <= i :: Plain(children[j], kind)) || (forall j | 0 <= j <= i :: ExclusionFree(children[j]))
    case EXCLUSION =>
      || !MayHaveWildcard(children[i], kind) || !MayHaveWildcard(children[0], kind)
      || (forall j | 0 <= j < i :: Plain(children[j], kind))
    case _ => true
  }

  /** Everywhere in the tree children are combined exactly. */
  ghost predicate Exact(t: TreeNode, kind: RelationReference) {
    t.Intermediate? ==>
      && (forall i | 0 <= i < |t.children| :: Exact(t.children[i], kind))
      && (forall i | 0 < i < |t.children| :: JoinsExactly(t.op, t.children, i, kind))
  }

  /** Wildcard leaves carry no caveat and lie under no caveated node. */
  ghost predicate PlainWildcards(t: TreeNode) {
    && (t.caveat.When? ==> forall kind :: !MayHaveWildcard(t, kind))
    && match t
       case LeafNode(_, subjects) => forall s <- subjects :: s.id == PUBLIC_WILDCARD ==> s.caveat.Always?
       case Intermediate(_, _, children) => forall i | 0 <= i < |children| :: PlainWildcards(children[i])
  }

  /** Such trees are combined exactly. */
  lemma {:induction false} PlainIsExact(t: TreeNode, kind: RelationReference)
    requires PlainWildcards(t)
    ensures Plain(t, kind) && Exact(t, kind)
  {
    if t.Intermediate? {
      forall i | 0 <= i < |t.children| ensures Plain(t.children[i], kind) && Exact(t.children[i], kind) {
        PlainIsExact(t.children[i], kind);
      }
    }
  }

  type Views = map<RelationReference, SetView>

  ghost function Lookup(views: Views, kind: RelationReference): SetView {
    if kind in views then views[kind] else SetView(map[], None)
  }

  ghost predicate Member(views: Views, a: Assignment, kind: RelationReference, id: string) {
    Lookup(views, kind).Member(a, id)
  }

  ghost predicate Invariants(views: Views) {
    forall kind <- views :: views[kind].Invariant()
  }

  ghost predicate AllUnioned(was: Views, theirs: Views, now: Views) {
    forall kind :: if kind in theirs then Unioned(Lookup(was, kind), theirs[kind], Lookup(now, kind))
        else Lookup(now, kind) == Lookup(was, kind)
  }

  ghost predicate AllIntersected(was: Views, theirs: Views, now: Views) {
    && now.Keys == was.Keys * theirs.Keys
    && forall kind <- now :: Intersected(was[kind], theirs[kind], now[kind])
  }

  ghost predicate AllSubtracted(was: Views, theirs: Views, now: Views) {
    && now.Keys == was.Keys
    && forall kind <- now ::
       if kind in theirs then Subtracted(was[kind], theirs[kind], now[kind]) else now[kind] == was[kind]
  }

  ghost predicate AllConditioned(parent: Condition, was: Views, now: Views) {
    && now.Keys == was.Keys
    && forall kind <- now :: Conditioned(parent, was[kind], now[kind])
  }

  class TrackingSubjectSet {
    /** The subject set of each subject type, kept by its contents. */
    var setByType: Views

    ghost predicate Valid()
      reads this
    {
      Invariants(setByType)
    }

    constructor ()
      ensures Valid() && setByType == map[]
    {
      setByType := map[];
    }

    method GetSetForKey(kind: RelationReference) returns (s: BaseSubjectSet)
      requires Valid()
      ensures fresh(s) && s.View() == Lookup(setByType, kind) && s.Valid()
    {
      if kind in setByType {
        s := new BaseSubjectSet.From(setByType[kind]);
      } else {
        s := new BaseSubjectSet();
      }
    }

    /** Adds one subject to the set for its type. */
    method Add(subject: DirectSubject)
      requires Valid()
      modifies this
      ensures Valid()
      ensures subject.kind in setByType && setByType == old(setByType)[subject.kind := setByType[subject.kind]]
      ensures AddedOne(Lookup(old(setByType), subject.kind), AsSubject(subject), setByType[subject.kind])
    {
      var s := GetSetForKey(subject.kind);
      s.Add(AsSubject(subject));
      setByType := setByType[subject.kind := SetView(s.concrete, s.wildcard)];
    }

    /** Adds the subjects of another set, type by type. */
    method AddFrom(other: TrackingSubjectSet)
      requires Valid() && other.Valid()
      modifies this
      ensures Valid()
      ensures AllUnioned(old(setByType), old(other.setByType), setByType)
    {
      var theirs := other.setByType;
      var todo := theirs.Keys;
      while todo != {}
        invariant Valid() && todo <= theirs.Keys
        invariant forall kind ::
                  if kind in theirs && kind !in todo
                      then Unioned(Lookup(old(setByType), kind), theirs[kind], Lookup(setByType, kind))
                                 else Lookup(setByType, kind) == Lookup(old(setByType), kind)
      {
        var kind :| kind in todo;
        var mine := GetSetForKey(kind);
        var oss := new BaseSubjectSet.From(theirs[kind]);
        mine.UnionWithSet(oss);
        setByType := setByType[kind := SetView(mine.concrete, mine.wildcard)];
        todo := todo - {kind};
      }
    }

    /** A new set with the members of both sets; a type missing from either side is dropped. */
    method Intersect(other: TrackingSubjectSet) returns (newSet: TrackingSubjectSet)
      requires Valid() && other.Valid()
      ensures fresh(newSet) && newSet.Valid()
      ensures AllIntersected(setByType, other.setByType, newSet.setByType)
    {
      var result: Views := map[];
      var todo := setByType.Keys;
      while todo != {}
        invariant todo <= setByType.Keys && result.Keys == (setByType.Keys - todo) * other.setByType.Keys
        invariant forall kind <- result :: Intersected(setByType[kind], other.setByType[kind], result[kind])
      {
        var kind :| kind in todo;
        if kind in other.setByType {
          var cloned := new BaseSubjectSet.From(setByType[kind]);
          var oss := new BaseSubjectSet.From(other.setByType[kind]);
          cloned.IntersectionDifference(oss);
          result := result[kind := SetView(cloned.concrete, cloned.wildcard)];
        }
        todo := todo - {kind};
      }
      newSet := new TrackingSubjectSet();
      newSet.setByType := result;
    }

    /** A new set with the members of this set that are not in the other. */
    method Exclude(other: TrackingSubjectSet) returns (newSet: TrackingSubjectSet)
      requires Valid() && other.Valid()
      ensures fresh(newSet) && newSet.Valid()
      ensures AllSubtracted(setByType, other.setByType, newSet.setByType)
    {
      var result: Views := map[];
      var todo := setByType.Keys;
      while todo != {}
        invariant todo <= setByType.Keys && result.Keys == setByType.Keys - todo
        invariant forall kind <- result ::
                  if kind in other.setByType then Subtracted(setByType[kind], other.setByType[kind], result[kind])
                                           else result[kind] == setByType[kind]
      {
        var kind :| kind in todo;
        var cloned := new BaseSubjectSet.From(setByType[kind]);
        if kind in other.setByType {
          var oss := new BaseSubjectSet.From(other.setByType[kind]);
          cloned.SubtractAll(oss);
        }
        result := result[kind := SetView(cloned.concrete, cloned.wildcard)];
        todo := todo - {kind};
      }
      newSet := new TrackingSubjectSet();
      newSet.setByType := result;
    }

    method ApplyParentCaveatExpression(parent: Condition)
      requires Valid()
      modifies this
      ensures Valid()
      ensures AllConditioned(parent, old(setByType), setByType)
    {
      if parent.Always? {
        return;
      }
      var todo := setByType.Keys;
      while todo != {}
        invariant todo <= setByType.Keys && setByType.Keys == old(setByType).Keys && Valid()
        invariant forall kind <- todo :: setByType[kind] == old(setByType)[kind]
        invariant forall kind <- setByType | kind !in todo :: Conditioned(parent, old(setByType)[kind], setByType[kind])
      {
        var kind :| kind in todo;
        var s := new BaseSubjectSet.From(setByType[kind]);
        var conditioned := s.WithParentCaveatExpression(parent);
        setByType := setByType[kind := SetView(conditioned.concrete, conditioned.wildcard)];
        todo := todo - {kind};
      }
    }
  }

  // ---- How a tree is folded, in terms of what the set operations guarantee.

  ghost predicate AddedTo(was: Views, s: DirectSubject, now: Views) {
    && s.kind in now && now == was[s.kind := now[s.kind]]
    && AddedOne(Lookup(was, s.kind), AsSubject(s), now[s.kind])
  }

  ghost predicate AddsUp(subjects: seq<DirectSubject>, now: Views)
    decreases |subjects|
  {
    if subjects == [] then now == map[]
    else
      var front, last := subjects[..|subjects| - 1], subjects[|subjects| - 1];
      exists was :: AddsUp(front, was) && AddedTo(was, last, now)
  }

  ghost predicate CombinedWith(op: SetOperation, was: Views, theirs: Views, now: Views) {
    && Invariants(now)
    && match op
       case UNION => AllUnioned(was, theirs, now)
       case INTERSECTION => AllIntersected(was, theirs, now)
       case EXCLUSION => AllSubtracted(was, theirs, now)
       case INVALID => false
  }

  /** The sets of the children combined one after another, where intersection and exclusion start from
      the first. */
  ghost predicate Combines(op: SetOperation, kids: seq<Views>, now: Views)
    decreases |kids|
  {
    if kids == [] then now == map[]
    else if |kids| == 1 then CombinedWith(UNION, map[], kids[0], now)
    else
      var front, last := kids[..|kids| - 1], kids[|kids| - 1];
      exists was :: Combines(op, front, was) && CombinedWith(op, was, last, now)
  }

  /** The meaning of every tree as a set: what its subjects or children come to, under its caveat. */
  ghost predicate Folds(t: TreeNode, views: Views)
    decreases t, 1
  {
    exists bare :: Assembles(t, bare) && AllConditioned(t.caveat, bare, views)
  }

  ghost predicate Assembles(t: TreeNode, bare: Views)
    decreases t, 0
  {
    match t
    case LeafNode(_, subjects) => AddsUp(subjects, bare)
    case Intermediate(_, op, children) =>
      exists kids: seq<Views> ::
        && |kids| == |children| && Combines(op, kids, bare)
        && forall i | 0 <= i < |children| :: Folds(children[i], kids[i])
  }

  // ---- What that means for each subject.

  /** What the set of one type guarantees. Where the tree is combined exactly its members are exactly
      those the tree grants; without exclusions nothing the tree grants is missing. */
  ghost predicate FoldedAt(t: TreeNode, kind: RelationReference, v: SetView) {
    && v.Invariant()
    && (v.wildcard.Some? ==> MayHaveWildcard(t, kind))
    && (Plain(t, kind) ==> v.PlainWildcard())
    && (ExclusionFree(t) ==> forall a, id :: !v.WildcardExcludes(a, id))
    && (ExclusionFree(t) ==> forall a, id :: Grants(t, a, kind, id) ==> v.Member(a, id))
    && (Exact(t, kind) ==> forall a, id :: v.Member(a, id) <==> Grants(t, a, kind, id))
  }

  ghost predicate Folded(t: TreeNode, views: Views) {
    forall kind :: FoldedAt(t, kind, Lookup(views, kind))
  }

  lemma FoldLeafStep(subjects: seq<DirectSubject>, s: DirectSubject, was: Views, now: Views)
    requires Folded(LeafNode(Always, subjects), was) && AddedTo(was, s, now)
    ensures Folded(LeafNode(Always, subjects + [s]), now)
  {
    forall kind ensures FoldedAt(LeafNode(Always, subjects + [s]), kind, Lookup(now, kind)) {
      LeafSnoc(subjects, s, kind);
      assert FoldedAt(LeafNode(Always, subjects), kind, Lookup(was, kind));
      if kind == s.kind {
        LeafAt(subjects, s, Lookup(was, kind), Lookup(now, kind));
      }
    }
  }

  lemma LeafSnoc(subjects: seq<DirectSubject>, s: DirectSubject, kind: RelationReference)
    ensures var t, t' := LeafNode(Always, subjects), LeafNode(Always, subjects + [s]);
            && (MayHaveWildcard(t', kind) <==>
                MayHaveWildcard(t, kind) || (s.kind == kind && s.id == PUBLIC_WILDCARD))
            && (Plain(t', kind) <==>
                Plain(t, kind) && (s.kind == kind && s.id == PUBLIC_WILDCARD ==> s.caveat.Always?))
            && forall a, id :: Grants(t', a, kind, id) <==>
                 Grants(t, a, kind, id) || (s.kind == kind && Covers(AsSubject(s), a, id))
  {
    assert forall x :: x in subjects + [s] <==> x in subjects || x == s;
  }

  lemma LeafAt(subjects: seq<DirectSubject>, s: DirectSubject, was: SetView, now: SetView)
    requires FoldedAt(LeafNode(Always, subjects), s.kind, was) && AddedOne(was, AsSubject(s), now)
    ensures FoldedAt(LeafNode(Always, subjects + [s]), s.kind, now)
  {
    LeafSnoc(subjects, s, s.kind);
    forall a, id ensures !Excluded(AsSubject(s).excluded, a, id) {
    }
  }

  /** A set that is missing behaves as an empty one. */
  lemma AllCombined(op: SetOperation, was: Views, theirs: Views, now: Views, kind: RelationReference)
    requires Invariants(was) && Invariants(theirs) && CombinedWith(op, was, theirs, now)
    ensures var v, w, x := Lookup(was, kind), Lookup(theirs, kind), Lookup(now, kind);
            && (op == UNION ==> Unioned(v, w, x)) && (op == INTERSECTION ==> Intersected(v, w, x))
            && (op == EXCLUSION ==> Subtracted(v, w, x))
  {
  }

  /** How meaning and the tree conditions grow with one more child. */
  lemma ChildrenSnoc(op: SetOperation, children: seq<TreeNode>, child: TreeNode, kind: RelationReference)
    requires op != INVALID && children != []
    ensures var t, t' := Intermediate(Always, op, children), Intermediate(Always, op, children + [child]);
            && (MayHaveWildcard(t', kind) <==>
                match op
                case UNION => MayHaveWildcard(t, kind) || MayHaveWildcard(child, kind)
                case INTERSECTION => MayHaveWildcard(t, kind) && MayHaveWildcard(child, kind)
                case _ => MayHaveWildcard(t, kind))
            && (MayHaveWildcard(t', kind) && Plain(t', kind) ==> Plain(t, kind) && Plain(child, kind))
            && (ExclusionFree(t') <==> ExclusionFree(t) && ExclusionFree(child) && op != EXCLUSION)
            && (Exact(t', kind) <==>
                && Exact(t, kind) && Exact(child, kind)
                && JoinsExactly(op, children + [child], |children|, kind))
            && forall a, id :: Grants(t', a, kind, id) <==>
                 match op
                 case UNION => Grants(t, a, kind, id) || Grants(child, a, kind, id)
                 case INTERSECTION => Grants(t, a, kind, id) && Grants(child, a, kind, id)
                 case _ => Grants(t, a, kind, id) && !Grants(child, a, kind, id)
  {
    var all := children + [child];
    assert all[|children|] == child && forall i | 0 <= i < |children| :: all[i] == children[i];
    WildcardSnoc(op, children, child, kind);
    ExactSnoc(op, children, child, kind);
    forall a, id {
      GrantsSnoc(op, children, child, a, kind, id);
    }
  }

  lemma WildcardSnoc(op: SetOperation, children: seq<TreeNode>, child: TreeNode, kind: RelationReference)
    requires op != INVALID && children != []
    ensures MayHaveWildcard(Intermediate(Always, op, children + [child]), kind) <==>
            var t := Intermediate(Always, op, children);
            match op
            case UNION => MayHaveWildcard(t, kind) || MayHaveWildcard(child, kind)
            case INTERSECTION => MayHaveWildcard(t, kind) && MayHaveWildcard(child, kind)
            case _ => MayHaveWildcard(t, kind)
  {
    var all := children + [child];
    assert all[|children|] == child && forall i | 0 <= i < |children| :: all[i] == children[i];
  }

  lemma ExactSnoc(op: SetOperation, children: seq<TreeNode>, child: TreeNode, kind: RelationReference)
    requires children != []
    ensures var t, t' := Intermediate(Always, op, children), Intermediate(Always, op, children + [child]);
            Exact(t', kind) <==>
              && Exact(t, kind) && Exact(child, kind)
              && JoinsExactly(op, children + [child], |children|, kind)
  {
    var all := children + [child];
    assert all[|children|] == child && forall i | 0 <= i < |children| :: all[i] == children[i];
    assert forall i | 0 < i < |children| ::
        JoinsExactly(op, all, i, kind) <==> JoinsExactly(op, children, i, kind);
  }

  lemma GrantsSnoc(op: SetOperation, children: seq<TreeNode>, child: TreeNode, a: Assignment, kind: RelationReference,
                   id: string)
    requires op != INVALID && children != []
    ensures Grants(Intermediate(Always, op, children + [child]), a, kind, id) <==>
            var t := Intermediate(Always, op, children);
            match op
            case UNION => Grants(t, a, kind, id) || Grants(child, a, kind, id)
            case INTERSECTION => Grants(t, a, kind, id) && Grants(child, a, kind, id)
            case _ => Grants(t, a, kind, id) && !Grants(child, a, kind, id)
  {
    var all := children + [child];
    assert all[|children|] == child && forall i | 0 <= i < |children| :: all[i] == children[i];
  }

  lemma FoldFirstStep(op: SetOperation, child: TreeNode, kind: RelationReference, theirs: SetView, now: SetView)
    requires op != INVALID && FoldedAt(child, kind, theirs) && Unioned(SetView(map[], None), theirs, now)
    ensures FoldedAt(Intermediate(Always, op, [child]), kind, now)
  {
    var t := Intermediate(Always, op, [child]);
    assert t.children[0] == child;
    assert MayHaveWildcard(t, kind) <==> MayHaveWildcard(t.children[0], kind);
    assert forall a, id :: Grants(t, a, kind, id) <==> Grants(t.children[0], a, kind, id);
  }

  lemma FoldUnionStep(children: seq<TreeNode>, child: TreeNode, kind: RelationReference, was: SetView, theirs: SetView,
                      now: SetView)
    requires children != [] && FoldedAt(Intermediate(Always, UNION, children), kind, was)
    requires FoldedAt(child, kind, theirs) && Unioned(was, theirs, now)
    ensures FoldedAt(Intermediate(Always, UNION, children + [child]), kind, now)
  {
    ChildrenSnoc(UNION, children, child, kind);
    if Exact(Intermediate(Always, UNION, children + [child]), kind) {
      NoOvershoot(children, child, kind, was, theirs);
    }
  }

  lemma NoOvershoot(children: seq<TreeNode>, child: TreeNode, kind: RelationReference, was: SetView, theirs: SetView)
    requires children != [] && FoldedAt(Intermediate(Always, UNION, children), kind, was)
    requires FoldedAt(child, kind, theirs) && JoinsExactly(UNION, children + [child], |children|, kind)
    ensures theirs.wildcard.Some? ==> forall a, id :: !UnionOvershoots(was, theirs.wildcard.value, a, id)
  {
    var t, all := Intermediate(Always, UNION, children), children + [child];
    assert all[|children|] == child && forall j | 0 <= j < |children| :: all[j] == children[j];
    if forall j | 0 <= j <= |children| :: ExclusionFree(all[j]) {
      assert ExclusionFree(t) && ExclusionFree(child);
      forall a, id ensures theirs.wildcard.Some? ==> !UnionOvershoots(was, theirs.wildcard.value, a, id) {
        assert !was.WildcardExcludes(a, id) && !theirs.WildcardExcludes(a, id);
      }
    } else if forall j | 0 <= j <= |children| :: Plain(all[j], kind) {
      assert Plain(t, kind) && Plain(child, kind);
    } else if theirs.wildcard.Some? {
      assert !MayHaveWildcard(t, kind);
    }
  }

  lemma FoldIntersectionStep(children: seq<TreeNode>, child: TreeNode, kind: RelationReference, was: SetView,
                             theirs: SetView, now: SetView)
    requires children != [] && FoldedAt(Intermediate(Always, INTERSECTION, children), kind, was)
    requires FoldedAt(child, kind, theirs) && Intersected(was, theirs, now)
    ensures FoldedAt(Intermediate(Always, INTERSECTION, children + [child]), kind, now)
  {
    ChildrenSnoc(INTERSECTION, children, child, kind);
  }

  lemma FoldExclusionStep(children: seq<TreeNode>, child: TreeNode, kind: RelationReference, was: SetView,
                          theirs: SetView, now: SetView)
    requires children != [] && FoldedAt(Intermediate(Always, EXCLUSION, children), kind, was)
    requires FoldedAt(child, kind, theirs) && Subtracted(was, theirs, now)
    ensures FoldedAt(Intermediate(Always, EXCLUSION, children + [child]), kind, now)
  {
    ChildrenSnoc(EXCLUSION, children, child, kind);
    if Exact(Intermediate(Always, EXCLUSION, children + [child]), kind) {
      assert was.PlainWildcard() || theirs.wildcard.None? by {
        SubtractsPlain(children, child, kind, was, theirs);
      }
      forall a, id ensures now.Member(a, id) <==> was.Member(a, id) && !theirs.Member(a, id) {
        DifferenceExactExactlyWhen(was, theirs, now, a, id);
      }
    }
  }

  lemma SubtractsPlain(children: seq<TreeNode>, child: TreeNode, kind: RelationReference, was: SetView, theirs: SetView)
    requires children != [] && FoldedAt(Intermediate(Always, EXCLUSION, children), kind, was)
    requires FoldedAt(child, kind, theirs) && JoinsExactly(EXCLUSION, children + [child], |children|, kind)
    ensures was.PlainWildcard() || theirs.wildcard.None?
  {
    var all := children + [child];
    assert all[|children|] == child && forall j | 0 <= j < |children| :: all[j] == children[j];
  }

  /** Putting the node's own caveat on the folded children. */
  lemma FoldParentStep(t: TreeNode, kind: RelationReference, was: SetView, now: SetView)
    requires FoldedAt(t.(caveat := Always), kind, was) && Conditioned(t.caveat, was, now)
    ensures FoldedAt(t, kind, now)
  {
    var bare := t.(caveat := Always);
    assert forall a, id :: Grants(t, a, kind, id) <==> Holds(t.caveat, a) && Grants(bare, a, kind, id);
    assert Plain(t, kind) ==> Plain(bare, kind);
  }

  lemma ConditionedAt(parent: Condition, was: Views, now: Views, kind: RelationReference)
    requires AllConditioned(parent, was, now)
    ensures Conditioned(parent, Lookup(was, kind), Lookup(now, kind))
  {
  }

  lemma {:induction false} AddsUpMeans(subjects: seq<DirectSubject>, now: Views)
    requires AddsUp(subjects, now)
    ensures Folded(LeafNode(Always, subjects), now)
    decreases |subjects|
  {
    if subjects == [] {
      NoSubjects();
    } else {
      var front, s := subjects[..|subjects| - 1], subjects[|subjects| - 1];
      var was :| AddsUp(front, was) && AddedTo(was, s, now);
      AddsUpMeans(front, was);
      FoldLeafStep(front, s, was, now);
      assert subjects == front + [s];
      assert LeafNode(Always, subjects) == LeafNode(Always, front + [s]);
    }
  }

  lemma NoSubjects()
    ensures Folded(LeafNode(Always, []), map[])
  {
  }

  ghost predicate AllFold(children: seq<TreeNode>, kids: seq<Views>) {
    |kids| == |children| && forall i | 0 <= i < |children| :: Folded(children[i], kids[i])
  }

  lemma FoldedInvariants(t: TreeNode, views: Views)
    requires Folded(t, views)
    ensures Invariants(views)
  {
    forall kind <- views ensures views[kind].Invariant() {
      assert FoldedAt(t, kind, Lookup(views, kind));
    }
  }

  lemma CombineStep(op: SetOperation, children: seq<TreeNode>, child: TreeNode, was: Views, theirs: Views, now: Views)
    requires op != INVALID && children != [] && Folded(Intermediate(Always, op, children), was) && Folded(child, theirs)
    requires CombinedWith(op, was, theirs, now)
    ensures Folded(Intermediate(Always, op, children + [child]), now)
  {
    FoldedInvariants(Intermediate(Always, op, children), was);
    FoldedInvariants(child, theirs);
    forall kind ensures FoldedAt(Intermediate(Always, op, children + [child]), kind, Lookup(now, kind)) {
      AllCombined(op, was, theirs, now, kind);
      var v, w, x := Lookup(was, kind), Lookup(theirs, kind), Lookup(now, kind);
      match op
      case UNION => FoldUnionStep(children, child, kind, v, w, x);
      case INTERSECTION => FoldIntersectionStep(children, child, kind, v, w, x);
      case EXCLUSION => FoldExclusionStep(children, child, kind, v, w, x);
    }
  }

  lemma {:induction false} CombinesMeans(op: SetOperation, children: seq<TreeNode>, kids: seq<Views>, now: Views)
    requires op != INVALID && AllFold(children, kids) && Combines(op, kids, now)
    ensures Folded(Intermediate(Always, op, children), now)
    decreases |kids|
  {
    if |kids| == 1 {
      FoldedInvariants(children[0], kids[0]);
      forall kind ensures FoldedAt(Intermediate(Always, op, children), kind, Lookup(now, kind)) {
        AllCombined(UNION, map[], kids[0], now, kind);
        assert children == [children[0]];
        FoldFirstStep(op, children[0], kind, Lookup(kids[0], kind), Lookup(now, kind));
      }
    } else if |kids| > 1 {
      var n := |kids| - 1;
      var was :| Combines(op, kids[..n], was) && CombinedWith(op, was, kids[n], now);
      CombinesMeans(op, children[..n], kids[..n], was);
      CombineStep(op, children[..n], children[n], was, kids[n], now);
      assert children == children[..n] + [children[n]];
    }
  }

  lemma {:induction false} AssemblesMeans(t: TreeNode, bare: Views)
    requires Foldable(t) && Assembles(t, bare)
    ensures Folded(t.(caveat := Always), bare)
    decreases t, 0
  {
    match t
    case LeafNode(_, subjects) => AddsUpMeans(subjects, bare);
    case Intermediate(_, op, children) =>
      var kids: seq<Views> :| |kids| == |children| && Combines(op, kids, bare) &&
        forall i | 0 <= i < |children| :: Folds(children[i], kids[i]);
      forall i | 0 <= i < |children| ensures Folded(children[i], kids[i]) {
        FoldsMeans(children[i], kids[i]);
      }
      CombinesMeans(op, children, kids, bare);
  }

  /** However a tree is folded, each subject is a member under the assignments under which the tree
      grants it, as far as `FoldedAt` says. */
  lemma {:induction false} FoldsMeans(t: TreeNode, views: Views)
    requires Foldable(t) && Folds(t, views)
    ensures Folded(t, views)
    decreases t, 1
  {
    var bare :| Assembles(t, bare) && AllConditioned(t.caveat, bare, views);
    AssemblesMeans(t, bare);
    forall kind ensures FoldedAt(t, kind, Lookup(views, kind)) {
      assert FoldedAt(t.(caveat := Always), kind, Lookup(bare, kind));
      ConditionedAt(t.caveat, bare, views, kind);
      FoldParentStep(t, kind, Lookup(bare, kind), Lookup(views, kind));
    }
  }

  /** The set of subjects an expansion tree gives access to. */
  method PopulateFoundSubjects(t: TreeNode) returns (r: Result<TrackingSubjectSet>)
    ensures r.Err? <==> !Foldable(t)
    ensures r.Ok? ==> fresh(r.value) && r.value.Valid() && Folds(t, r.value.setByType) && Folded(t, r.value.setByType)
    decreases t, 2
  {
    var found: TrackingSubjectSet;
    ghost var bare: Views;
    match t {
      case LeafNode(_, subjects) =>
        found := PopulateLeaf(subjects);
        bare := found.setByType;
      case Intermediate(_, op, children) =>
        if op == INVALID || (op == EXCLUSION && children == []) {
          return Err;
        }
        if op == INTERSECTION && children == [] {
          found := new TrackingSubjectSet();
          bare := found.setByType;
          assert Combines(op, [], bare);
        } else {
          var folded, kids := PopulateChildren(t);
          if folded.Err? {
            return Err;
          }
          found := folded.value;
          bare := found.setByType;
        }
    }
    assert Assembles(t, bare);
    found.ApplyParentCaveatExpression(t.caveat);
    assert Folds(t, found.setByType);
    FoldsMeans(t, found.setByType);
    return Ok(found);
  }

  /** The sets of the first `n` children, and what they come to when they are combined. */
  ghost predicate FoldedUpTo(op: SetOperation, children: seq<TreeNode>, n: nat, kids: seq<Views>, views: Views)
    requires n <= |children|
  {
    |kids| == n && Combines(op, kids, views) && forall i | 0 <= i < n :: Folds(children[i], kids[i])
  }

  /** The children one after another. Intersection and exclusion start from the first child. */
  method PopulateChildren(t: TreeNode) returns (r: Result<TrackingSubjectSet>, ghost kids: seq<Views>)
    requires t.Intermediate? && t.op != INVALID
    ensures r.Ok? <==> forall i | 0 <= i < |t.children| :: Foldable(t.children[i])
    ensures r.Ok? ==> fresh(r.value) && r.value.Valid()
    ensures r.Ok? ==> FoldedUpTo(t.op, t.children, |t.children|, kids, r.value.setByType)
    decreases t, 1
  {
    var found := new TrackingSubjectSet();
    kids := [];
    for n := 0 to |t.children|
      invariant forall i | 0 <= i < n :: Foldable(t.children[i])
      invariant fresh(found) && found.Valid() && FoldedUpTo(t.op, t.children, n, kids, found.setByType)
    {
      var combined;
      combined, kids := PopulateChild(t, n, found, kids);
      if combined.Err? {
        return Err, [];
      }
      found := combined.value;
    }
    return Ok(found), kids;
  }

  method PopulateChild(t: TreeNode, n: nat, found: TrackingSubjectSet, ghost kids: seq<Views>)
    returns (r: Result<TrackingSubjectSet>, ghost more: seq<Views>)
    requires t.Intermediate? && t.op != INVALID && n < |t.children|
    requires found.Valid() && FoldedUpTo(t.op, t.children, n, kids, found.setByType)
    modifies found
    ensures r.Ok? <==> Foldable(t.children[n])
    ensures r.Ok? ==> (r.value == found || fresh(r.value)) && r.value.Valid()
    ensures r.Ok? ==> FoldedUpTo(t.op, t.children, n + 1, more, r.value.setByType)
    decreases t, 0
  {
    var child := PopulateFoundSubjects(t.children[n]);
    if child.Err? {
      return Err, [];
    }
    ghost var was, theirs := found.setByType, child.value.setByType;
    var combined := CombineChild(if n == 0 then UNION else t.op, found, child.value);
    CombineOneMore(t.op, kids, was, theirs, combined.setByType);
    return Ok(combined), kids + [theirs];
  }

  method CombineChild(op: SetOperation, found: TrackingSubjectSet, child: TrackingSubjectSet)
    returns (combined: TrackingSubjectSet)
    requires found.Valid() && child.Valid() && op != INVALID && child != found
    modifies found
    ensures combined == found || fresh(combined)
    ensures combined.Valid() && CombinedWith(op, old(found.setByType), child.setByType, combined.setByType)
  {
    match op
    case UNION =>
      found.AddFrom(child);
      combined := found;
    case INTERSECTION =>
      combined := found.Intersect(child);
    case EXCLUSION =>
      combined := found.Exclude(child);
  }

  lemma CombineOneMore(op: SetOperation, kids: seq<Views>, was: Views, theirs: Views, now: Views)
    requires op != INVALID && Combines(op, kids, was)
    requires CombinedWith(if kids == [] then UNION else op, was, theirs, now)
    ensures Combines(op, kids + [theirs], now)
  {
    var more := kids + [theirs];
    assert more[..|more| - 1] == kids && more[|more| - 1] == theirs;
  }

  method PopulateLeaf(subjects: seq<DirectSubject>) returns (found: TrackingSubjectSet)
    ensures fresh(found) && found.Valid() && AddsUp(subjects, found.setByType)
  {
    found := new TrackingSubjectSet();
    for i := 0 to |subjects|
      invariant fresh(found) && found.Valid() && AddsUp(subjects[..i], found.setByType)
    {
      ghost var was := found.setByType;
      found.Add(subjects[i]);
      assert subjects[..i + 1][..i] == subjects[..i] && subjects[..i + 1][i] == subjects[i];
      assert AddsUp(subjects[..i], was) && AddedTo(was, subjects[i], found.setByType);
    }
    assert subjects[..|subjects|] == subjects;
  }
}
