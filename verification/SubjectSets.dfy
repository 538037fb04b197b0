/** The set of subjects found for a resource: concrete subjects, an optional wildcard with
    exclusions, and a condition on each of them. Sets are changed in place.

    A set denotes, under each assignment and for each subject id, a truth value: the concrete
    entry holds, or the wildcard holds and does not exclude the id. Intersection is exactly
    conjunction of these values. Union and subtraction are disjunction and difference except
    at the points named by `UnionOvershoots`, `SubtractDrops` and `SubtractLeaves`, which all
    need a caveated wildcard. */
module SubjectSets {
  import opened Common
  import opened Caveats
  import opened Tuples
  import opened Subjects

  /** The map has an entry for the id whose condition holds. */
  ghost predicate Listed(subjects: map<string, Subject>, a: Assignment, id: string) {
    id in subjects && Holds(subjects[id].caveat, a)
  }

  ghost predicate ConcreteMap(subjects: map<string, Subject>) {
    forall id <- subjects :: subjects[id].id == id && Concrete(subjects[id])
  }

  datatype SetView = SetView(concrete: map<string, Subject>, wildcard: Option<Subject>)
  {
    ghost predicate ConcreteHolds(a: Assignment, id: string) {
      Listed(concrete, a, id)
    }

    ghost predicate WildcardHolds(a: Assignment) {
      wildcard.Some? && Holds(wildcard.value.caveat, a)
    }

    ghost predicate WildcardExcludes(a: Assignment, id: string) {
      wildcard.Some? && Excluded(wildcard.value.excluded, a, id)
    }

    /** The denotation of the set. */
    ghost predicate Member(a: Assignment, id: string) {
      ConcreteHolds(a, id) || (WildcardHolds(a) && !WildcardExcludes(a, id))
    }

    ghost predicate Shape() {
      && ConcreteMap(concrete)
      && (wildcard.Some? ==> WildcardShape(wildcard.value))
    }

    /** Under every assignment, a true concrete member is not excluded by the wildcard. */
    ghost predicate Separated() {
      forall a: Assignment, id: string :: ConcreteHolds(a, id) ==> !WildcardExcludes(a, id)
    }

    ghost predicate Invariant() {
      Shape() && Separated()
    }

    /** No wildcard, or one that carries no caveat. */
    ghost predicate PlainWildcard() {
      wildcard.Some? ==> wildcard.value.caveat.Always?
    }
  }

  /** Exactly one of the two wildcards applies and it excludes the id, while the other neither
      applies nor excludes it: merging exclusions by intersection lets the id through. */
  ghost predicate UnionOvershoots(s: SetView, x: Subject, a: Assignment, id: string) {
    && x.id == PUBLIC_WILDCARD && s.wildcard.Some?
    && var e := Excluded(x.excluded, a, id);
       || (s.WildcardHolds(a) && s.WildcardExcludes(a, id) && !Holds(x.caveat, a) && !e)
       || (Holds(x.caveat, a) && e && !s.WildcardHolds(a) && !s.WildcardExcludes(a, id))
  }

  /** A concrete kept by the subtraction is overwritten by the one made from the exclusion,
      which is conditional on the set's own (false) wildcard. */
  ghost predicate SubtractDrops(s: SetView, x: Subject, a: Assignment, id: string) {
    && x.id == PUBLIC_WILDCARD && s.wildcard.Some? && id in Ids(x.excluded)
    && s.ConcreteHolds(a, id) && !s.WildcardHolds(a) && !Covers(x, a, id)
  }

  /** An unconditional wildcard with exclusions leaves a caveated wildcard in place. */
  ghost predicate SubtractLeaves(s: SetView, x: Subject, a: Assignment, id: string) {
    && x.id == PUBLIC_WILDCARD && x.caveat.Always? && x.excluded != []
    && s.wildcard.Some? && s.wildcard.value.caveat.When?
    && s.WildcardHolds(a) && !s.WildcardExcludes(a, id) && Covers(x, a, id)
  }

  /** Membership after adding one subject. */
  ghost predicate AfterAdd(s: SetView, x: Subject, a: Assignment, id: string) {
    s.Member(a, id) || Covers(x, a, id) || UnionOvershoots(s, x, a, id)
  }

  /** Membership after subtracting one subject. */
  ghost predicate AfterSubtract(s: SetView, x: Subject, a: Assignment, id: string) {
    || (s.Member(a, id) && !Covers(x, a, id) && !SubtractDrops(s, x, a, id))
    || SubtractLeaves(s, x, a, id)
  }

  /** What `now` may be after the union of two sets. */
  ghost predicate Unioned(was: SetView, theirs: SetView, now: SetView) {
    && now.Invariant()
    && (now.wildcard.Some? <==> was.wildcard.Some? || theirs.wildcard.Some?)
    && (was.PlainWildcard() && theirs.PlainWildcard() ==> now.PlainWildcard())
    && (forall a, id :: now.WildcardExcludes(a, id) ==> was.WildcardExcludes(a, id) || theirs.WildcardExcludes(a, id))
    && forall a, id :: now.Member(a, id) <==>
         || was.Member(a, id) || theirs.Member(a, id)
         || (theirs.wildcard.Some? && UnionOvershoots(was, theirs.wildcard.value, a, id))
  }

  /** What `now` may be after the intersection of two sets. */
  ghost predicate Intersected(was: SetView, theirs: SetView, now: SetView) {
    && now.Invariant()
    && (now.wildcard.Some? <==> was.wildcard.Some? && theirs.wildcard.Some?)
    && (now.wildcard.Some? ==>
        now.wildcard.value.caveat == And(was.wildcard.value.caveat, theirs.wildcard.value.caveat))
    && (forall a, id :: now.WildcardExcludes(a, id) ==> was.WildcardExcludes(a, id) || theirs.WildcardExcludes(a, id))
    && forall a, id :: now.Member(a, id) <==> was.Member(a, id) && theirs.Member(a, id)
  }

  /** What `now` may be after the difference of two sets. */
  ghost predicate Subtracted(was: SetView, theirs: SetView, now: SetView) {
    && now.Invariant()
    && (now.wildcard.Some? ==> was.wildcard.Some?)
    && (was.PlainWildcard() && theirs.PlainWildcard() ==> now.PlainWildcard())
    && forall a, id :: now.Member(a, id) <==>
         || (&& was.Member(a, id) && !theirs.Member(a, id)
             && !(theirs.wildcard.Some? && SubtractDrops(was, theirs.wildcard.value, a, id)))
         || (&& theirs.wildcard.Some? && SubtractLeaves(was, theirs.wildcard.value, a, id)
             && !theirs.ConcreteHolds(a, id))
  }

  /** What `now` may be after one subject is added. */
  ghost predicate AddedOne(was: SetView, x: Subject, now: SetView) {
    && now.Invariant()
    && (now.wildcard.Some? <==> was.wildcard.Some? || x.id == PUBLIC_WILDCARD)
    && (was.PlainWildcard() && (x.id == PUBLIC_WILDCARD ==> x.caveat.Always?) ==> now.PlainWildcard())
    && (x.id != PUBLIC_WILDCARD ==> MoreConcretes(was, [x], now))
    && (forall a, id :: now.WildcardExcludes(a, id) ==> was.WildcardExcludes(a, id) || Excluded(x.excluded, a, id))
    && forall a, id :: now.Member(a, id) <==> AfterAdd(was, x, a, id)
  }

  /** `now` is `was` after the listed concretes have been added to it. */
  ghost predicate MoreConcretes(was: SetView, concretes: seq<Subject>, now: SetView) {
    && (now.wildcard.Some? <==> was.wildcard.Some?)
    && (now.wildcard.Some? ==> now.wildcard.value.caveat == was.wildcard.value.caveat)
    && (forall a, id :: now.ConcreteHolds(a, id) <==> was.ConcreteHolds(a, id) || Excluded(concretes, a, id))
    && (forall a, id :: now.WildcardExcludes(a, id) <==> was.WildcardExcludes(a, id) && !Excluded(concretes, a, id))
  }

  lemma MoreConcreteIsUnion(was: SetView, x: Subject, now: SetView)
    requires was.Invariant() && now.Shape() && Concrete(x)
    requires now.wildcard.Some? <==> was.wildcard.Some?
    requires now.wildcard.Some? ==> now.wildcard.value.caveat == was.wildcard.value.caveat
    requires forall a, id :: now.ConcreteHolds(a, id) <==> was.ConcreteHolds(a, id) || Covers(x, a, id)
    requires forall a, id :: now.WildcardExcludes(a, id) <==> was.WildcardExcludes(a, id) && !Covers(x, a, id)
    ensures AddedOne(was, x, now)
  {
  }

  lemma MoreConcretesSnoc(was: SetView, concretes: seq<Subject>, mid: SetView, x: Subject, now: SetView)
    requires MoreConcretes(was, concretes, mid) && MoreConcretes(mid, [x], now)
    ensures MoreConcretes(was, concretes + [x], now)
  {
  }

  /** The state of `now` after the first `i` subjects of a slice were added. */
  ghost predicate UnionProgress(was: SetView, subjects: seq<Subject>, i: nat, now: SetView)
    requires i <= |subjects|
  {
    var concretes := SliceConcretes(subjects);
    if i <= |concretes| then
      MoreConcretes(was, concretes[..i], now)
    else
      var x := SliceWildcard(subjects).value;
      && now.wildcard.Some?
      && (was.PlainWildcard() && x.caveat.Always? ==> now.PlainWildcard())
      && (forall a, id :: now.WildcardExcludes(a, id) ==> was.WildcardExcludes(a, id) || Excluded(x.excluded, a, id))
      && forall a, id :: now.Member(a, id) <==>
           was.Member(a, id) || Excluded(concretes, a, id) || Covers(x, a, id) || UnionOvershoots(was, x, a, id)
  }

  lemma UnionProgressStep(was: SetView, subjects: seq<Subject>, i: nat, before: SetView, now: SetView)
    requires was.Invariant() && before.Invariant() && SliceShape(subjects) && i < |subjects|
    requires UnionProgress(was, subjects, i, before)
    requires AddedOne(before, subjects[i], now)
    ensures UnionProgress(was, subjects, i + 1, now)
  {
    var concretes := SliceConcretes(subjects);
    if i < |concretes| {
      assert concretes[..i + 1] == concretes[..i] + [concretes[i]];
      MoreConcretesSnoc(was, concretes[..i], before, concretes[i], now);
    } else {
      assert concretes[..i] == concretes;
      assert forall a :: before.WildcardHolds(a) <==> was.WildcardHolds(a);
    }
  }

  lemma UnionProgressDone(was: SetView, theirs: SetView, subjects: seq<Subject>, now: SetView)
    requires was.Invariant() && theirs.Invariant() && now.Invariant() && SliceOf(subjects, theirs)
    requires UnionProgress(was, subjects, |subjects|, now)
    ensures Unioned(was, theirs, now)
  {
  }

  /** What `now` may be after one subject is subtracted. */
  ghost predicate SubtractedOne(was: SetView, x: Subject, now: SetView) {
    && now.Invariant()
    && (now.wildcard.Some? ==> was.wildcard.Some?)
    && (x.id != PUBLIC_WILDCARD ==> LessConcretes(was, [x], now))
    && (x.id == PUBLIC_WILDCARD && x.caveat.Always? && was.PlainWildcard() ==> now.wildcard.None?)
    && forall a, id :: now.Member(a, id) <==> AfterSubtract(was, x, a, id)
  }

  /** The state of `now` after the first `i` subjects of the other set's slice were subtracted. */
  ghost predicate SubtractProgress(was: SetView, theirs: SetView, subjects: seq<Subject>, i: nat, now: SetView)
    requires i <= |subjects|
  {
    var concretes := SliceConcretes(subjects);
    if i <= |concretes| then LessConcretes(was, concretes[..i], now) else Subtracted(was, theirs, now)
  }

  ghost predicate SliceOf(subjects: seq<Subject>, s: SetView) {
    && SliceShape(subjects) && DistinctIds(subjects)
    && SliceWildcard(subjects) == s.wildcard
    && Ids(SliceConcretes(subjects)) == s.concrete.Keys
    && (forall x <- SliceConcretes(subjects) :: x.id in s.concrete && s.concrete[x.id] == x)
    && (forall a, id :: Excluded(SliceConcretes(subjects), a, id) <==> s.ConcreteHolds(a, id))
  }

  lemma SubtractProgressStep(was: SetView, theirs: SetView, subjects: seq<Subject>, i: nat, before: SetView,
                             now: SetView)
    requires was.Invariant() && before.Invariant() && theirs.Invariant() && SliceOf(subjects, theirs) && i < |subjects|
    requires SubtractProgress(was, theirs, subjects, i, before)
    requires SubtractedOne(before, subjects[i], now)
    ensures SubtractProgress(was, theirs, subjects, i + 1, now)
  {
    var concretes := SliceConcretes(subjects);
    if i < |concretes| {
      assert concretes[..i + 1] == concretes[..i] + [concretes[i]];
      LessConcretesSnoc(was, concretes[..i], before, concretes[i], now);
    } else {
      assert concretes[..i] == concretes;
      LessWildcard(was, theirs, concretes, before, now);
    }
  }

  /** What `now` may be after a parent's condition is put on every member. */
  ghost predicate Conditioned(parent: Condition, was: SetView, now: SetView) {
    && now.Invariant()
    && (now.wildcard.Some? <==> was.wildcard.Some?)
    && (now.wildcard.Some? ==> now.wildcard.value.caveat == And(parent, was.wildcard.value.caveat))
    && (forall a, id :: now.WildcardExcludes(a, id) ==> was.WildcardExcludes(a, id))
    && forall a, id :: now.Member(a, id) <==> Holds(parent, a) && was.Member(a, id)
  }

  /** On sets whose wildcards carry no caveat the three operations are exactly or, and, and-not,
      and their results are such sets again. */
  lemma PlainSetsHomomorphism(was: SetView, theirs: SetView, now: SetView)
    requires was.Invariant() && theirs.Invariant() && was.PlainWildcard() && theirs.PlainWildcard()
    ensures Unioned(was, theirs, now) ==>
              now.PlainWildcard() && forall a, id :: now.Member(a, id) <==> was.Member(a, id) || theirs.Member(a, id)
    ensures Intersected(was, theirs, now) ==>
              now.PlainWildcard() && forall a, id :: now.Member(a, id) <==> was.Member(a, id) && theirs.Member(a, id)
    ensures Subtracted(was, theirs, now) ==>
              now.PlainWildcard() && forall a, id :: now.Member(a, id) <==> was.Member(a, id) && !theirs.Member(a, id)
  {
  }

  /** Each listed subject replaces the entry for its id. */
  ghost predicate Overwritten(was: map<string, Subject>, subjects: seq<Subject>, now: map<string, Subject>) {
    && (forall s <- subjects :: s.id in now && now[s.id] == s)
    && (forall id | id !in Ids(subjects) :: id in now <==> id in was)
    && (forall id | id !in Ids(subjects) && id in was :: now[id] == was[id])
  }

  /** One point of a wildcard subtraction: concretes reduced, wildcard reduced, exclusions of
      the subtrahend written over the concretes. */
  lemma SubtractWildcardAt(was: SetView, x: Subject, mid: SetView, concretes: seq<Subject>, now: SetView,
                           a: Assignment, id: string)
    requires was.Invariant() && WildcardShape(x)
    requires mid.wildcard == was.wildcard
    requires mid.ConcreteHolds(a, id) <==> was.ConcreteHolds(a, id) && !Covers(x, a, id)
    requires was.wildcard.None? ==> now.wildcard.None? && concretes == []
    requires was.wildcard.Some? ==> FromExclusions(was.wildcard.value, x, x.excluded, concretes)
    requires now.wildcard.Some? ==> now.wildcard.value.excluded == was.wildcard.value.excluded
    requires was.wildcard.Some? ==> (now.WildcardHolds(a) <==>
               Holds(was.wildcard.value.caveat, a) &&
               (Holds(x.caveat, a) ==> was.wildcard.value.caveat.When? && x.caveat.Always? && x.excluded != []))
    requires Overwritten(mid.concrete, concretes, now.concrete)
    ensures now.ConcreteHolds(a, id) ==> !now.WildcardExcludes(a, id)
    ensures now.Member(a, id) <==> AfterSubtract(was, x, a, id)
  {
  }

  /** `now` is `was` after the listed concretes have been subtracted from it. */
  ghost predicate LessConcretes(was: SetView, concretes: seq<Subject>, now: SetView) {
    && (now.wildcard.Some? <==> was.wildcard.Some?)
    && (now.wildcard.Some? ==> now.wildcard.value.caveat == was.wildcard.value.caveat)
    && (forall a, id :: now.ConcreteHolds(a, id) <==> was.ConcreteHolds(a, id) && !Excluded(concretes, a, id))
    && (forall a, id :: now.WildcardExcludes(a, id) <==>
          was.WildcardExcludes(a, id) || (now.wildcard.Some? && Excluded(concretes, a, id)))
  }

  lemma LessConcretesSnoc(was: SetView, concretes: seq<Subject>, mid: SetView, x: Subject, now: SetView)
    requires LessConcretes(was, concretes, mid) && LessConcretes(mid, [x], now)
    ensures LessConcretes(was, concretes + [x], now)
  {
  }

  lemma LessConcreteIsDifference(was: SetView, x: Subject, now: SetView)
    requires was.Invariant() && now.Shape() && Concrete(x)
    requires now.wildcard.Some? <==> was.wildcard.Some?
    requires now.wildcard.Some? ==> now.wildcard.value.caveat == was.wildcard.value.caveat
    requires forall a, id :: now.ConcreteHolds(a, id) <==> was.ConcreteHolds(a, id) && !Covers(x, a, id)
    requires forall a, id :: now.WildcardExcludes(a, id) <==>
               was.WildcardExcludes(a, id) || (now.wildcard.Some? && Covers(x, a, id))
    ensures SubtractedOne(was, x, now)
  {
  }

  /** Subtracting the concretes of a set and then its wildcard subtracts the set. */
  lemma LessWildcard(was: SetView, theirs: SetView, concretes: seq<Subject>, mid: SetView, now: SetView)
    requires was.Invariant() && mid.Invariant() && now.Invariant() && theirs.Shape() && theirs.wildcard.Some?
    requires forall a, id :: Excluded(concretes, a, id) <==> theirs.ConcreteHolds(a, id)
    requires LessConcretes(was, concretes, mid)
    requires now.wildcard.Some? ==> mid.wildcard.Some?
    requires theirs.wildcard.value.caveat.Always? && mid.PlainWildcard() ==> now.wildcard.None?
    requires forall a, id :: now.Member(a, id) <==> AfterSubtract(mid, theirs.wildcard.value, a, id)
    ensures Subtracted(was, theirs, now)
  {
  }

  /** A list of subjects as `AsSlice` produces it: concretes, then at most one wildcard. */
  ghost predicate SliceShape(subjects: seq<Subject>) {
    && (forall i | 0 <= i < |subjects| - 1 :: Concrete(subjects[i]))
    && (subjects != [] ==> Wellformed(subjects[|subjects| - 1]))
  }

  ghost function SliceConcretes(subjects: seq<Subject>): seq<Subject> {
    if subjects != [] && subjects[|subjects| - 1].id == PUBLIC_WILDCARD then subjects[..|subjects| - 1] else subjects
  }

  ghost function SliceWildcard(subjects: seq<Subject>): Option<Subject> {
    if subjects != [] && subjects[|subjects| - 1].id == PUBLIC_WILDCARD then Some(subjects[|subjects| - 1]) else None
  }

  class BaseSubjectSet {
    var concrete: map<string, Subject>
    var wildcard: Option<Subject>

    ghost function View(): SetView
      reads this
    {
      SetView(concrete, wildcard)
    }

    ghost predicate Valid()
      reads this
    {
      View().Invariant()
    }

    constructor ()
      ensures Valid()
      ensures concrete == map[] && wildcard == None
    {
      concrete := map[];
      wildcard := None;
    }

    /** A set with the given contents. */
    constructor From(v: SetView)
      requires v.Invariant()
      ensures View() == v
    {
      concrete := v.concrete;
      wildcard := v.wildcard;
    }

    /** Union with a single subject. */
    method Add(found: Subject)
      requires Valid() && Wellformed(found)
      modifies this
      ensures AddedOne(old(View()), found, View())
      decreases if found.id == PUBLIC_WILDCARD then 3 else 0, 1
    {
      if found.id == PUBLIC_WILDCARD {
        AddWildcard(found);
        return;
      }
      ghost var was := View();
      var existing := if found.id in concrete then Some(concrete[found.id]) else None;
      SetConcrete(found.id, UnionConcreteWithConcrete(existing, Some(found)));
      wildcard := UnionWildcardWithConcrete(wildcard, found);
      MoreConcreteIsUnion(was, found, View());
    }

    method AddWildcard(found: Subject)
      requires Valid() && WildcardShape(found)
      modifies this`wildcard
      ensures AddedOne(old(View()), found, View())
      decreases 3, 0
    {
      var updated := UnionWildcardWithWildcard(wildcard, found);
      assert updated.Ok?;
      wildcard := Some(updated.value);
      var todo := concrete.Keys;
      while todo != {}
        invariant todo <= concrete.Keys
        invariant wildcard.Some? && WildcardShape(wildcard.value) && wildcard.value.caveat == updated.value.caveat
        invariant forall a, id :: View().WildcardExcludes(a, id) <==>
                    Excluded(updated.value.excluded, a, id) && !(id !in todo && View().ConcreteHolds(a, id))
      {
        var id :| id in todo;
        wildcard := UnionWildcardWithConcrete(wildcard, concrete[id]);
        todo := todo - {id};
      }
    }

    method SetConcrete(id: string, subject: Option<Subject>)
      requires subject.Some? ==> subject.value.id == id
      modifies this`concrete
      ensures concrete == if subject.None? then old(concrete) - {id} else old(concrete)[id := subject.value]
      decreases 0, 0
    {
      if subject.None? {
        concrete := concrete - {id};
        return;
      }
      concrete := concrete[subject.value.id := subject.value];
    }

    /** The wildcard of a union: conditions or'ed, exclusion lists intersected. */
    static method UnionWildcardWithWildcard(existing: Option<Subject>, adding: Subject) returns (r: Result<Subject>)
      requires existing.Some? ==> NestingFree(existing.value.excluded)
      requires NestingFree(adding.excluded)
      ensures existing.None? ==> r == Ok(adding)
      ensures r.Err? <==> existing.Some? && (HasWildcard(existing.value.excluded) || HasWildcard(adding.excluded))
      ensures existing.Some? && r.Ok? ==>
                && WildcardShape(r.value)
                && r.value.caveat == ShortcircuitedOr(existing.value.caveat, adding.caveat)
                && forall a, id :: Excluded(r.value.excluded, a, id) <==>
                     Excluded(existing.value.excluded, a, id) && Excluded(adding.excluded, a, id)
      decreases 2, 0
    {
      if existing.None? {
        return Ok(adding);
      }
      var expression := ShortcircuitedOr(existing.value.caveat, adding.caveat);
      var existingExclusions := new BaseSubjectSet();
      var ok := existingExclusions.AddExclusions(existing.value.excluded);
      if !ok {
        return Err;
      }
      var foundExclusions := new BaseSubjectSet();
      ok := foundExclusions.AddExclusions(adding.excluded);
      if !ok {
        return Err;
      }
      existingExclusions.IntersectionDifference(foundExclusions);
      var exclusions := existingExclusions.AsSlice();
      existingExclusions.SliceOfConcretes(exclusions);
      forall a, id ensures Excluded(exclusions, a, id) <==>
                     Excluded(existing.value.excluded, a, id) && Excluded(adding.excluded, a, id) {
        assert existingExclusions.View().Member(a, id) <==> Excluded(exclusions, a, id);
      }
      r := Ok(Subject(PUBLIC_WILDCARD, expression, exclusions));
    }

    /** The wildcard of an intersection: conditions and'ed, exclusion lists united. */
    static method IntersectWildcardWithWildcard(first: Option<Subject>, second: Option<Subject>)
      returns (r: Result<Option<Subject>>)
      requires first.Some? ==> NestingFree(first.value.excluded)
      requires second.Some? ==> NestingFree(second.value.excluded)
      ensures first.None? || second.None? ==> r == Ok(None)
      ensures r.Err? <==>
              && first.Some? && second.Some?
              && (HasWildcard(first.value.excluded) || HasWildcard(second.value.excluded))
      ensures first.Some? && second.Some? && r.Ok? ==>
                && r.value.Some? && WildcardShape(r.value.value)
                && r.value.value.caveat == And(first.value.caveat, second.value.caveat)
                && forall a, id :: Excluded(r.value.value.excluded, a, id) <==>
                     Excluded(first.value.excluded, a, id) || Excluded(second.value.excluded, a, id)
      decreases 0, 3
    {
      if first.None? || second.None? {
        return Ok(None);
      }
      var exclusionSet := new BaseSubjectSet();
      var ok := exclusionSet.AddExclusions(first.value.excluded);
      if !ok {
        return Err;
      }
      ok := exclusionSet.AddExclusions(second.value.excluded);
      if !ok {
        return Err;
      }
      var exclusions := exclusionSet.AsSlice();
      exclusionSet.SliceOfConcretes(exclusions);
      forall a, id ensures Excluded(exclusions, a, id) <==>
                     Excluded(first.value.excluded, a, id) || Excluded(second.value.excluded, a, id) {
        assert exclusionSet.View().Member(a, id) <==> Excluded(exclusions, a, id);
      }
      r := Ok(Some(Subject(PUBLIC_WILDCARD, And(first.value.caveat, second.value.caveat), exclusions)));
    }

    /** Collects exclusions into a set that holds no wildcard; a wildcard among them is refused. */
    method AddExclusions(excluded: seq<Subject>) returns (ok: bool)
      requires Valid() && wildcard.None? && NestingFree(excluded)
      modifies this
      ensures Valid() && wildcard.None?
      ensures ok <==> !HasWildcard(excluded)
      ensures ok ==> forall a, id :: View().Member(a, id) <==> old(View()).Member(a, id) || Excluded(excluded, a, id)
      decreases 0, 2
    {
      for i := 0 to |excluded|
        invariant Valid() && wildcard.None? && !HasWildcard(excluded[..i])
        invariant forall a, id :: View().Member(a, id) <==> old(View()).Member(a, id) || Excluded(excluded[..i], a, id)
      {
        if excluded[i].id == PUBLIC_WILDCARD {
          return false;
        }
        assert excluded[..i + 1] == excluded[..i] + [excluded[i]];
        ExcludedSnoc(excluded[..i], excluded[i]);
        Add(excluded[i]);
      }
      assert excluded[..|excluded|] == excluded;
      ok := true;
    }

    /** The contents as a list: each concrete once in any order, then the wildcard. */
    method AsSlice() returns (values: seq<Subject>)
      requires Valid()
      ensures SliceOf(values, View())
      decreases 0, 0
    {
      values := [];
      var todo := concrete.Keys;
      while todo != {}
        invariant todo <= concrete.Keys && DistinctIds(values) && Ids(values) == concrete.Keys - todo
        invariant forall s <- values :: s.id in concrete && concrete[s.id] == s
      {
        var id :| id in todo;
        ExcludedSnoc(values, concrete[id]);
        assert concrete[id].id !in Ids(values);
        values := values + [concrete[id]];
        todo := todo - {id};
      }
      ghost var concretes := values;
      forall a, id ensures Excluded(concretes, a, id) <==> View().ConcreteHolds(a, id) {
        if id in concrete {
          assert id in Ids(concretes);
          var s :| s in concretes && s.id == id;
          ExcludedIsTheEntry(concretes, s);
        } else {
          NotListedNotExcluded(concretes, id);
        }
      }
      if wildcard.Some? {
        values := values + [wildcard.value];
      }
      assert SliceConcretes(values) == concretes;
    }

    /** For a set without a wildcard the slice lists exactly the members. */
    lemma SliceOfConcretes(values: seq<Subject>)
      requires Valid() && wildcard.None? && SliceShape(values) && DistinctIds(values) && SliceWildcard(values) == None
      ensures AllConcrete(values) && SliceConcretes(values) == values
      decreases 0, 0
    {
    }

    /** Difference with a single subject. */
    method Subtract(toRemove: Subject)
      requires Valid() && Wellformed(toRemove)
      modifies this
      ensures SubtractedOne(old(View()), toRemove, View())
    {
      if toRemove.id == PUBLIC_WILDCARD {
        SubtractWildcard(toRemove);
        return;
      }
      ghost var was := View();
      if toRemove.id in concrete {
        SetConcrete(toRemove.id, SubtractConcreteFromConcrete(concrete[toRemove.id], toRemove));
      }
      if wildcard.Some? {
        var updated := SubtractConcreteFromWildcard(wildcard.value, toRemove);
        wildcard := Some(updated);
      }
      LessConcreteIsDifference(was, toRemove, View());
    }

    method SubtractWildcard(toRemove: Subject)
      requires Valid() && WildcardShape(toRemove)
      modifies this
      ensures SubtractedOne(old(View()), toRemove, View())
    {
      ghost var was := View();
      SubtractFromConcretes(toRemove);
      ghost var mid := View();
      var updated, concretes := SubtractWildcardFromWildcard(wildcard, toRemove);
      wildcard := updated;
      for i := 0 to |concretes|
        invariant View().Shape() && wildcard == updated
        invariant Overwritten(mid.concrete, concretes[..i], concrete)
      {
        assert concretes[..i + 1] == concretes[..i] + [concretes[i]];
        ExcludedSnoc(concretes[..i], concretes[i]);
        assert concretes[i].id !in Ids(concretes[..i]);
        SetConcrete(concretes[i].id, Some(concretes[i]));
      }
      assert concretes[..|concretes|] == concretes;
      forall a, id
        ensures View().ConcreteHolds(a, id) ==> !View().WildcardExcludes(a, id)
        ensures View().Member(a, id) <==> AfterSubtract(was, toRemove, a, id)
      {
        SubtractWildcardAt(was, toRemove, mid, concretes, View(), a, id);
      }
    }

    method SubtractFromConcretes(toRemove: Subject)
      requires Valid() && WildcardShape(toRemove)
      modifies this`concrete
      ensures View().Shape()
      ensures forall a, id :: View().ConcreteHolds(a, id) <==>
              old(View()).ConcreteHolds(a, id) && !Covers(toRemove, a, id)
    {
      ghost var was := View();
      var todo := concrete.Keys;
      while todo != {}
        invariant todo <= concrete.Keys && View().Shape()
        invariant forall id <- todo :: id in was.concrete && concrete[id] == was.concrete[id]
        invariant forall a, id | id !in todo :: View().ConcreteHolds(a, id) <==>
                  was.ConcreteHolds(a, id) && !Covers(toRemove, a, id)
      {
        var id :| id in todo;
        var updated := SubtractWildcardFromConcrete(concrete[id], toRemove);
        SetConcrete(id, updated);
        todo := todo - {id};
      }
    }

    method SubtractAll(other: BaseSubjectSet)
      requires Valid() && other.Valid()
      modifies this
      ensures Subtracted(old(View()), old(other.View()), View())
    {
      ghost var was := View();
      ghost var theirs := other.View();
      var subjects := other.AsSlice();
      assert SliceConcretes(subjects)[..0] == [];
      for i := 0 to |subjects|
        invariant Valid() && SubtractProgress(was, theirs, subjects, i, View())
      {
        ghost var before := View();
        Subtract(subjects[i]);
        SubtractProgressStep(was, theirs, subjects, i, before, View());
      }
      if theirs.wildcard.None? {
        assert SliceConcretes(subjects)[..|subjects|] == SliceConcretes(subjects);
      }
    }

    /** Intersection with another set: exact for all sets, whatever is caveated. */
    method IntersectionDifference(other: BaseSubjectSet)
      requires Valid() && other.Valid()
      modifies this
      ensures Intersected(old(View()), old(other.View()), View())
      decreases 1, 0
    {
      ghost var was := View();
      var existingWildcard := wildcard;
      var theirs := SetView(other.concrete, other.wildcard);
      var intersection := IntersectWildcardWithWildcard(existingWildcard, theirs.wildcard);
      assert intersection.Ok?;
      wildcard := intersection.value;
      var updated := IntersectConcretes(concrete, theirs);
      if existingWildcard.Some? {
        updated := AddFromWildcard(updated, existingWildcard.value, theirs.concrete);
      }
      concrete := updated;
      assert forall a, id :: View().ConcreteHolds(a, id) <==>
          || (was.ConcreteHolds(a, id) && theirs.Member(a, id))
          || (theirs.ConcreteHolds(a, id) && was.WildcardHolds(a) && !was.WildcardExcludes(a, id));
      assert forall a, id :: View().WildcardExcludes(a, id) <==>
          wildcard.Some? && (was.WildcardExcludes(a, id) || theirs.WildcardExcludes(a, id));
    }

    /** First loop of the intersection: concretes of this set that the other set contains. */
    static method IntersectConcretes(mine: map<string, Subject>, theirs: SetView)
      returns (updated: map<string, Subject>)
      requires ConcreteMap(mine) && theirs.Shape()
      ensures ConcreteMap(updated)
      ensures forall a, id :: Listed(updated, a, id) <==>
                Listed(mine, a, id) && theirs.Member(a, id)
      decreases 0, 0
    {
      updated := map[];
      var todo := mine.Keys;
      while todo != {}
        invariant todo <= mine.Keys && ConcreteMap(updated)
        invariant forall a, id :: Listed(updated, a, id) <==>
                    id !in todo && Listed(mine, a, id) && theirs.Member(a, id)
      {
        var id :| id in todo;
        var otherOrNil := if id in theirs.concrete then Some(theirs.concrete[id]) else None;
        var concreteIntersected := IntersectConcreteWithConcrete(mine[id], otherOrNil);
        var wildcardIntersected := IntersectConcreteWithWildcard(mine[id], theirs.wildcard);
        var result := UnionConcreteWithConcrete(concreteIntersected, wildcardIntersected);
        assert forall a :: (result.Some? && Holds(result.value.caveat, a)) <==>
               Holds(mine[id].caveat, a) && theirs.Member(a, id);
        ghost var before := updated;
        if result.Some? {
          updated := updated[id := result.value];
        }
        todo := todo - {id};
        assert forall a, other | other != id :: Listed(updated, a, other) <==> Listed(before, a, other);
        assert forall a :: Listed(updated, a, id) <==> Listed(mine, a, id) && theirs.Member(a, id);
      }
    }

    /** Second loop of the intersection: concretes of the other set that this set's wildcard covers. */
    static method AddFromWildcard(start: map<string, Subject>, mine: Subject, theirs: map<string, Subject>)
      returns (updated: map<string, Subject>)
      requires ConcreteMap(start) && ConcreteMap(theirs) && WildcardShape(mine)
      ensures ConcreteMap(updated)
      ensures forall a, id :: Listed(updated, a, id) <==>
                Listed(start, a, id) || (Listed(theirs, a, id) && Covers(mine, a, id))
      decreases 0, 0
    {
      updated := start;
      var todo := theirs.Keys;
      while todo != {}
        invariant todo <= theirs.Keys && ConcreteMap(updated)
        invariant forall a, id :: Listed(updated, a, id) <==>
                    || Listed(start, a, id)
                    || (id !in todo && Listed(theirs, a, id) && Covers(mine, a, id))
      {
        var id :| id in todo;
        var wildcardIntersected := IntersectConcreteWithWildcard(theirs[id], Some(mine));
        if id in updated {
          var result := UnionConcreteWithConcrete(Some(updated[id]), wildcardIntersected);
          updated := updated[id := result.value];
        } else if wildcardIntersected.Some? {
          updated := updated[id := wildcardIntersected.value];
        }
        todo := todo - {id};
      }
    }

    /** Union with each subject in turn: no member of the set or of the list is ever lost. */
    method UnionWith(found: seq<Subject>)
      requires Valid() && forall s <- found :: Wellformed(s)
      modifies this
      ensures Valid()
      ensures forall a, id :: old(View()).Member(a, id) || (exists s <- found :: Covers(s, a, id)) ==>
              View().Member(a, id)
      ensures SliceShape(found) ==> UnionProgress(old(View()), found, |found|, View())
    {
      ghost var was := View();
      assert SliceConcretes(found)[..0] == [];
      for i := 0 to |found|
        invariant Valid()
        invariant forall a, id :: was.Member(a, id) || (exists s <- found[..i] :: Covers(s, a, id)) ==>
                  View().Member(a, id)
        invariant SliceShape(found) ==> UnionProgress(was, found, i, View())
      {
        assert found[..i + 1] == found[..i] + [found[i]];
        ghost var before := View();
        Add(found[i]);
        if SliceShape(found) {
          UnionProgressStep(was, found, i, before, View());
        }
      }
      assert found[..|found|] == found;
    }

    method UnionWithSet(other: BaseSubjectSet)
      requires Valid() && other.Valid()
      modifies this
      ensures Unioned(old(View()), old(other.View()), View())
    {
      ghost var was := View();
      ghost var theirs := other.View();
      var subjects := other.AsSlice();
      UnionWith(subjects);
      UnionProgressDone(was, theirs, subjects, View());
    }

    method Clone() returns (clone: BaseSubjectSet)
      requires Valid()
      ensures fresh(clone) && clone.View() == View()
    {
      clone := new BaseSubjectSet.From(SetView(concrete, wildcard));
    }

    /** A copy in which the parent's condition is required of every member. */
    method WithParentCaveatExpression(parent: Condition) returns (clone: BaseSubjectSet)
      requires Valid()
      ensures fresh(clone) && Conditioned(parent, View(), clone.View())
    {
      clone := Clone();
      if clone.wildcard.Some? {
        clone.wildcard := Some(Subject(PUBLIC_WILDCARD, And(parent, wildcard.value.caveat), wildcard.value.excluded));
      }
      clone.concrete := ApplyParent(parent, clone.concrete);
      assert forall a, id :: clone.View().ConcreteHolds(a, id) <==> Holds(parent, a) && View().ConcreteHolds(a, id);
      assert forall a, id :: clone.View().WildcardExcludes(a, id) <==> View().WildcardExcludes(a, id);
    }

    static method ApplyParent(parent: Condition, subjects: map<string, Subject>) returns (updated: map<string, Subject>)
      requires ConcreteMap(subjects)
      ensures ConcreteMap(updated) && updated.Keys == subjects.Keys
      ensures forall a, id :: Listed(updated, a, id) <==> Holds(parent, a) && Listed(subjects, a, id)
    {
      updated := subjects;
      var todo := subjects.Keys;
      while todo != {}
        invariant todo <= subjects.Keys && updated.Keys == subjects.Keys && ConcreteMap(updated)
        invariant forall a, id :: Listed(updated, a, id) <==>
                  (id !in todo ==> Holds(parent, a)) && Listed(subjects, a, id)
      {
        var id :| id in todo;
        updated := updated[id := Subject(id, And(parent, updated[id].caveat), [])];
        todo := todo - {id};
      }
    }
  }

  /** Entries list no subjects of their own, as the subject interface demands of exclusions. */
  ghost predicate NestingFree(excluded: seq<Subject>) {
    forall s <- excluded :: s.excluded == []
  }

  ghost predicate HasWildcard(excluded: seq<Subject>) {
    exists s <- excluded :: s.id == PUBLIC_WILDCARD
  }

  /** Adding a subject is disjunction at every point but those where the merged wildcards let
      an id through that neither admitted and no concrete entry supplies. */
  lemma AddExactExactlyWhen(s: SetView, x: Subject, a: Assignment, id: string)
    requires s.Invariant() && Wellformed(x)
    ensures (AfterAdd(s, x, a, id) <==> s.Member(a, id) || Covers(x, a, id)) <==>
            !(UnionOvershoots(s, x, a, id) && !s.ConcreteHolds(a, id))
    ensures || x.id != PUBLIC_WILDCARD || s.wildcard.None?
            || (s.PlainWildcard() && x.caveat.Always?)
            || (s.wildcard.value.excluded == [] && x.excluded == [])
            ==> !UnionOvershoots(s, x, a, id)
  {
  }

  /** Subtracting a subject is difference at every point but the ones named, and both kinds of
      point need a caveated wildcard in the set and exclusions on the subtracted wildcard. */
  lemma SubtractExactExactlyWhen(s: SetView, x: Subject, a: Assignment, id: string)
    requires s.Invariant() && Wellformed(x)
    ensures (AfterSubtract(s, x, a, id) <==> s.Member(a, id) && !Covers(x, a, id)) <==>
            !SubtractDrops(s, x, a, id) && !SubtractLeaves(s, x, a, id)
    ensures x.id != PUBLIC_WILDCARD || s.PlainWildcard() || x.excluded == [] ==>
            !SubtractDrops(s, x, a, id) && !SubtractLeaves(s, x, a, id)
  {
  }

  /** The union of two sets is exact at a point if and only if that is not an overshoot point for
      which neither set has a concrete entry; and everywhere when both wildcards are plain, one side
      has none, or neither excludes anyone. */
  lemma UnionExactExactlyWhen(was: SetView, theirs: SetView, now: SetView, a: Assignment, id: string)
    requires was.Invariant() && theirs.Invariant() && Unioned(was, theirs, now)
    ensures (now.Member(a, id) <==> was.Member(a, id) || theirs.Member(a, id)) <==>
            !(&& theirs.wildcard.Some? && UnionOvershoots(was, theirs.wildcard.value, a, id)
              && !was.ConcreteHolds(a, id) && !theirs.ConcreteHolds(a, id))
    ensures || was.wildcard.None? || theirs.wildcard.None? || (was.PlainWildcard() && theirs.PlainWildcard())
            || (was.wildcard.value.excluded == [] && theirs.wildcard.value.excluded == [])
            ==> (now.Member(a, id) <==> was.Member(a, id) || theirs.Member(a, id))
  {
  }

  /** The difference of two sets is exact at a point if and only if the point is none of the named
      ones that a concrete entry does not decide; and everywhere when the minuend's wildcard is plain,
      or the subtracted wildcard is absent or excludes no one. */
  lemma DifferenceExactExactlyWhen(was: SetView, theirs: SetView, now: SetView, a: Assignment, id: string)
    requires was.Invariant() && theirs.Invariant() && Subtracted(was, theirs, now)
    ensures (now.Member(a, id) <==> was.Member(a, id) && !theirs.Member(a, id)) <==>
            || theirs.wildcard.None? || theirs.ConcreteHolds(a, id)
            || (!SubtractDrops(was, theirs.wildcard.value, a, id) && !SubtractLeaves(was, theirs.wildcard.value, a, id))
    ensures was.PlainWildcard() || theirs.wildcard.None? || theirs.wildcard.value.excluded == [] ==>
            (now.Member(a, id) <==> was.Member(a, id) && !theirs.Member(a, id))
  {
  }

  /** {*[c]} + {*[d] - tom}: with d alone true, tom is let in although neither side admits tom. */
  lemma UnionOvershootWitness(c: Caveat, d: Caveat)
    requires c != d
    ensures exists s: SetView, x: Subject, a: Assignment, id: string ::
              && s.Invariant() && Wellformed(x)
              && AfterAdd(s, x, a, id) && !s.Member(a, id) && !Covers(x, a, id)
  {
    var s := SetView(map[], Some(Subject(PUBLIC_WILDCARD, When(Leaf(c)), [])));
    var tom := Subject("tom", Always, []);
    var x := Subject(PUBLIC_WILDCARD, When(Leaf(d)), [tom]);
    var a: Assignment := iset{d};
    assert tom in x.excluded;
    assert Excluded(x.excluded, a, "tom");
    assert AfterAdd(s, x, a, "tom") && !s.Member(a, "tom") && !Covers(x, a, "tom");
  }

  /** {*[c], tom} - {* - tom}: without c, tom is lost; with c, everyone else stays. */
  lemma SubtractInexactWitness(c: Caveat)
    ensures exists s: SetView, x: Subject, a: Assignment, id: string ::
              && s.Invariant() && Wellformed(x)
              && !AfterSubtract(s, x, a, id) && s.Member(a, id) && !Covers(x, a, id)
    ensures exists s: SetView, x: Subject, a: Assignment, id: string ::
              && s.Invariant() && Wellformed(x)
              && AfterSubtract(s, x, a, id) && Covers(x, a, id)
  {
    var tom := Subject("tom", Always, []);
    var s := SetView(map["tom" := tom], Some(Subject(PUBLIC_WILDCARD, When(Leaf(c)), [])));
    var x := Subject(PUBLIC_WILDCARD, Always, [tom]);
    var none: Assignment := iset{};
    var only: Assignment := iset{c};
    assert tom in x.excluded && tom.id in Ids(x.excluded);
    assert forall a :: Excluded(x.excluded, a, "tom") && !Excluded(x.excluded, a, "fred");
    assert !AfterSubtract(s, x, none, "tom") && s.Member(none, "tom") && !Covers(x, none, "tom");
    assert AfterSubtract(s, x, only, "fred") && Covers(x, only, "fred");
  }
}
