/** Subjects, exclusion lists, and the pure helpers that combine one subject with another. */
module Subjects {
  import opened Common
  import opened Caveats
  import opened Tuples

  /** A found subject. `excluded` is empty unless the subject is the wildcard. */
  datatype Subject = Subject(id: string, caveat: Condition, excluded: seq<Subject>)

  ghost predicate Concrete(s: Subject) {
    s.id != PUBLIC_WILDCARD && s.excluded == []
  }

  ghost function Ids(subjects: seq<Subject>): set<string> {
    set s <- subjects :: s.id
  }

  ghost predicate DistinctIds(subjects: seq<Subject>) {
    forall i, j | 0 <= i < j < |subjects| :: subjects[i].id != subjects[j].id
  }

  ghost predicate AllConcrete(subjects: seq<Subject>) {
    forall s <- subjects :: Concrete(s)
  }

  /** Some subject of the list has this id and a true condition. */
  ghost predicate Excluded(subjects: seq<Subject>, a: Assignment, id: string) {
    exists s <- subjects :: s.id == id && Holds(s.caveat, a)
  }

  /** The wildcard as every set keeps it: exclusions concrete, at most one per id. */
  ghost predicate WildcardShape(s: Subject) {
    s.id == PUBLIC_WILDCARD && AllConcrete(s.excluded) && DistinctIds(s.excluded)
  }

  ghost predicate Wellformed(s: Subject) {
    if s.id == PUBLIC_WILDCARD then WildcardShape(s) else Concrete(s)
  }

  /** The subject, taken as a one-element set, has `id` as a member. */
  ghost predicate Covers(s: Subject, a: Assignment, id: string) {
    Holds(s.caveat, a) && if s.id == PUBLIC_WILDCARD then !Excluded(s.excluded, a, id) else s.id == id
  }

  lemma ExcludedSnoc(subjects: seq<Subject>, s: Subject)
    ensures forall a, id :: Excluded(subjects + [s], a, id) <==>
                            Excluded(subjects, a, id) || (s.id == id && Holds(s.caveat, a))
    ensures Ids(subjects + [s]) == Ids(subjects) + {s.id}
  {
  }

  /** With at most one entry per id, the entry found decides the exclusion. */
  lemma ExcludedIsTheEntry(subjects: seq<Subject>, s: Subject)
    requires DistinctIds(subjects) && s in subjects
    ensures forall a :: Excluded(subjects, a, s.id) <==> Holds(s.caveat, a)
  {
  }

  lemma NotListedNotExcluded(subjects: seq<Subject>, id: string)
    requires id !in Ids(subjects)
    ensures forall a :: !Excluded(subjects, a, id)
  {
  }

  /** The subject is the last one of the list with its id. */
  ghost predicate IsLast(subjects: seq<Subject>, s: Subject) {
    exists i | 0 <= i < |subjects| :: subjects[i] == s && forall j | i < j < |subjects| :: subjects[j].id != s.id
  }

  /** The exclusions of a wildcard, by subject id; of several with one id the last. */
  method ExclusionsMapFor(wildcard: Subject) returns (exclusions: map<string, Subject>)
    ensures exclusions.Keys == Ids(wildcard.excluded)
    ensures forall id <- exclusions :: exclusions[id].id == id && IsLast(wildcard.excluded, exclusions[id])
    ensures DistinctIds(wildcard.excluded) ==>
            forall a, id :: Excluded(wildcard.excluded, a, id) <==> id in exclusions && Holds(exclusions[id].caveat, a)
  {
    exclusions := map[];
    for i := 0 to |wildcard.excluded|
      invariant exclusions.Keys == Ids(wildcard.excluded[..i])
      invariant forall id <- exclusions :: exclusions[id].id == id && IsLast(wildcard.excluded[..i], exclusions[id])
    {
      var s := wildcard.excluded[i];
      assert wildcard.excluded[..i + 1] == wildcard.excluded[..i] + [s];
      ExcludedSnoc(wildcard.excluded[..i], s);
      LastSnoc(wildcard.excluded[..i], s);
      exclusions := exclusions[s.id := s];
    }
    assert wildcard.excluded[..|wildcard.excluded|] == wildcard.excluded;
    if DistinctIds(wildcard.excluded) {
      forall a, id ensures Excluded(wildcard.excluded, a, id) <==> id in exclusions && Holds(exclusions[id].caveat, a) {
        if id in exclusions {
          ExcludedIsTheEntry(wildcard.excluded, exclusions[id]);
        } else {
          NotListedNotExcluded(wildcard.excluded, id);
        }
      }
    }
  }

  lemma LastSnoc(subjects: seq<Subject>, s: Subject)
    ensures IsLast(subjects + [s], s)
    ensures forall x | IsLast(subjects, x) && x.id != s.id :: IsLast(subjects + [s], x)
  {
    var more := subjects + [s];
    assert more[|subjects|] == s;
    forall x | IsLast(subjects, x) && x.id != s.id ensures IsLast(more, x) {
      var i :| 0 <= i < |subjects| && subjects[i] == x && forall j | i < j < |subjects| :: subjects[j].id != x.id;
      assert more[i] == x;
    }
  }

  function UnionConcreteWithConcrete(existing: Option<Subject>, adding: Option<Subject>): (r: Option<Subject>)
    requires existing.Some? && adding.Some? ==> existing.value.id == adding.value.id
    requires existing.Some? ==> Concrete(existing.value)
    requires adding.Some? ==> Concrete(adding.value)
    ensures r.Some? <==> existing.Some? || adding.Some?
    ensures r.Some? ==>
            && Concrete(r.value) && (existing.Some? ==> r.value.id == existing.value.id)
            && (adding.Some? ==> r.value.id == adding.value.id)
    ensures r.Some? ==> forall a :: Holds(r.value.caveat, a) <==>
              (existing.Some? && Holds(existing.value.caveat, a)) || (adding.Some? && Holds(adding.value.caveat, a))
  {
    if existing.None? then adding
    else if adding.None? then existing
    else Some(Subject(existing.value.id, ShortcircuitedOr(existing.value.caveat, adding.value.caveat), []))
  }

  function SubtractConcreteFromConcrete(existing: Subject, toRemove: Subject): (r: Option<Subject>)
    requires Concrete(existing)
    ensures r.Some? ==> Concrete(r.value) && r.value.id == existing.id
    ensures forall a :: r.Some? && Holds(r.value.caveat, a) <==> Holds(existing.caveat, a) && !Holds(toRemove.caveat, a)
  {
    if toRemove.caveat.Always? then None
    else Some(Subject(existing.id, And(existing.caveat, Invert(toRemove.caveat)), []))
  }

  function IntersectConcreteWithConcrete(first: Subject, second: Option<Subject>): (r: Option<Subject>)
    requires Concrete(first)
    ensures r.Some? <==> second.Some?
    ensures r.Some? ==> Concrete(r.value) && r.value.id == first.id
    ensures r.Some? ==> forall a :: Holds(r.value.caveat, a) <==>
            Holds(first.caveat, a) && Holds(second.value.caveat, a)
  {
    if second.None? then None
    else Some(Subject(first.id, And(first.caveat, second.value.caveat), []))
  }

  /** Adding a concrete to a set whose wildcard excludes it makes that exclusion apply only
      while the concrete itself is absent. */
  method UnionWildcardWithConcrete(existing: Option<Subject>, adding: Subject) returns (r: Option<Subject>)
    requires existing.Some? ==> WildcardShape(existing.value)
    requires Concrete(adding)
    ensures r.Some? <==> existing.Some?
    ensures r.Some? ==> WildcardShape(r.value) && r.value.caveat == existing.value.caveat
    ensures r.Some? ==> Ids(r.value.excluded) <= Ids(existing.value.excluded)
    ensures r.Some? ==> forall a, id :: Excluded(r.value.excluded, a, id) <==>
              Excluded(existing.value.excluded, a, id) && !(id == adding.id && Holds(adding.caveat, a))
  {
    if existing.None? {
      return None;
    }
    var exclusions := existing.value.excluded;
    var updated: seq<Subject> := [];
    for i := 0 to |exclusions|
      invariant AllConcrete(updated) && DistinctIds(updated) && Ids(updated) <= Ids(exclusions[..i])
      invariant forall a, id :: Excluded(updated, a, id) <==>
                  Excluded(exclusions[..i], a, id) && !(id == adding.id && Holds(adding.caveat, a))
    {
      ghost var before := updated;
      assert exclusions[..i + 1] == exclusions[..i] + [exclusions[i]];
      ExcludedSnoc(exclusions[..i], exclusions[i]);
      assert exclusions[i].id !in Ids(exclusions[..i]);
      if exclusions[i].id == adding.id {
        NotListedNotExcluded(exclusions[..i], adding.id);
        if adding.caveat.Always? {
          continue;
        }
        var inverted := And(exclusions[i].caveat, Invert(adding.caveat));
        updated := updated + [Subject(adding.id, inverted, [])];
        ExcludedSnoc(before, Subject(adding.id, inverted, []));
      } else {
        updated := updated + [exclusions[i]];
        ExcludedSnoc(before, exclusions[i]);
      }
    }
    assert exclusions[..|exclusions|] == exclusions;
    r := Some(Subject(PUBLIC_WILDCARD, existing.value.caveat, updated));
  }

  /** Subtracting a concrete from a wildcard makes it an exclusion of the wildcard. */
  method SubtractConcreteFromWildcard(wildcard: Subject, toRemove: Subject) returns (r: Subject)
    requires WildcardShape(wildcard) && Concrete(toRemove)
    ensures WildcardShape(r) && r.caveat == wildcard.caveat
    ensures forall a, id :: Excluded(r.excluded, a, id) <==>
              Excluded(wildcard.excluded, a, id) || (id == toRemove.id && Holds(toRemove.caveat, a))
  {
    var exclusions := wildcard.excluded;
    var updated: seq<Subject> := [];
    var wasFound := false;
    for i := 0 to |exclusions|
      invariant AllConcrete(updated) && DistinctIds(updated) && Ids(updated) == Ids(exclusions[..i])
      invariant wasFound <==> toRemove.id in Ids(exclusions[..i])
      invariant forall a, id :: Excluded(updated, a, id) <==>
                  Excluded(exclusions[..i], a, id) || (wasFound && id == toRemove.id && Holds(toRemove.caveat, a))
    {
      ghost var before := updated;
      assert exclusions[..i + 1] == exclusions[..i] + [exclusions[i]];
      ExcludedSnoc(exclusions[..i], exclusions[i]);
      assert exclusions[i].id !in Ids(exclusions[..i]);
      if exclusions[i].id == toRemove.id {
        var combined := ShortcircuitedOr(exclusions[i].caveat, toRemove.caveat);
        updated := updated + [Subject(toRemove.id, combined, [])];
        ExcludedSnoc(before, Subject(toRemove.id, combined, []));
        wasFound := true;
      } else {
        updated := updated + [exclusions[i]];
        ExcludedSnoc(before, exclusions[i]);
      }
    }
    assert exclusions[..|exclusions|] == exclusions;
    if !wasFound {
      ExcludedSnoc(updated, toRemove);
      updated := updated + [toRemove];
    }
    r := Subject(PUBLIC_WILDCARD, wildcard.caveat, updated);
  }

  /** Subtracting a wildcard from a concrete is exact for every combination of caveats. */
  method SubtractWildcardFromConcrete(existing: Subject, toRemove: Subject) returns (r: Option<Subject>)
    requires Concrete(existing) && WildcardShape(toRemove)
    ensures r.Some? ==> Concrete(r.value) && r.value.id == existing.id
    ensures forall a :: (r.Some? && Holds(r.value.caveat, a)) <==>
                        Holds(existing.caveat, a) && !Covers(toRemove, a, existing.id)
  {
    var exclusions := ExclusionsMapFor(toRemove);
    if existing.id !in exclusions {
      if toRemove.caveat.Always? {
        return None;
      }
      return Some(Subject(existing.id, And(existing.caveat, Invert(toRemove.caveat)), []));
    }
    var exclusion := exclusions[existing.id];
    if exclusion.caveat.Always? {
      return Some(existing);
    }
    var exclusionConditional := Or(Invert(toRemove.caveat), exclusion.caveat);
    return Some(Subject(existing.id, And(existing.caveat, exclusionConditional), []));
  }

  /** Intersecting a concrete with a wildcard is exact for every combination of caveats. */
  method IntersectConcreteWithWildcard(concrete: Subject, wildcard: Option<Subject>) returns (r: Option<Subject>)
    requires Concrete(concrete)
    requires wildcard.Some? ==> WildcardShape(wildcard.value)
    ensures r.Some? ==> Concrete(r.value) && r.value.id == concrete.id
    ensures forall a :: (r.Some? && Holds(r.value.caveat, a)) <==>
                        Holds(concrete.caveat, a) && wildcard.Some? && Covers(wildcard.value, a, concrete.id)
  {
    if wildcard.None? {
      return None;
    }
    var exclusions := ExclusionsMapFor(wildcard.value);
    if concrete.id !in exclusions {
      if wildcard.value.caveat.Always? {
        return Some(concrete);
      }
      return Some(Subject(concrete.id, And(concrete.caveat, wildcard.value.caveat), []));
    }
    var exclusion := exclusions[concrete.id];
    if exclusion.caveat.Always? {
      return None;
    }
    return Some(Subject(concrete.id, And(concrete.caveat, And(wildcard.value.caveat, Invert(exclusion.caveat))), []));
  }

  /** The concrete that an exclusion of the subtracted wildcard turns into, given the existing
      wildcard's own exclusion of the same id. */
  function ConcreteFromExclusion(wildcard: Subject, toRemove: Subject, existing: Option<Subject>,
                                 excluded: Subject): (r: Option<Subject>)
    ensures r.None? <==> existing.Some? && existing.value.caveat.Always?
    ensures r.Some? ==> r.value.id == excluded.id && r.value.excluded == []
    ensures r.Some? ==> forall a :: Holds(r.value.caveat, a) <==>
              && Holds(wildcard.caveat, a) && !(existing.Some? && Holds(existing.value.caveat, a))
              && Holds(toRemove.caveat, a) && Holds(excluded.caveat, a)
  {
    var both := And(wildcard.caveat, toRemove.caveat);
    if existing.None? then
      Some(Subject(excluded.id, And(both, excluded.caveat), []))
    else if existing.value.caveat.When? then
      Some(Subject(excluded.id, And(And(both, Invert(existing.value.caveat)), excluded.caveat), []))
    else
      None
  }

  /** The concretes are those ids that the subtracted wildcard excludes and the existing one
      does not always exclude, each under the condition that both wildcards apply and only
      the subtracted one excludes it. */
  ghost predicate FromExclusions(wildcard: Subject, toRemove: Subject, exclusions: seq<Subject>,
                                 concretes: seq<Subject>) {
    && AllConcrete(concretes) && DistinctIds(concretes) && Ids(concretes) <= Ids(exclusions)
    && (forall id, a | id in Ids(exclusions) && id !in Ids(concretes) :: Excluded(wildcard.excluded, a, id))
    && (forall c <- concretes :: OnlySecondExcludes(wildcard, toRemove, c))
  }

  /** Both wildcards apply and the subject's id is excluded by the second but not by the first. */
  ghost predicate OnlySecondExcludes(first: Subject, second: Subject, c: Subject) {
    forall a :: Holds(c.caveat, a) <==>
      && Holds(first.caveat, a) && !Excluded(first.excluded, a, c.id)
      && Holds(second.caveat, a) && Excluded(second.excluded, a, c.id)
  }

  lemma FromExclusionsSnoc(wildcard: Subject, toRemove: Subject, exclusions: seq<Subject>, concretes: seq<Subject>,
                           own: Option<Subject>, excluded: Subject, concrete: Option<Subject>)
    requires FromExclusions(wildcard, toRemove, exclusions, concretes)
    requires DistinctIds(toRemove.excluded) && excluded in toRemove.excluded && Concrete(excluded)
    requires excluded.id !in Ids(exclusions)
    requires forall a :: Excluded(wildcard.excluded, a, excluded.id) <==> own.Some? && Holds(own.value.caveat, a)
    requires concrete == ConcreteFromExclusion(wildcard, toRemove, own, excluded)
    ensures FromExclusions(wildcard, toRemove, exclusions + [excluded], if concrete.Some?
                           then concretes + [concrete.value] else concretes)
  {
    ExcludedSnoc(exclusions, excluded);
    ExcludedIsTheEntry(toRemove.excluded, excluded);
    if concrete.Some? {
      ExcludedSnoc(concretes, concrete.value);
      assert forall c <- concretes :: c.id in Ids(concretes);
      assert OnlySecondExcludes(wildcard, toRemove, concrete.value);
    }
  }

  /** What remains of a wildcard after another is subtracted from it, and the concretes that
      appear because the subtracted wildcard excluded them.

      The remaining wildcard keeps its exclusions and holds when it held and the other did
      not, except that an unconditional subtrahend with exclusions leaves a caveated wildcard
      as it was. */
  method SubtractWildcardFromWildcard(existing: Option<Subject>, toRemove: Subject)
    returns (r: Option<Subject>, concretes: seq<Subject>)
    requires existing.Some? ==> WildcardShape(existing.value)
    requires WildcardShape(toRemove)
    ensures existing.None? ==> r.None? && concretes == []
    ensures r.Some? ==> WildcardShape(r.value) && r.value.excluded == existing.value.excluded
    ensures existing.Some? ==> forall a :: (r.Some? && Holds(r.value.caveat, a)) <==>
              Holds(existing.value.caveat, a) &&
              (Holds(toRemove.caveat, a) ==>
                 existing.value.caveat.When? && toRemove.caveat.Always? && toRemove.excluded != [])
    ensures existing.Some? && existing.value.caveat.Always? && toRemove.caveat.Always? ==> r.None?
    ensures existing.Some? ==> FromExclusions(existing.value, toRemove, toRemove.excluded, concretes)
  {
    if existing.None? {
      return None, [];
    }
    if toRemove.caveat.Always? && toRemove.excluded == [] {
      return None, [];
    }
    var wildcard := existing.value;
    var existingExclusions := ExclusionsMapFor(wildcard);
    concretes := [];
    for i := 0 to |toRemove.excluded|
      invariant FromExclusions(wildcard, toRemove, toRemove.excluded[..i], concretes)
    {
      var excluded := toRemove.excluded[i];
      assert toRemove.excluded[..i + 1] == toRemove.excluded[..i] + [excluded];
      assert excluded.id !in Ids(toRemove.excluded[..i]);
      var own := if excluded.id in existingExclusions then Some(existingExclusions[excluded.id]) else None;
      var concrete := ConcreteFromExclusion(wildcard, toRemove, own, excluded);
      FromExclusionsSnoc(wildcard, toRemove, toRemove.excluded[..i], concretes, own, excluded, concrete);
      if concrete.Some? {
        concretes := concretes + [concrete.value];
      }
    }
    assert toRemove.excluded[..|toRemove.excluded|] == toRemove.excluded;
    var combined := And(wildcard.caveat, Invert(toRemove.caveat));
    r := if combined.When? then Some(Subject(PUBLIC_WILDCARD, combined, wildcard.excluded)) else None;
  }
}
