/** The reducers of check: union, intersection and exclusion over child results that arrive in
    any order, with early exits.

    What a batch of results must get right is stated against the truth of the problem solved:
    the pairs of resource id and assignment for which the id is a member. */
module Reducers {
  import opened Caveats
  import opened Membership

  type Truth = iset<(string, Assignment)>

  /** Only ids that were asked about are reported, and nothing false is reported. */
  ghost predicate Sound(results: ResultsMap, ids: set<string>, truth: Truth) {
    && MembersOnly(results) && results.Keys <= ids
    && forall a, id :: Reports(results, a, id) ==> (id, a) in truth
  }

  /** Every member among the ids is reported, under every assignment. */
  ghost predicate Complete(results: ResultsMap, ids: set<string>, truth: Truth) {
    forall a, id | id in ids :: (id, a) in truth ==> Reports(results, a, id)
  }

  /** Results are sound, and complete unless a single unconditional member was enough. */
  ghost predicate Answers(results: ResultsMap, ids: set<string>, truth: Truth, setting: ResultsSetting) {
    && Sound(results, ids, truth)
    && (Complete(results, ids, truth) || (setting == ALLOW_SINGLE_RESULT && Determined(results)))
  }

  ghost predicate InSome(truths: seq<Truth>, p: (string, Assignment)) {
    exists t <- truths :: p in t
  }

  ghost predicate InEvery(truths: seq<Truth>, p: (string, Assignment)) {
    forall t <- truths :: p in t
  }

  ghost function AnyOf(truths: seq<Truth>): Truth {
    iset p: (string, Assignment) | InSome(truths, p)
  }

  ghost function AllOf(truths: seq<Truth>): Truth {
    iset p: (string, Assignment) | truths != [] && InEvery(truths, p)
  }

  /** The first holds and none of the others does. */
  ghost function FirstOnly(first: Truth, others: seq<Truth>): Truth {
    iset p: (string, Assignment) | p in first && !InSome(others, p)
  }

  /** Every child result that is not an error answers its own problem. */
  ghost predicate AllAnswer(results: seq<CheckResult>, ids: set<string>, truths: seq<Truth>, setting: ResultsSetting) {
    && |results| == |truths|
    && forall i | 0 <= i < |results| :: results[i].Checked? ==> Answers(results[i].results, ids, truths[i], setting)
  }

  /** For a single id the two settings ask for the same thing. */
  lemma SingleResultIsAll(results: ResultsMap, id: string, truth: Truth)
    requires Answers(results, {id}, truth, ALLOW_SINGLE_RESULT)
    ensures Answers(results, {id}, truth, REQUIRE_ALL_RESULTS)
  {
  }

  lemma AnswersWeaken(results: ResultsMap, ids: set<string>, truth: Truth, setting: ResultsSetting)
    requires Answers(results, ids, truth, REQUIRE_ALL_RESULTS)
    ensures Answers(results, ids, truth, setting)
  {
  }

  /** Complete answers to one problem denote the same members, so neither the order in which
      child results arrived nor an early exit shows in them. */
  lemma AnswersAgree(first: ResultsMap, second: ResultsMap, ids: set<string>, truth: Truth)
    requires Answers(first, ids, truth, REQUIRE_ALL_RESULTS) && Answers(second, ids, truth, REQUIRE_ALL_RESULTS)
    ensures forall a, id :: Reports(first, a, id) <==> Reports(second, a, id)
  {
  }

  lemma Picked<T>(xs: seq<T>, k: nat)
    requires k < |xs|
    ensures multiset(xs) == multiset{xs[k]} + multiset(xs[..k] + xs[k + 1..])
    ensures forall x :: x in xs <==> x == xs[k] || x in xs[..k] + xs[k + 1..]
  {
    assert xs == xs[..k] + [xs[k]] + xs[k + 1..];
  }

  lemma OneArrives(arrived: seq<CheckResult>, arrivedTruths: seq<Truth>, waiting: seq<CheckResult>,
                   waitingTruths: seq<Truth>, k: nat, ids: set<string>, setting: ResultsSetting)
    requires AllAnswer(arrived, ids, arrivedTruths, setting) && AllAnswer(waiting, ids, waitingTruths, setting)
    requires k < |waiting|
    ensures AllAnswer(arrived + [waiting[k]], ids, arrivedTruths + [waitingTruths[k]], setting)
    ensures AllAnswer(waiting[..k] + waiting[k + 1..], ids, waitingTruths[..k] + waitingTruths[k + 1..], setting)
  {
  }

  /** Results in the order in which they arrive: any permutation of the children. */
  method Arrive(results: seq<CheckResult>, ghost ids: set<string>, ghost truths: seq<Truth>,
                ghost setting: ResultsSetting)
    returns (arrived: seq<CheckResult>, ghost arrivedTruths: seq<Truth>)
    requires AllAnswer(results, ids, truths, setting)
    ensures multiset(arrived) == multiset(results) && |arrived| == |results|
    ensures Failed in arrived <==> Failed in results
    ensures AllAnswer(arrived, ids, arrivedTruths, setting)
    ensures forall t :: t in arrivedTruths <==> t in truths
  {
    arrived, arrivedTruths := [], [];
    var waiting := results;
    ghost var waitingTruths := truths;
    while waiting != []
      invariant AllAnswer(arrived, ids, arrivedTruths, setting) && AllAnswer(waiting, ids, waitingTruths, setting)
      invariant multiset(arrived) + multiset(waiting) == multiset(results)
      invariant |arrived| + |waiting| == |results|
      invariant forall t :: t in arrivedTruths || t in waitingTruths <==> t in truths
    {
      var k :| 0 <= k < |waiting|;
      Picked(waiting, k);
      Picked(waitingTruths, k);
      OneArrives(arrived, arrivedTruths, waiting, waitingTruths, k, ids, setting);
      arrived, arrivedTruths := arrived + [waiting[k]], arrivedTruths + [waitingTruths[k]];
      waiting, waitingTruths := waiting[..k] + waiting[k + 1..], waitingTruths[..k] + waitingTruths[k + 1..];
    }
    assert Failed in multiset(arrived) <==> Failed in multiset(results);
  }

  /** A failure arrives at `n`, and everything before it was a result. */
  ghost predicate FailsAt(arrived: seq<CheckResult>, n: nat) {
    n < |arrived| && arrived[n].Failed? && forall i | 0 <= i < n :: arrived[i].Checked?
  }

  /** No certain member arrives before `n`. */
  ghost predicate NoneCertain(arrived: seq<CheckResult>, n: nat) {
    forall i | 0 <= i < n && i < |arrived| && arrived[i].Checked? :: !Determined(arrived[i].results)
  }

  /** Some id is reported by everything that arrives before `n`. */
  ghost predicate SomeCommon(arrived: seq<CheckResult>, n: nat) {
    exists id :: InEach(arrived, n, id)
  }

  ghost predicate InEach(arrived: seq<CheckResult>, n: nat, id: string) {
    forall i | 0 <= i < n && i < |arrived| && arrived[i].Checked? :: id in arrived[i].results
  }

  /** Some id of the base is reported as certain by nothing that arrives before `n`. */
  ghost predicate SomeRemains(base: ResultsMap, arrived: seq<CheckResult>, n: nat) {
    exists id <- base ::
      forall i | 0 <= i < n && i < |arrived| && arrived[i].Checked? :: !ReportsAlways(arrived[i].results, id)
  }

  /** Union. It fails exactly when a failure arrives before the result is decided: at all when all
      results are required, and before any certain member when one is enough. */
  method Union(arrived: seq<CheckResult>, setting: ResultsSetting, ghost ids: set<string>, ghost truths: seq<Truth>)
    returns (r: CheckResult)
    requires AllAnswer(arrived, ids, truths, setting)
    ensures r.Checked? ==> Answers(r.results, ids, AnyOf(truths), setting)
    ensures r.Failed? <==>
            exists n: nat :: FailsAt(arrived, n) && (setting == ALLOW_SINGLE_RESULT ==> NoneCertain(arrived, n))
    ensures r.Failed? ==> Failed in arrived
  {
    if |arrived| == 0 {
      return Checked(map[]);
    }
    if |arrived| == 1 {
      assert truths == [truths[0]];
      assert AnyOf(truths) == truths[0];
      assert arrived[0].Failed? ==> FailsAt(arrived, 0);
      return arrived[0];
    }
    var found := new MembershipSet();
    for n := 0 to |arrived|
      invariant Failed !in arrived[..n]
      invariant fresh(found) && found.Valid() && found.membersByID.Keys <= ids
      invariant forall a, id :: Membership.Listed(found.membersByID, a, id) ==> (id, a) in AnyOf(truths)
      invariant forall i | 0 <= i < n :: arrived[i].Checked? && Includes(found.membersByID, arrived[i].results)
      invariant (exists i | 0 <= i < n :: Determined(arrived[i].results)) <==> found.hasDeterminedMember
      invariant setting == ALLOW_SINGLE_RESULT ==> !found.hasDeterminedMember
    {
      var result := arrived[n];
      if result.Failed? {
        assert FailsAt(arrived, n) && (setting == ALLOW_SINGLE_RESULT ==> NoneCertain(arrived, n));
        return Failed;
      }
      ghost var was := found.membersByID;
      found.UnionWith(result.results);
      UnionKeeps(was, result.results, found.membersByID);
      assert truths[n] in truths;
      if found.hasDeterminedMember && setting == ALLOW_SINGLE_RESULT {
        var results := found.AsCheckResultsMap();
        return Checked(results);
      }
      assert arrived[..n + 1] == arrived[..n] + [arrived[n]];
    }
    assert arrived[..|arrived|] == arrived;
    var results := found.AsCheckResultsMap();
    r := Checked(results);
    UnionComplete(arrived, ids, truths, setting, found.membersByID);
  }

  /** When nothing was cut short the members are all that some child has. */
  lemma UnionComplete(arrived: seq<CheckResult>, ids: set<string>, truths: seq<Truth>, setting: ResultsSetting,
                      members: map<string, Condition>)
    requires AllAnswer(arrived, ids, truths, setting)
    requires forall i | 0 <= i < |arrived| :: arrived[i].Checked? && Includes(members, arrived[i].results)
    requires setting == ALLOW_SINGLE_RESULT ==> forall i | 0 <= i < |arrived| :: !Determined(arrived[i].results)
    ensures forall a, id | id in ids && (id, a) in AnyOf(truths) :: Listed(members, a, id)
  {
    forall a, id | id in ids && (id, a) in AnyOf(truths) ensures Listed(members, a, id) {
      var t :| t in truths && (id, a) in t;
      var i :| 0 <= i < |truths| && truths[i] == t;
      assert Complete(arrived[i].results, ids, truths[i]);
    }
  }

  /** Intersection. More than one child is always asked for all results; a single child is
      asked with the caller's own setting. It fails exactly when a failure arrives while something
      is left in common. */
  method All(arrived: seq<CheckResult>, ghost setting: ResultsSetting, ghost ids: set<string>, ghost truths: seq<Truth>)
    returns (r: CheckResult)
    requires AllAnswer(arrived, ids, truths, if |arrived| > 1 then REQUIRE_ALL_RESULTS else setting)
    ensures r.Checked? ==> Answers(r.results, ids, AllOf(truths), setting)
    ensures r.Failed? <==> exists n: nat :: FailsAt(arrived, n) && (n > 0 ==> SomeCommon(arrived, n))
    ensures r.Failed? ==> Failed in arrived
  {
    if |arrived| == 0 {
      return Checked(map[]);
    }
    if |arrived| == 1 {
      assert truths == [truths[0]];
      assert AllOf(truths) == truths[0];
      assert arrived[0].Failed? ==> FailsAt(arrived, 0);
      return arrived[0];
    }
    var found := new MembershipSet();
    for n := 0 to |arrived|
      invariant fresh(found) && found.Valid() && found.membersByID.Keys <= ids
      invariant n == 0 ==> found.membersByID == map[]
      invariant n > 0 ==> found.membersByID != map[] && CommonKeys(arrived, n, found.membersByID)
      invariant forall i | 0 <= i < n :: arrived[i].Checked?
      invariant n > 0 ==> InCommon(arrived[..n], found.membersByID)
    {
      var result := arrived[n];
      if result.Failed? {
        FailsInCommon(arrived, n, found.membersByID);
        return Failed;
      }
      ghost var was := found.membersByID;
      if n == 0 {
        found.UnionWith(result.results);
        UnionKeeps(was, result.results, found.membersByID);
        FirstKeys(was, result.results, found.membersByID);
        assert arrived[..1] == [result];
      } else {
        found.IntersectWith(result.results);
        InCommonStep(arrived, n, was, found.membersByID);
        CommonKeysStep(arrived, n, was, found.membersByID);
      }
      if found.membersByID == map[] {
        NothingCommon(arrived, n + 1, found.membersByID);
        InCommonAnswers(arrived, n + 1, found.membersByID, ids, truths);
        return Checked(map[]);
      }
    }
    assert arrived[..|arrived|] == arrived;
    InCommonAnswers(arrived, |arrived|, found.membersByID, ids, truths);
    var results := found.AsCheckResultsMap();
    r := Checked(results);
  }

  /** The members are those that every result reports. */
  ghost predicate InCommon(results: seq<CheckResult>, members: map<string, Condition>) {
    forall a, id :: Listed(members, a, id) <==> ReportedByEvery(results, a, id)
  }

  ghost predicate ReportedByEvery(results: seq<CheckResult>, a: Assignment, id: string) {
    forall r <- results :: r.Checked? && Reports(r.results, a, id)
  }

  /** The ids in the set are those in every result so far. */
  ghost predicate CommonKeys(arrived: seq<CheckResult>, n: nat, members: map<string, Condition>) {
    && n <= |arrived| && (forall i | 0 <= i < n :: arrived[i].Checked?)
    && forall id :: id in members <==> InEach(arrived, n, id)
  }

  lemma FirstKeys(was: map<string, Condition>, results: ResultsMap, now: map<string, Condition>)
    requires was == map[] && MembersOnly(results) && forall id :: EntryUnioned(was, results, now, id)
    ensures now.Keys == results.Keys
  {
    forall id ensures id in now <==> id in results {
      assert EntryUnioned(was, results, now, id);
    }
  }

  lemma CommonKeysStep(arrived: seq<CheckResult>, n: nat, was: map<string, Condition>, now: map<string, Condition>)
    requires n < |arrived| && arrived[n].Checked? && MembersOnly(arrived[n].results) && CommonKeys(arrived, n, was)
    requires forall id :: EntryIntersected(was, arrived[n].results, now, id)
    ensures CommonKeys(arrived, n + 1, now)
  {
    forall id ensures id in now <==> InEach(arrived, n + 1, id) {
      assert InEach(arrived, n, id) <==> id in was;
      assert EntryIntersected(was, arrived[n].results, now, id);
    }
  }

  lemma FailsInCommon(arrived: seq<CheckResult>, n: nat, members: map<string, Condition>)
    requires n < |arrived| && arrived[n].Failed? && forall i | 0 <= i < n :: arrived[i].Checked?
    requires n > 0 ==> members != map[] && CommonKeys(arrived, n, members)
    ensures FailsAt(arrived, n) && (n > 0 ==> SomeCommon(arrived, n))
  {
    if n > 0 {
      assert members.Keys != {};
      var id :| id in members.Keys;
      assert InEach(arrived, n, id);
    }
  }

  lemma NothingCommon(arrived: seq<CheckResult>, n: nat, members: map<string, Condition>)
    requires n > 0 && members == map[] && CommonKeys(arrived, n, members)
    ensures forall m: nat :: FailsAt(arrived, m) ==> m > 0 && !SomeCommon(arrived, m)
  {
    forall m: nat | FailsAt(arrived, m) ensures m > 0 && !SomeCommon(arrived, m) {
      assert m >= n;
      assert forall id :: InEach(arrived, m, id) ==> InEach(arrived, n, id);
    }
  }

  lemma InCommonStep(arrived: seq<CheckResult>, n: nat, was: map<string, Condition>, now: map<string, Condition>)
    requires n < |arrived| && arrived[n].Checked? && InCommon(arrived[..n], was)
    requires forall id :: EntryIntersected(was, arrived[n].results, now, id)
    requires forall a, id :: Listed(now, a, id) <==> Listed(was, a, id) && Reports(arrived[n].results, a, id)
    ensures InCommon(arrived[..n + 1], now) && now.Keys <= was.Keys
  {
    assert arrived[..n + 1] == arrived[..n] + [arrived[n]];
    assert forall a, id :: ReportedByEvery(arrived[..n + 1], a, id) <==>
        ReportedByEvery(arrived[..n], a, id) && Reports(arrived[n].results, a, id);
    forall id | id in now ensures id in was {
      assert EntryIntersected(was, arrived[n].results, now, id);
    }
  }

  /** When all were intersected, or nothing is left, the members are the truth of the conjunction. */
  lemma InCommonAnswers(arrived: seq<CheckResult>, n: nat, members: map<string, Condition>, ids: set<string>,
                        truths: seq<Truth>)
    requires AllAnswer(arrived, ids, truths, REQUIRE_ALL_RESULTS)
    requires 0 < n <= |arrived| && (forall i | 0 <= i < n :: arrived[i].Checked?) && InCommon(arrived[..n], members)
    requires n == |arrived| || members == map[]
    ensures forall a, id | id in ids :: Listed(members, a, id) <==> (id, a) in AllOf(truths)
  {
  }

  /** Exclusion: the base result first, then the subtracted results as they arrive. It fails exactly
      when the base does, or when a failure arrives while something of the base is left. */
  method Difference(base: CheckResult, arrived: seq<CheckResult>, ghost setting: ResultsSetting,
                    ghost ids: set<string>, ghost baseTruth: Truth, ghost truths: seq<Truth>)
    returns (r: CheckResult)
    requires base.Checked? ==> Answers(base.results, ids, baseTruth, REQUIRE_ALL_RESULTS)
    requires AllAnswer(arrived, ids, truths, REQUIRE_ALL_RESULTS)
    ensures r.Checked? ==> Answers(r.results, ids, FirstOnly(baseTruth, truths), setting)
    ensures r.Failed? <==>
            base.Failed? || exists n: nat :: FailsAt(arrived, n) && SomeRemains(base.results, arrived, n)
    ensures r.Failed? ==> base.Failed? || Failed in arrived
  {
    if base.Failed? {
      return Failed;
    }
    var found := new MembershipSet();
    ghost var empty := found.membersByID;
    found.UnionWith(base.results);
    UnionKeeps(empty, base.results, found.membersByID);
    FirstKeys(empty, base.results, found.membersByID);
    assert Remaining(base.results, [], found.membersByID);
    if found.membersByID == map[] {
      RemainingAnswers(base.results, arrived, 0, found.membersByID, ids, baseTruth, truths);
      NothingRemains(base.results, arrived, 0, found.membersByID);
      return Checked(map[]);
    }
    for n := 0 to |arrived|
      invariant fresh(found) && found.Valid() && found.membersByID.Keys <= ids
      invariant forall i | 0 <= i < n :: arrived[i].Checked?
      invariant Remaining(base.results, arrived[..n], found.membersByID)
      invariant found.membersByID != map[] && RemainingKeys(base.results, arrived, n, found.membersByID)
    {
      var sub := arrived[n];
      if sub.Failed? {
        FailsWhileSomeRemains(base.results, arrived, n, found.membersByID);
        return Failed;
      }
      ghost var was := found.membersByID;
      found.Subtract(sub.results);
      RemainingStep(base.results, arrived, n, was, found.membersByID);
      RemainingKeysStep(base.results, arrived, n, was, found.membersByID);
      if found.membersByID == map[] {
        RemainingAnswers(base.results, arrived, n + 1, found.membersByID, ids, baseTruth, truths);
        NothingRemains(base.results, arrived, n + 1, found.membersByID);
        return Checked(map[]);
      }
    }
    RemainingAnswers(base.results, arrived, |arrived|, found.membersByID, ids, baseTruth, truths);
    var results := found.AsCheckResultsMap();
    r := Checked(results);
  }

  /** The members are those of the base that no subtracted result reports. */
  ghost predicate Remaining(base: ResultsMap, subtracted: seq<CheckResult>, members: map<string, Condition>) {
    forall a, id :: Listed(members, a, id) <==> Reports(base, a, id) && !ReportedBySome(subtracted, a, id)
  }

  ghost predicate ReportedBySome(results: seq<CheckResult>, a: Assignment, id: string) {
    exists r <- results :: r.Checked? && Reports(r.results, a, id)
  }

  /** The ids in the set are those of the base that no result so far reports as certain. */
  ghost predicate RemainingKeys(base: ResultsMap, arrived: seq<CheckResult>, n: nat, members: map<string, Condition>) {
    && n <= |arrived| && (forall i | 0 <= i < n :: arrived[i].Checked?)
    && forall id :: id in members <==>
         id in base && forall i | 0 <= i < n :: !ReportsAlways(arrived[i].results, id)
  }

  lemma RemainingKeysStep(base: ResultsMap, arrived: seq<CheckResult>, n: nat, was: map<string, Condition>,
                          now: map<string, Condition>)
    requires n < |arrived| && arrived[n].Checked? && RemainingKeys(base, arrived, n, was)
    requires forall id :: EntrySubtracted(was, arrived[n].results, now, id)
    ensures RemainingKeys(base, arrived, n + 1, now)
  {
    forall id
      ensures id in now <==> id in base && forall i | 0 <= i < n + 1 :: !ReportsAlways(arrived[i].results, id)
    {
      assert EntrySubtracted(was, arrived[n].results, now, id);
    }
  }

  lemma FailsWhileSomeRemains(base: ResultsMap, arrived: seq<CheckResult>, n: nat, members: map<string, Condition>)
    requires n < |arrived| && arrived[n].Failed? && members != map[] && RemainingKeys(base, arrived, n, members)
    ensures FailsAt(arrived, n) && SomeRemains(base, arrived, n)
  {
    assert members.Keys != {};
    var id :| id in members.Keys;
  }

  lemma NothingRemains(base: ResultsMap, arrived: seq<CheckResult>, n: nat, members: map<string, Condition>)
    requires members == map[] && RemainingKeys(base, arrived, n, members)
    ensures forall m: nat :: FailsAt(arrived, m) ==> !SomeRemains(base, arrived, m)
  {
    forall m: nat | FailsAt(arrived, m) ensures !SomeRemains(base, arrived, m) {
      assert m >= n;
    }
  }

  lemma RemainingStep(base: ResultsMap, arrived: seq<CheckResult>, n: nat, was: map<string, Condition>,
                      now: map<string, Condition>)
    requires n < |arrived| && arrived[n].Checked? && Remaining(base, arrived[..n], was)
    requires forall id :: EntrySubtracted(was, arrived[n].results, now, id)
    requires forall a, id :: Listed(now, a, id) <==> Listed(was, a, id) && !Reports(arrived[n].results, a, id)
    ensures Remaining(base, arrived[..n + 1], now) && now.Keys <= was.Keys
  {
    assert arrived[..n + 1] == arrived[..n] + [arrived[n]];
    assert forall a, id :: ReportedBySome(arrived[..n + 1], a, id) <==>
        ReportedBySome(arrived[..n], a, id) || Reports(arrived[n].results, a, id);
    forall id | id in now ensures id in was {
      assert EntrySubtracted(was, arrived[n].results, now, id);
    }
  }

  /** When all were subtracted, or nothing is left, what remains is the truth of the exclusion. */
  lemma RemainingAnswers(base: ResultsMap, arrived: seq<CheckResult>, n: nat, members: map<string, Condition>,
                         ids: set<string>, baseTruth: Truth, truths: seq<Truth>)
    requires Answers(base, ids, baseTruth, REQUIRE_ALL_RESULTS) && AllAnswer(arrived, ids, truths, REQUIRE_ALL_RESULTS)
    requires n <= |arrived| && (forall i | 0 <= i < n :: arrived[i].Checked?) && Remaining(base, arrived[..n], members)
    requires n == |arrived| || members == map[]
    ensures forall a, id | id in ids :: Listed(members, a, id) <==> (id, a) in FirstOnly(baseTruth, truths)
  {
  }

  /** The set has every member of these results. */
  ghost predicate Includes(members: map<string, Condition>, results: ResultsMap) {
    forall a, id :: Reports(results, a, id) ==> Listed(members, a, id)
  }

  lemma UnionKeeps(was: map<string, Condition>, results: ResultsMap, now: map<string, Condition>)
    requires forall id :: EntryUnioned(was, results, now, id)
    ensures forall a, id :: Listed(now, a, id) <==> Listed(was, a, id) || Reports(results, a, id)
    ensures now.Keys <= was.Keys + results.Keys
    ensures (exists id <- was :: was[id].Always?) || Determined(results) <==> exists id <- now :: now[id].Always?
  {
    forall a, id ensures Listed(now, a, id) <==> Listed(was, a, id) || Reports(results, a, id) {
      assert EntryUnioned(was, results, now, id);
    }
    forall id | id in now ensures id in was || id in results {
      assert EntryUnioned(was, results, now, id);
    }
    if id :| id in now && now[id].Always? {
      assert EntryUnioned(was, results, now, id);
      assert (id in was && was[id].Always?) || ReportsAlways(results, id);
    }
    if id :| id in was && was[id].Always? {
      assert EntryUnioned(was, results, now, id);
    } else if Determined(results) {
      var id :| id in results && ReportsAlways(results, id);
      assert EntryUnioned(was, results, now, id);
    }
  }
}
