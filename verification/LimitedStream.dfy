/** Results of parallel tasks, published to a parent stream in task order under one limit.

    The first task publishes straight to the parent; the others collect their results, which
    are published when all earlier tasks have completed. Every task works under a copy of the
    limit taken when it starts. Any number of tasks may be between any two of their steps. */
module LimitedStream {
  import opened Common
  import opened LimitTrackers

  /** The stream's own fields, guarded by its lock. */
  datatype Stream<T> = Stream(
    limits: Limits,
    parent: seq<T>,
    published: nat,
    toPublish: nat,
    completed: set<nat>,
    collected: map<nat, seq<T>>,
    registered: set<nat>,
    canceled: set<nat>)

  function CancelRemaining<T>(s: Stream<T>): Stream<T> {
    s.(canceled := s.canceled + s.registered)
  }

  /** Publishes collected results while the limit lasts; false when it ran out. */
  function PublishAll<T>(s: Stream<T>, results: seq<T>): (Stream<T>, bool)
    decreases |results|
  {
    if results == [] then (s, true)
    else if !s.limits.Allows(1) then (CancelRemaining(s), false)
    else PublishAll(s.(limits := s.limits.Less(1), parent := s.parent + [results[0]]), results[1..])
  }

  /** Publishing is cutting at the limit. */
  lemma {:induction false} PublishAllCuts<T>(s: Stream<T>, results: seq<T>)
    ensures var cut := s.limits.Cut(results);
            var now := s.(limits := s.limits.Less(|cut|), parent := s.parent + cut);
            PublishAll(s, results) == if |cut| == |results| then (now, true) else (CancelRemaining(now), false)
    decreases |results|
  {
    var cut := s.limits.Cut(results);
    if results == [] {
      assert s.parent + cut == s.parent;
    } else if !s.limits.Allows(1) {
      assert s.parent + cut == s.parent;
    } else {
      var next := s.(limits := s.limits.Less(1), parent := s.parent + [results[0]]);
      PublishAllCuts(next, results[1..]);
      assert cut == [results[0]] + next.limits.Cut(results[1..]);
      assert s.parent + cut == next.parent + next.limits.Cut(results[1..]);
    }
  }

  /** Completed tasks that are still to be published. */
  function Ahead<T>(s: Stream<T>): set<nat> {
    set i <- s.completed | i >= s.toPublish
  }

  lemma AheadShrinks<T>(s: Stream<T>, next: Stream<T>)
    requires s.toPublish in s.completed && next.completed == s.completed && next.toPublish == s.toPublish + 1
    ensures Ahead(next) < Ahead(s)
  {
    assert s.toPublish in Ahead(s) && s.toPublish !in Ahead(next);
  }

  /** The results of the first task have gone straight to the parent and are now accounted for. */
  function FirstAccounted<T>(s: Stream<T>): Stream<T>
    requires s.limits.Allows(s.published)
  {
    var marked := s.(limits := s.limits.Less(s.published));
    (if marked.limits.Exhausted() then CancelRemaining(marked) else marked).(toPublish := 1)
  }

  /** Publishes the results of completed tasks, from the next task to be published onwards. */
  function PublishReady<T>(s: Stream<T>): Result<Stream<T>>
    decreases Ahead(s)
  {
    if s.toPublish !in s.completed then
      Ok(s)
    else if s.toPublish == 0 then
      if !s.limits.Allows(s.published) then Err
      else
        AheadShrinks(s, FirstAccounted(s));
        PublishReady(FirstAccounted(s))
    else
      PublishAllCuts(s, CollectedBy(s.collected, s.toPublish));
      var (published, all) := PublishAll(s, CollectedBy(s.collected, s.toPublish));
      if !all then Ok(published)
      else
        var next := published.(collected := published.collected - {s.toPublish}, toPublish := s.toPublish + 1);
        AheadShrinks(s, next);
        PublishReady(next)
  }

  /** The results a task has collected. */
  function CollectedBy<T>(collected: map<nat, seq<T>>, i: nat): seq<T> {
    if i in collected then collected[i] else []
  }

  function CompletedTaskIndex<T>(s: Stream<T>, index: nat): Result<Stream<T>> {
    var marked := s.(completed := s.completed + {index});
    if marked.limits.Exhausted() then Ok(CancelRemaining(marked)) else PublishReady(marked)
  }

  /** The first task is complete and has used up the limit. */
  ghost predicate FirstUsesUp<T>(s: Stream<T>) {
    && s.toPublish == 0 && 0 in s.completed
    && s.limits.Allows(s.published) && s.limits.Less(s.published).Exhausted()
  }

  lemma {:induction false} PublishCancels<T>(s: Stream<T>)
    requires PublishReady(s).Ok?
    ensures var now := PublishReady(s).value;
            && now.registered == s.registered && now.completed == s.completed
            && now.canceled ==
               s.canceled + if FirstUsesUp(s) || now.toPublish in now.completed then s.registered else {}
    decreases Ahead(s)
  {
    if s.toPublish in s.completed {
      if s.toPublish == 0 {
        AheadShrinks(s, FirstAccounted(s));
        PublishCancels(FirstAccounted(s));
      } else {
        PublishAllCuts(s, CollectedBy(s.collected, s.toPublish));
        var (published, all) := PublishAll(s, CollectedBy(s.collected, s.toPublish));
        if all {
          var next := published.(collected := published.collected - {s.toPublish}, toPublish := s.toPublish + 1);
          AheadShrinks(s, next);
          PublishCancels(next);
        }
      }
    }
  }

  /** Reporting completion cancels every registered task exactly when the limit was used up before, the
      first task has used it up, or some result did not fit any more; and no task otherwise. */
  lemma CancelsExactlyWhen<T>(s: Stream<T>, index: nat)
    requires CompletedTaskIndex(s, index).Ok?
    ensures var now := CompletedTaskIndex(s, index).value;
            && now.registered == s.registered && now.completed == s.completed + {index}
            && now.canceled == s.canceled +
               if || s.limits.Exhausted() || FirstUsesUp(s.(completed := s.completed + {index}))
                  || now.toPublish in now.completed
               then s.registered else {}
  {
    if !s.limits.Exhausted() {
      PublishCancels(s.(completed := s.completed + {index}));
    }
  }

  /** Otherwise the tasks that still run are not canceled, also when a later task has used up the limit:
      here the second of three does, exactly, and the third goes on. */
  lemma UsedUpWitness<T>(item: T) returns (s: Stream<T>)
    ensures CompletedTaskIndex(s, 1).Ok? && !s.limits.Exhausted() && 2 in s.registered
    ensures var now := CompletedTaskIndex(s, 1).value; now.limits.Exhausted() && now.canceled == {}
  {
    s := Stream(Limits(true, 1), [], 0, 1, {0}, map[1 := [item], 2 := []], {0, 1, 2}, {});
    var marked := s.(completed := {0, 1});
    assert s.completed + {1} == {0, 1};
    PublishAllCuts(marked, [item]);
    var published := marked.(limits := Limits(true, 0), parent := [item]);
    assert marked.limits.Cut([item]) == [item] && [] + [item] == [item];
    assert PublishAll(marked, [item]) == (published, true);
    var next := published.(collected := published.collected - {1}, toPublish := 2);
    AheadShrinks(marked, next);
    assert PublishReady(next) == Ok(next);
  }

  class ParallelLimitedIndexedStream<T> {
    const limits: LimitTracker
    var parent: seq<T>
    var published: nat
    var toPublishTaskIndex: nat
    var completedTaskIndexes: set<nat>
    var childStreams: map<nat, seq<T>>
    var childContexts: set<nat>
    var canceled: set<nat>

    constructor (limits: LimitTracker)
      ensures this.limits == limits
      ensures View() == Stream(limits.View(), [], 0, 0, {}, map[], {}, {})
    {
      this.limits := limits;
      parent, published, toPublishTaskIndex := [], 0, 0;
      completedTaskIndexes, childStreams, childContexts, canceled := {}, map[], {}, {};
    }

    /** A stream for at least one task. */
    static method New(limits: LimitTracker, streamCount: int) returns (r: Result<ParallelLimitedIndexedStream<T>>)
      ensures r.Err? <==> streamCount <= 0
      ensures r.Ok? ==>
              && fresh(r.value) && r.value.limits == limits
              && r.value.View() == InitWorld(limits.View(), 0).stream
    {
      if streamCount <= 0 {
        return Err;
      }
      var stream := new ParallelLimitedIndexedStream<T>(limits);
      r := Ok(stream);
    }

    function View(): Stream<T>
      reads this, limits
    {
      Stream(limits.View(), parent, published, toPublishTaskIndex, completedTaskIndexes, childStreams, childContexts,
             canceled)
    }

    method CancelRemainingDispatches()
      modifies this`canceled
      ensures View() == CancelRemaining(old(View()))
    {
      canceled := canceled + childContexts;
    }

    /** Publishes the results of one task until the limit is reached. */
    method PublishResults(results: seq<T>) returns (all: bool)
      modifies this, limits
      ensures (View(), all) == PublishAll(old(View()), results)
    {
      for i := 0 to |results|
        invariant PublishAll(View(), results[i..]) == PublishAll(old(View()), results)
      {
        assert results[i..][1..] == results[i + 1..];
        var okay := limits.PrepareForPublishing();
        if !okay {
          CancelRemainingDispatches();
          return false;
        }
        parent := parent + [results[i]];
      }
      return true;
    }

    method TaskCompleted(index: nat) returns (r: Result<()>)
      modifies this, limits
      ensures match CompletedTaskIndex(old(View()), index)
              case Ok(now) => r.Ok? && View() == now
              case Err => r.Err? && View() == old(View()).(completed := old(View()).completed + {index})
    {
      completedTaskIndexes := completedTaskIndexes + {index};
      var exhausted := limits.HasExhaustedLimit();
      if exhausted {
        CancelRemainingDispatches();
        return Ok(());
      }
      ghost var marked := View();
      while true
        invariant PublishReady(View()) == PublishReady(marked)
        invariant toPublishTaskIndex == 0 ==> View() == marked
        decreases Ahead(View())
      {
        ghost var before := View();
        if toPublishTaskIndex !in completedTaskIndexes {
          return Ok(());
        }
        assert toPublishTaskIndex in Ahead(before);
        if toPublishTaskIndex == 0 {
          var r' := limits.MarkAlreadyPublished(published);
          if r'.Err? {
            return Err;
          }
          exhausted := limits.HasExhaustedLimit();
          if exhausted {
            CancelRemainingDispatches();
          }
        } else {
          var all := PublishResults(CollectedBy(childStreams, toPublishTaskIndex));
          PublishAllCuts(before, CollectedBy(before.collected, before.toPublish));
          if !all {
            return Ok(());
          }
          childStreams := childStreams - {toPublishTaskIndex};
        }
        toPublishTaskIndex := toPublishTaskIndex + 1;
        assert before.toPublish !in Ahead(View());
      }
    }
  }

  // ---- Tasks and their steps.

  /** A task has looked at the limit (or was skipped by it), runs under its own copy, and ends
      by reporting completion or by being canceled. */
  datatype Phase = Waiting | Admitted | Skipped | Running(own: Limits) | Finished(cut: Limits) | Aborted

  datatype World<T> = World(stream: Stream<T>, phases: seq<Phase>)

  function InitWorld<T>(limits: Limits, n: nat): World<T> {
    World(Stream(limits, [], 0, 0, {}, map[], {}, {}), seq(n, _ => Waiting))
  }

  /** What task `i` has emitted so far. */
  ghost function Emitted<T>(w: World<T>, i: nat): seq<T> {
    if i == 0 then w.stream.parent[..if w.stream.published < |w.stream.parent| then w.stream.published
                                   else |w.stream.parent|]
    else CollectedBy(w.stream.collected, i)
  }

  /** A waiting task is skipped when the limit is already exhausted. */
  ghost predicate Look<T>(w: World<T>, i: nat, w': World<T>) {
    && i < |w.phases| && w.phases[i] == Waiting
    && w' == w.(phases := w.phases[i := if w.stream.limits.Exhausted() then Skipped else Admitted])
  }

  /** A task receives its stream and a copy of the limit. */
  ghost predicate Begin<T>(w: World<T>, i: nat, w': World<T>) {
    && i < |w.phases| && w.phases[i] == Admitted
    && w' == World(
         w.stream.(registered := w.stream.registered + {i},
                   collected := if i == 0 then w.stream.collected else w.stream.collected[i := []]),
         w.phases[i := Running(w.stream.limits)])
  }

  /** A running task publishes the next of its results, to the parent if it is the first task. */
  ghost predicate Emit<T>(outputs: seq<seq<T>>, w: World<T>, i: nat, w': World<T>) {
    && i < |w.phases| == |outputs| && w.phases[i].Running? && w.phases[i].own.Allows(1)
    && |Emitted(w, i)| < |outputs[i]|
    && var item := outputs[i][|Emitted(w, i)|];
       w' == World(
         if i == 0 then w.stream.(parent := w.stream.parent + [item], published := w.stream.published + 1)
         else w.stream.(collected := w.stream.collected[i := Emitted(w, i) + [item]]),
         w.phases[i := Running(w.phases[i].own.Less(1))])
  }

  /** A task that has emitted everything, or all its limit allows, reports completion. */
  ghost predicate Complete<T>(outputs: seq<seq<T>>, w: World<T>, i: nat, w': World<T>) {
    && i < |w.phases| == |outputs| && w.phases[i].Running?
    && (|Emitted(w, i)| == |outputs[i]| || w.phases[i].own.Exhausted())
    && CompletedTaskIndex(w.stream, i).Ok?
    && w' == World(CompletedTaskIndex(w.stream, i).value, w.phases[i := Finished(w.phases[i].own)])
  }

  /** A canceled task may stop without completing. */
  ghost predicate Abort<T>(w: World<T>, i: nat, w': World<T>) {
    && i < |w.phases| && w.phases[i].Running? && i in w.stream.canceled
    && w' == w.(phases := w.phases[i := Aborted])
  }

  ghost predicate TaskStep<T>(outputs: seq<seq<T>>, w: World<T>, i: nat, w': World<T>) {
    || Look(w, i, w') || Begin(w, i, w') || Emit(outputs, w, i, w') || Complete(outputs, w, i, w') || Abort(w, i, w')
  }

  ghost predicate Step<T>(outputs: seq<seq<T>>, w: World<T>, w': World<T>) {
    exists i: nat :: TaskStep(outputs, w, i, w')
  }

  ghost predicate Run<T>(outputs: seq<seq<T>>, limits: Limits, trace: seq<World<T>>) {
    && trace != [] && trace[0] == InitWorld(limits, |outputs|)
    && forall k | 0 <= k < |trace| - 1 :: Step(outputs, trace[k], trace[k + 1])
  }

  ghost predicate Settled(p: Phase) {
    p.Skipped? || p.Finished? || p.Aborted?
  }

  ghost predicate CanGoOn<T(!new)>(outputs: seq<seq<T>>, w: World<T>) {
    exists i: nat, w' :: TaskStep(outputs, w, i, w')
  }

  ghost predicate AllSettled(phases: seq<Phase>) {
    forall i | 0 <= i < |phases| :: Settled(phases[i])
  }

  // ---- The invariant.

  ghost function Concat<T>(outputs: seq<seq<T>>): seq<T> {
    if outputs == [] then [] else Concat(outputs[..|outputs| - 1]) + outputs[|outputs| - 1]
  }

  lemma ConcatOne<T>(outputs: seq<seq<T>>, k: nat)
    requires k < |outputs|
    ensures Concat(outputs[..k + 1]) == Concat(outputs[..k]) + outputs[k]
  {
    assert outputs[..k + 1][..k] == outputs[..k];
  }

  lemma {:induction false} ConcatPrefix<T>(outputs: seq<seq<T>>, k: nat)
    requires k <= |outputs|
    ensures Concat(outputs[..k]) <= Concat(outputs)
    decreases |outputs| - k
  {
    if k == |outputs| {
      assert outputs[..k] == outputs;
    } else {
      ConcatOne(outputs, k);
      ConcatPrefix(outputs, k + 1);
    }
  }

  /** A task not yet published has emitted a prefix of its output, under a limit that was no
      smaller than the one now left; a finished one has emitted all of it or exhausted that limit. */
  ghost predicate TaskOK<T>(output: seq<T>, left: Limits, phase: Phase, emitted: seq<T>) {
    && emitted <= output
    && match phase
       case Running(own) => own.hasLimit == left.hasLimit && left.currentLimit <= own.currentLimit + |emitted|
       case Finished(cut) =>
         && cut.hasLimit == left.hasLimit && left.currentLimit <= cut.currentLimit + |emitted|
         && (emitted == output || cut.Exhausted())
       case Aborted => true
       case _ => emitted == []
  }

  ghost predicate Bookkeeping<T>(outputs: seq<seq<T>>, w: World<T>) {
    && |w.phases| == |outputs| && w.stream.toPublish <= |outputs|
    && (forall i: nat :: i in w.stream.completed <==> i < |outputs| && w.phases[i].Finished?)
    && (forall i | 0 <= i < w.stream.toPublish :: w.phases[i].Finished?)
  }

  /** While the first task is not accounted for, the parent holds what it has emitted. */
  ghost predicate FirstOK<T>(outputs: seq<seq<T>>, limits: Limits, w: World<T>) {
    var s := w.stream;
    && s.limits == limits && s.published == |s.parent| && limits.Allows(|s.parent|)
    && (outputs == [] ==> s.parent == [])
    && (outputs != [] && w.phases != [] ==>
          && TaskOK(outputs[0], limits, w.phases[0], s.parent)
          && (w.phases[0].Running? ==> w.phases[0].own == limits.Less(|s.parent|))
          && (w.phases[0].Finished? ==> w.phases[0].cut == limits.Less(|s.parent|)))
  }

  /** Afterwards it holds the outputs of all published tasks, up to the limit. */
  ghost predicate ParentOK<T>(outputs: seq<seq<T>>, limits: Limits, s: Stream<T>)
    requires s.toPublish <= |outputs|
  {
    && limits.Allows(|s.parent|) && s.parent <= Concat(outputs)
    && s.limits == limits.Less(|s.parent|) && (s.limits.Exhausted() || s.parent == Concat(outputs[..s.toPublish]))
  }

  ghost predicate EndsOK(left: Limits, phases: seq<Phase>, canceled: set<nat>) {
    && (canceled != {} ==> left.Exhausted())
    && (forall p <- phases | p.Skipped? || p.Aborted? :: left.Exhausted())
  }

  ghost predicate LaterOK<T>(outputs: seq<seq<T>>, left: Limits, phases: seq<Phase>, collected: map<nat, seq<T>>,
                             toPublish: nat) {
    forall i | 1 <= i < |outputs| && i < |phases| && toPublish <= i ::
        TaskOK(outputs[i], left, phases[i], CollectedBy(collected, i))
  }

  /** Everything but the promise that no task is ready to be published. */
  ghost predicate LoopInv<T>(outputs: seq<seq<T>>, limits: Limits, w: World<T>) {
    var s := w.stream;
    && Bookkeeping(outputs, w)
    && (if s.toPublish == 0 then FirstOK(outputs, limits, w) else ParentOK(outputs, limits, s))
    && EndsOK(s.limits, w.phases, s.canceled)
    && LaterOK(outputs, s.limits, w.phases, s.collected, s.toPublish)
  }

  ghost predicate Inv<T>(outputs: seq<seq<T>>, limits: Limits, w: World<T>) {
    && LoopInv(outputs, limits, w)
    && (!w.stream.limits.Exhausted() ==> w.stream.toPublish !in w.stream.completed)
  }

  lemma InitInv<T>(outputs: seq<seq<T>>, limits: Limits)
    ensures Inv(outputs, limits, InitWorld(limits, |outputs|))
  {
  }

  /** Completed tasks are published without error, and the invariant comes out whole. */
  lemma {:induction false} PublishReadyInv<T>(outputs: seq<seq<T>>, limits: Limits, w: World<T>)
    requires LoopInv(outputs, limits, w)
    ensures PublishReady(w.stream).Ok?
    ensures Inv(outputs, limits, w.(stream := PublishReady(w.stream).value))
    decreases Ahead(w.stream), 1
  {
    var s := w.stream;
    if s.toPublish in s.completed {
      if s.toPublish == 0 {
        var next := FirstAccounted(s);
        AheadShrinks(s, next);
        FirstPublishedInv(outputs, limits, w);
        PublishReadyInv(outputs, limits, w.(stream := next));
      } else {
        PublishLaterInv(outputs, limits, w);
      }
    }
  }

  lemma {:induction false} PublishLaterInv<T>(outputs: seq<seq<T>>, limits: Limits, w: World<T>)
    requires LoopInv(outputs, limits, w) && w.stream.toPublish in w.stream.completed && w.stream.toPublish > 0
    ensures PublishReady(w.stream).Ok?
    ensures Inv(outputs, limits, w.(stream := PublishReady(w.stream).value))
    decreases Ahead(w.stream), 0
  {
    var s := w.stream;
    PublishOneInv(outputs, limits, w);
    PublishAllCuts(s, CollectedBy(s.collected, s.toPublish));
    var (published, all) := PublishAll(s, CollectedBy(s.collected, s.toPublish));
    if all {
      var next := published.(collected := published.collected - {s.toPublish}, toPublish := s.toPublish + 1);
      AheadShrinks(s, next);
      PublishReadyInv(outputs, limits, w.(stream := next));
    }
  }

  /** The first task's results are accounted for; its own limit was the whole limit. */
  lemma FirstPublishedInv<T>(outputs: seq<seq<T>>, limits: Limits, w: World<T>)
    requires LoopInv(outputs, limits, w) && w.stream.toPublish == 0 && 0 in w.stream.completed
    requires w.stream.limits.Allows(w.stream.published)
    ensures LoopInv(outputs, limits, w.(stream := FirstAccounted(w.stream)))
  {
    var next := FirstAccounted(w.stream);
    LimitsShrink(outputs, w.stream.limits, next.limits, w.phases, w.stream.collected, 0);
    assert Bookkeeping(outputs, w.(stream := next));
    FirstParentOK(outputs, limits, w);
  }

  lemma FirstParentOK<T>(outputs: seq<seq<T>>, limits: Limits, w: World<T>)
    requires outputs != [] && w.phases != [] && w.phases[0].Finished? && FirstOK(outputs, limits, w)
    requires w.stream.limits.Allows(w.stream.published)
    ensures ParentOK(outputs, limits, FirstAccounted(w.stream))
  {
    FirstOutput(outputs);
  }

  lemma FirstOutput<T>(outputs: seq<seq<T>>)
    requires outputs != []
    ensures outputs[0] <= Concat(outputs) && Concat(outputs[..1]) == outputs[0]
  {
  }

  /** One later task's results go out, whole or cut where the limit ends. */
  lemma PublishOneInv<T>(outputs: seq<seq<T>>, limits: Limits, w: World<T>)
    requires LoopInv(outputs, limits, w) && w.stream.toPublish in w.stream.completed && w.stream.toPublish > 0
    ensures var s := w.stream;
            var (published, all) := PublishAll(s, CollectedBy(s.collected, s.toPublish));
            if all then LoopInv(outputs, limits,
                                w.(stream := published.(collected := published.collected - {s.toPublish},
                                                        toPublish := s.toPublish + 1)))
            else LoopInv(outputs, limits, w.(stream := published)) && published.limits.Exhausted()
  {
    var s := w.stream;
    var k := s.toPublish;
    var results := CollectedBy(s.collected, k);
    PublishAllCuts(s, results);
    var (published, all) := PublishAll(s, results);
    ParentGrows(outputs, limits, s, w.phases[k], results);
    LimitsShrink(outputs, s.limits, published.limits, w.phases, s.collected, k);
    if all {
      var next := published.(collected := published.collected - {k}, toPublish := k + 1);
      assert LaterOK(outputs, next.limits, w.phases, next.collected, k + 1) by {
        forall i | 1 <= i < |outputs| && i < |w.phases| && k + 1 <= i
          ensures TaskOK(outputs[i], next.limits, w.phases[i], CollectedBy(next.collected, i))
        {
          assert CollectedBy(next.collected, i) == CollectedBy(s.collected, i);
        }
      }
    }
  }

  /** The parent stays a prefix of the concatenation when a finished task's results are cut to
      the limit that is left. */
  lemma ParentGrows<T>(outputs: seq<seq<T>>, limits: Limits, s: Stream<T>, phase: Phase, results: seq<T>)
    requires 0 < s.toPublish < |outputs| && ParentOK(outputs, limits, s)
    requires phase.Finished? && TaskOK(outputs[s.toPublish], s.limits, phase, results)
    ensures var cut := s.limits.Cut(results);
            var now := s.(limits := s.limits.Less(|cut|), parent := s.parent + cut);
            if |cut| == |results| then ParentOK(outputs, limits, now.(toPublish := s.toPublish + 1))
            else ParentOK(outputs, limits, now) && now.limits.Exhausted()
  {
    var k := s.toPublish;
    var cut := s.limits.Cut(results);
    ConcatOne(outputs, k);
    ConcatPrefix(outputs, k + 1);
    if s.limits.Exhausted() {
      assert cut == [];
      assert s.parent + cut == s.parent;
    } else {
      assert s.parent + cut <= Concat(outputs[..k + 1]);
    }
  }

  /** A smaller remaining limit asks less of the tasks. */
  lemma LimitsShrink<T>(outputs: seq<seq<T>>, left: Limits, less: Limits, phases: seq<Phase>,
                        collected: map<nat, seq<T>>, toPublish: nat)
    requires LaterOK(outputs, left, phases, collected, toPublish)
    requires less.hasLimit == left.hasLimit && less.currentLimit <= left.currentLimit
    ensures LaterOK(outputs, less, phases, collected, toPublish)
  {
  }

  lemma StepInv<T>(outputs: seq<seq<T>>, limits: Limits, w: World<T>, w': World<T>)
    requires Inv(outputs, limits, w) && Step(outputs, w, w')
    ensures Inv(outputs, limits, w')
  {
    var i: nat :| TaskStep(outputs, w, i, w');
    if Emit(outputs, w, i, w') {
      EmitInv(outputs, limits, w, i, w');
    } else if Complete(outputs, w, i, w') {
      CompleteInv(outputs, limits, w, i);
    } else if Begin(w, i, w') {
      BeginInv(outputs, limits, w, i, w');
    } else if Look(w, i, w') {
      PhaseInv(outputs, limits, w, i, w'.phases[i]);
    } else {
      PhaseInv(outputs, limits, w, i, Aborted);
    }
  }

  /** A task looks at the limit, or stops because it was canceled. */
  lemma PhaseInv<T>(outputs: seq<seq<T>>, limits: Limits, w: World<T>, i: nat, phase: Phase)
    requires Inv(outputs, limits, w) && i < |w.phases|
    requires || (w.phases[i] == Waiting && phase == Admitted)
             || (w.phases[i] == Waiting && phase == Skipped && w.stream.limits.Exhausted())
             || (w.phases[i].Running? && phase == Aborted && w.stream.canceled != {})
    ensures Inv(outputs, limits, w.(phases := w.phases[i := phase]))
  {
  }

  lemma BeginInv<T>(outputs: seq<seq<T>>, limits: Limits, w: World<T>, i: nat, w': World<T>)
    requires Inv(outputs, limits, w) && Begin(w, i, w')
    ensures Inv(outputs, limits, w')
  {
  }

  lemma EmitInv<T>(outputs: seq<seq<T>>, limits: Limits, w: World<T>, i: nat, w': World<T>)
    requires Inv(outputs, limits, w) && Emit(outputs, w, i, w')
    ensures Inv(outputs, limits, w')
  {
    assert i >= w.stream.toPublish;
    assert forall p <- w'.phases :: p == w'.phases[i] || p in w.phases;
    if i == 0 {
      EmitFirst(outputs, limits, w, w');
    } else {
      EmitLater(outputs, w, i, w');
    }
  }

  lemma EmitFirst<T>(outputs: seq<seq<T>>, limits: Limits, w: World<T>, w': World<T>)
    requires outputs != [] && w.phases != [] && FirstOK(outputs, limits, w) && Emit(outputs, w, 0, w')
    ensures FirstOK(outputs, limits, w')
    ensures LaterOK(outputs, w.stream.limits, w.phases, w.stream.collected, 0) ==>
            LaterOK(outputs, w.stream.limits, w'.phases, w.stream.collected, 0)
  {
  }

  lemma EmitLater<T>(outputs: seq<seq<T>>, w: World<T>, i: nat, w': World<T>)
    requires i > 0 && i >= w.stream.toPublish && Emit(outputs, w, i, w')
    requires LaterOK(outputs, w.stream.limits, w.phases, w.stream.collected, w.stream.toPublish)
    ensures LaterOK(outputs, w.stream.limits, w'.phases, w'.stream.collected, w.stream.toPublish)
  {
  }

  /** Reporting completion never fails, and keeps the invariant. */
  lemma CompleteInv<T>(outputs: seq<seq<T>>, limits: Limits, w: World<T>, i: nat)
    requires Inv(outputs, limits, w)
    requires i < |outputs| && w.phases[i].Running?
    requires |Emitted(w, i)| == |outputs[i]| || w.phases[i].own.Exhausted()
    ensures CompletedTaskIndex(w.stream, i).Ok?
    ensures Inv(outputs, limits, World(CompletedTaskIndex(w.stream, i).value, w.phases[i := Finished(w.phases[i].own)]))
  {
    var marked := World(w.stream.(completed := w.stream.completed + {i}), w.phases[i := Finished(w.phases[i].own)]);
    MarkedInv(outputs, limits, w, i);
    if !w.stream.limits.Exhausted() {
      PublishReadyInv(outputs, limits, marked);
    }
  }

  lemma MarkedInv<T>(outputs: seq<seq<T>>, limits: Limits, w: World<T>, i: nat)
    requires Inv(outputs, limits, w)
    requires i < |outputs| && w.phases[i].Running?
    requires |Emitted(w, i)| == |outputs[i]| || w.phases[i].own.Exhausted()
    ensures LoopInv(outputs, limits,
                    World(w.stream.(completed := w.stream.completed + {i}), w.phases[i := Finished(w.phases[i].own)]))
  {
    var marked := World(w.stream.(completed := w.stream.completed + {i}), w.phases[i := Finished(w.phases[i].own)]);
    assert i >= w.stream.toPublish;
    assert Bookkeeping(outputs, marked) && EndsOK(w.stream.limits, marked.phases, w.stream.canceled) by {
      assert forall p <- marked.phases :: p == marked.phases[i] || p in w.phases;
    }
    if i == 0 {
      assert Emitted(w, 0) == w.stream.parent;
    }
    MarkedLater(outputs, w, i);
  }

  lemma MarkedLater<T>(outputs: seq<seq<T>>, w: World<T>, i: nat)
    requires i < |outputs| == |w.phases| && w.phases[i].Running? && (i == 0 ==> w.stream.toPublish == 0)
    requires |Emitted(w, i)| == |outputs[i]| || w.phases[i].own.Exhausted()
    requires LaterOK(outputs, w.stream.limits, w.phases, w.stream.collected, w.stream.toPublish)
    ensures LaterOK(outputs, w.stream.limits, w.phases[i := Finished(w.phases[i].own)], w.stream.collected,
                    w.stream.toPublish)
  {
  }

  lemma RunFront<T>(outputs: seq<seq<T>>, limits: Limits, trace: seq<World<T>>)
    requires Run(outputs, limits, trace) && |trace| > 1
    ensures Run(outputs, limits, trace[..|trace| - 1]) && Step(outputs, trace[|trace| - 2], trace[|trace| - 1])
  {
  }

  lemma {:induction false} RunInv<T>(outputs: seq<seq<T>>, limits: Limits, trace: seq<World<T>>)
    requires Run(outputs, limits, trace)
    ensures Inv(outputs, limits, trace[|trace| - 1])
    decreases |trace|
  {
    if |trace| == 1 {
      InitInv(outputs, limits);
    } else {
      RunFront(outputs, limits, trace);
      RunInv(outputs, limits, trace[..|trace| - 1]);
      StepInv(outputs, limits, trace[|trace| - 2], trace[|trace| - 1]);
    }
  }

  // ---- Every run comes to its end.

  /** How far a task has got: it looks, begins, emits its results one by one and stops. */
  ghost function TaskWork<T>(output: seq<T>, phase: Phase, emitted: seq<T>): nat {
    match phase
    case Waiting => 0
    case Admitted => 1
    case Running(_) => 2 + |emitted|
    case _ => 3 + |output|
  }

  ghost function Work<T>(outputs: seq<seq<T>>, w: World<T>, n: nat): nat
    requires n <= |outputs| == |w.phases|
  {
    if n == 0 then 0 else Work(outputs, w, n - 1) + TaskWork(outputs[n - 1], w.phases[n - 1], Emitted(w, n - 1))
  }

  /** How many steps the tasks can take. */
  ghost function AllSteps<T>(outputs: seq<seq<T>>): nat {
    if outputs == [] then 0 else AllSteps(outputs[..|outputs| - 1]) + 3 + |outputs[|outputs| - 1]|
  }

  lemma {:induction false} WorkGrows<T>(outputs: seq<seq<T>>, w: World<T>, w': World<T>, i: nat, n: nat)
    requires n <= |outputs| == |w.phases| == |w'.phases|
    requires forall j | 0 <= j < n ::
               TaskWork(outputs[j], w.phases[j], Emitted(w, j)) + (if j == i then 1 else 0)
               <= TaskWork(outputs[j], w'.phases[j], Emitted(w', j))
    ensures Work(outputs, w', n) >= Work(outputs, w, n) + if i < n then 1 else 0
  {
    if n > 0 {
      WorkGrows(outputs, w, w', i, n - 1);
    }
  }

  lemma {:induction false} WorkBound<T>(outputs: seq<seq<T>>, w: World<T>, n: nat)
    requires n <= |outputs| == |w.phases|
    requires forall j | 0 <= j < n :: TaskWork(outputs[j], w.phases[j], Emitted(w, j)) <= 3 + |outputs[j]|
    ensures Work(outputs, w, n) <= AllSteps(outputs[..n])
  {
    if n > 0 {
      WorkBound(outputs, w, n - 1);
      assert outputs[..n][..n - 1] == outputs[..n - 1];
    }
  }

  /** A running task has emitted part of its output. */
  lemma EmittedFits<T>(outputs: seq<seq<T>>, limits: Limits, w: World<T>, i: nat)
    requires Inv(outputs, limits, w) && i < |outputs| && !Settled(w.phases[i])
    ensures |Emitted(w, i)| <= |outputs[i]|
  {
    assert i >= w.stream.toPublish;
    if i == 0 {
      assert TaskOK(outputs[0], limits, w.phases[0], w.stream.parent);
    } else {
      assert TaskOK(outputs[i], w.stream.limits, w.phases[i], CollectedBy(w.stream.collected, i));
    }
  }

  /** Publishing takes no results from a task that has not completed. */
  lemma {:induction false} PublishKeeps<T>(s: Stream<T>, i: nat)
    requires i !in s.completed && PublishReady(s).Ok?
    ensures CollectedBy(PublishReady(s).value.collected, i) == CollectedBy(s.collected, i)
    decreases Ahead(s)
  {
    if s.toPublish in s.completed {
      if s.toPublish == 0 {
        AheadShrinks(s, FirstAccounted(s));
        PublishKeeps(FirstAccounted(s), i);
      } else {
        PublishAllCuts(s, CollectedBy(s.collected, s.toPublish));
        var (published, all) := PublishAll(s, CollectedBy(s.collected, s.toPublish));
        if all {
          var next := published.(collected := published.collected - {s.toPublish}, toPublish := s.toPublish + 1);
          AheadShrinks(s, next);
          PublishKeeps(next, i);
        }
      }
    }
  }

  /** A step of one task leaves what another has emitted while it runs. */
  lemma OthersKeep<T>(outputs: seq<seq<T>>, limits: Limits, w: World<T>, i: nat, w': World<T>, j: nat)
    requires Inv(outputs, limits, w) && i < |outputs| && j < |outputs| && j != i && w.phases[j].Running?
    requires TaskStep(outputs, w, i, w')
    ensures w'.phases[j] == w.phases[j] && Emitted(w', j) == Emitted(w, j)
  {
    if Complete(outputs, w, i, w') {
      var marked := w.stream.(completed := w.stream.completed + {i});
      if !marked.limits.Exhausted() {
        PublishKeeps(marked, j);
      }
    }
  }

  lemma OwnWorks<T>(outputs: seq<seq<T>>, limits: Limits, w: World<T>, i: nat, w': World<T>)
    requires Inv(outputs, limits, w) && i < |outputs| && TaskStep(outputs, w, i, w')
    ensures TaskWork(outputs[i], w.phases[i], Emitted(w, i)) < TaskWork(outputs[i], w'.phases[i], Emitted(w', i))
  {
    EmittedFits(outputs, limits, w, i);
  }

  lemma OthersWork<T>(outputs: seq<seq<T>>, limits: Limits, w: World<T>, i: nat, w': World<T>, j: nat)
    requires Inv(outputs, limits, w) && i < |outputs| && j < |outputs| && j != i && TaskStep(outputs, w, i, w')
    ensures |w'.phases| == |outputs|
    ensures TaskWork(outputs[j], w.phases[j], Emitted(w, j)) == TaskWork(outputs[j], w'.phases[j], Emitted(w', j))
  {
    if w.phases[j].Running? {
      OthersKeep(outputs, limits, w, i, w', j);
    }
  }

  lemma TaskStepWorks<T>(outputs: seq<seq<T>>, limits: Limits, w: World<T>, i: nat, w': World<T>)
    requires Inv(outputs, limits, w) && |w'.phases| == |outputs| && i < |outputs| && TaskStep(outputs, w, i, w')
    ensures Work(outputs, w', |outputs|) > Work(outputs, w, |outputs|)
  {
    OwnWorks(outputs, limits, w, i, w');
    forall j | 0 <= j < |outputs| && j != i
      ensures TaskWork(outputs[j], w.phases[j], Emitted(w, j)) == TaskWork(outputs[j], w'.phases[j], Emitted(w', j))
    {
      OthersWork(outputs, limits, w, i, w', j);
    }
    WorkGrows(outputs, w, w', i, |outputs|);
  }

  lemma StepWorks<T>(outputs: seq<seq<T>>, limits: Limits, w: World<T>, w': World<T>)
    requires Inv(outputs, limits, w) && Step(outputs, w, w')
    ensures Inv(outputs, limits, w') && Work(outputs, w', |outputs|) > Work(outputs, w, |outputs|)
  {
    StepInv(outputs, limits, w, w');
    var i: nat :| TaskStep(outputs, w, i, w');
    TaskStepWorks(outputs, limits, w, i, w');
  }

  /** A task that has not settled can take a step. */
  lemma NotStuck<T>(outputs: seq<seq<T>>, limits: Limits, w: World<T>, i: nat) returns (w': World<T>)
    requires Inv(outputs, limits, w) && i < |outputs| && !Settled(w.phases[i])
    ensures TaskStep(outputs, w, i, w')
  {
    match w.phases[i]
    case Waiting =>
      w' := w.(phases := w.phases[i := if w.stream.limits.Exhausted() then Skipped else Admitted]);
      assert Look(w, i, w');
    case Admitted =>
      w' := World(
        w.stream.(registered := w.stream.registered + {i},
                  collected := if i == 0 then w.stream.collected else w.stream.collected[i := []]),
        w.phases[i := Running(w.stream.limits)]);
      assert Begin(w, i, w');
    case Running(own) =>
      w' := RunningGoesOn(outputs, limits, w, i);
  }

  lemma RunningGoesOn<T>(outputs: seq<seq<T>>, limits: Limits, w: World<T>, i: nat) returns (w': World<T>)
    requires Inv(outputs, limits, w) && i < |outputs| && w.phases[i].Running?
    ensures Emit(outputs, w, i, w') || Complete(outputs, w, i, w')
  {
    var own := w.phases[i].own;
    if |Emitted(w, i)| == |outputs[i]| || own.Exhausted() {
      CompleteInv(outputs, limits, w, i);
      w' := World(CompletedTaskIndex(w.stream, i).value, w.phases[i := Finished(own)]);
    } else {
      EmittedFits(outputs, limits, w, i);
      var item := outputs[i][|Emitted(w, i)|];
      w' := World(
        if i == 0 then w.stream.(parent := w.stream.parent + [item], published := w.stream.published + 1)
        else w.stream.(collected := w.stream.collected[i := Emitted(w, i) + [item]]),
        w.phases[i := Running(own.Less(1))]);
    }
  }

  lemma {:induction false} RunWorks<T>(outputs: seq<seq<T>>, limits: Limits, trace: seq<World<T>>)
    requires Run(outputs, limits, trace)
    ensures Inv(outputs, limits, trace[|trace| - 1]) && |trace| <= 1 + Work(outputs, trace[|trace| - 1], |outputs|)
    decreases |trace|
  {
    RunInv(outputs, limits, trace);
    if |trace| > 1 {
      RunFront(outputs, limits, trace);
      RunWorks(outputs, limits, trace[..|trace| - 1]);
      StepWorks(outputs, limits, trace[|trace| - 2], trace[|trace| - 1]);
    }
  }

  lemma AllWork<T>(outputs: seq<seq<T>>, limits: Limits, w: World<T>)
    requires Inv(outputs, limits, w)
    ensures Work(outputs, w, |outputs|) <= AllSteps(outputs)
  {
    forall j | 0 <= j < |outputs| ensures TaskWork(outputs[j], w.phases[j], Emitted(w, j)) <= 3 + |outputs[j]| {
      if !Settled(w.phases[j]) {
        EmittedFits(outputs, limits, w, j);
      }
    }
    WorkBound(outputs, w, |outputs|);
    assert outputs[..|outputs|] == outputs;
  }

  /** No run is longer than what the outputs call for, and until all tasks have settled it can go on. */
  lemma RunsSettle<T(!new)>(outputs: seq<seq<T>>, limits: Limits, trace: seq<World<T>>)
    requires Run(outputs, limits, trace)
    ensures |trace| <= 1 + AllSteps(outputs)
    ensures AllSettled(trace[|trace| - 1].phases) || CanGoOn(outputs, trace[|trace| - 1])
  {
    RunWorks(outputs, limits, trace);
    AllWork(outputs, limits, trace[|trace| - 1]);
    if !AllSettled(trace[|trace| - 1].phases) {
      GoesOn(outputs, limits, trace[|trace| - 1]);
    }
  }

  lemma GoesOn<T(!new)>(outputs: seq<seq<T>>, limits: Limits, w: World<T>)
    requires Inv(outputs, limits, w) && !AllSettled(w.phases)
    ensures CanGoOn(outputs, w)
  {
    var i: nat :| i < |w.phases| && !Settled(w.phases[i]);
    var w' := NotStuck(outputs, limits, w, i);
  }

  lemma SettledParent<T>(outputs: seq<seq<T>>, limits: Limits, w: World<T>)
    requires Inv(outputs, limits, w) && AllSettled(w.phases)
    ensures w.stream.parent == limits.Cut(Concat(outputs))
  {
    if outputs != [] {
      FirstOutput(outputs);
    }
    if !w.stream.limits.Exhausted() {
      assert forall i | 0 <= i < |outputs| :: w.phases[i] in w.phases && w.phases[i].Finished?;
      assert w.stream.toPublish == |outputs|;
      assert outputs[..|outputs|] == outputs;
    }
  }

  /** At every moment of every run the parent has received a prefix of the concatenated outputs
      within the limit, and a task that reports completion meets no error. The run goes on, within
      a bound that the outputs give, until all tasks have settled, and then the parent has received
      exactly as much of the concatenation as the limit allows. */
  lemma ParentReceivesInOrder<T(!new)>(outputs: seq<seq<T>>, limits: Limits, trace: seq<World<T>>)
    requires Run(outputs, limits, trace)
    ensures var w := trace[|trace| - 1];
            && |w.phases| == |outputs|
            && w.stream.parent <= limits.Cut(Concat(outputs))
            && (forall i | 0 <= i < |outputs| && w.phases[i].Running?
                && (|Emitted(w, i)| == |outputs[i]| || w.phases[i].own.Exhausted()) ::
                  CompletedTaskIndex(w.stream, i).Ok?)
            && |trace| <= 1 + AllSteps(outputs)
            && (if AllSettled(w.phases) then w.stream.parent == limits.Cut(Concat(outputs))
                else CanGoOn(outputs, w))
  {
    RunInv(outputs, limits, trace);
    RunsSettle(outputs, limits, trace);
    var w := trace[|trace| - 1];
    if outputs != [] {
      FirstOutput(outputs);
    }
    forall i | 0 <= i < |outputs| && w.phases[i].Running?
        && (|Emitted(w, i)| == |outputs[i]| || w.phases[i].own.Exhausted())
      ensures CompletedTaskIndex(w.stream, i).Ok?
    {
      CompleteInv(outputs, limits, w, i);
    }
    if AllSettled(w.phases) {
      SettledParent(outputs, limits, w);
    }
  }
}
