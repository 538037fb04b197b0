/** When the concurrent producer and mapper can wait forever, and what they yield otherwise.

    The runners can be held back so that all of them leave just when one more chunk is scheduled, and
    keep their slots until the producer waits for that chunk. */
module Starvation {
  import opened Common
  import opened CursoredIterators
  import opened ParallelMapping
  import opened MappingProgress
  import opened TaskSlots

  /** The steps of a run that starves at `j`: no slot is given back, runners leave when the chunk at `j`
      is about to be scheduled, and it is scheduled when all have. */
  ghost predicate HeldStep<I>(slots: nat, entries: seq<Entry<I>>, j: nat, w: World<I>, w': World<I>) {
    || Produce(entries, w, w') || Consume(entries, w, w') || Spawn(slots, w, w') || Select(w, w')
    || (AddTask(w, w') && (w.protocol.position == j ==> !w.pool.Manned()))
    || (FindNone(w, w') && w.protocol.position == j && w.protocol.producer == Scheduling)
    || exists id :: Finish(w, id, w')
  }

  /** The chunk at `j` is left behind, and exactly the other slots' number of chunks precede it. */
  ghost predicate Leaves<I>(slots: nat, entries: seq<Entry<I>>, j: nat) {
    Strands(slots, entries, j) && MapperSteps(entries, j) + 1 == slots
  }

  /** Up to `j` every chunk brings a runner, and all of them stay. */
  ghost predicate Gathering<I>(entries: seq<Entry<I>>, j: nat, s: State<I>, pool: Pool)
    requires j <= |entries|
  {
    && s.position <= j
    && pool.Runners() + (if pool.spawning then 1 else 0) == MapperSteps(entries, s.position)
    && (pool.leaving > 0 ==> s.position == j && s.producer == Scheduling)
  }

  /** Afterwards all of them are leaving, and the consumer does not get past `j`. */
  ghost predicate Deserted<I>(slots: nat, entries: seq<Entry<I>>, j: nat, s: State<I>, pool: Pool)
    requires s.position <= |entries|
  {
    && s.position > j && !pool.Manned() && pool.leaving + 1 == slots && s.producer != Ended
    && (forall h | j < h < s.position :: entries[h].Piece?)
    && (forall id <- s.mapped :: id < j) && (forall id <- s.flagged :: id < j)
    && (s.front <= j || s.consumer == AwaitingResult(j))
  }

  ghost predicate HeldInv<I>(slots: nat, entries: seq<Entry<I>>, j: nat, w: World<I>) {
    && SlotInv(slots, entries, w) && Leaves(slots, entries, j)
    && (Gathering(entries, j, w.protocol, w.pool) || Deserted(slots, entries, j, w.protocol, w.pool))
  }

  // ---- The invariant is kept.

  lemma NotEnding<I>(slots: nat, entries: seq<Entry<I>>, j: nat, w: World<I>)
    requires HeldInv(slots, entries, j, w) && w.protocol.position <= j
    ensures w.protocol.producer != Failing && w.protocol.producer != Completing && w.protocol.producer != Ended
  {
  }

  lemma GatheringProduce<I>(slots: nat, entries: seq<Entry<I>>, j: nat, w: World<I>, w': World<I>)
    requires HeldInv(slots, entries, j, w) && w.protocol.position <= j && Produce(entries, w, w')
    ensures Gathering(entries, j, w'.protocol, w'.pool)
  {
    NotEnding(slots, entries, j, w);
    if Pull(entries, w.protocol, w'.protocol) || Push(w.protocol, w'.protocol) {
      ProducerMoves(entries, w.protocol, w'.protocol);
    }
  }

  lemma GatheringSpawn<I>(slots: nat, entries: seq<Entry<I>>, j: nat, w: World<I>, w': World<I>)
    requires HeldInv(slots, entries, j, w) && w.protocol.position <= j && Spawn(slots, w, w')
    ensures Gathering(entries, j, w'.protocol, w'.pool)
  {
    StepsGrow(entries, w.protocol.position, j);
  }

  lemma GatheringRuns<I>(slots: nat, entries: seq<Entry<I>>, j: nat, w: World<I>, w': World<I>)
    requires HeldInv(slots, entries, j, w) && w.protocol.position <= j
    requires || Select(w, w') || (exists id :: Finish(w, id, w'))
             || (FindNone(w, w') && w.protocol.position == j && w.protocol.producer == Scheduling)
    ensures Gathering(entries, j, w'.protocol, w'.pool)
  {
  }

  lemma GatheringAdds<I>(slots: nat, entries: seq<Entry<I>>, j: nat, w: World<I>, w': World<I>)
    requires HeldInv(slots, entries, j, w) && w.protocol.position <= j && AddTask(w, w')
    requires w.protocol.position == j ==> !w.pool.Manned()
    ensures SlotInv(slots, entries, w') ==>
            Gathering(entries, j, w'.protocol, w'.pool) || Deserted(slots, entries, j, w'.protocol, w'.pool)
  {
  }

  lemma DesertedProduce<I>(slots: nat, entries: seq<Entry<I>>, j: nat, w: World<I>, w': World<I>)
    requires HeldInv(slots, entries, j, w) && w.protocol.position > j && Produce(entries, w, w')
    ensures SlotInv(slots, entries, w') ==> Deserted(slots, entries, j, w'.protocol, w'.pool)
  {
    CannotEnd(slots, entries, j, w.protocol, w.pool);
    if Pull(entries, w.protocol, w'.protocol) || Push(w.protocol, w'.protocol) {
      ProducerMoves(entries, w.protocol, w'.protocol);
    }
  }

  lemma CannotEnd<I>(slots: nat, entries: seq<Entry<I>>, j: nat, s: State<I>, pool: Pool)
    requires Inv(entries, s) && Leaves(slots, entries, j) && Deserted(slots, entries, j, s, pool)
    ensures s.producer != Failing
    ensures s.producer == Completing ==> |s.channel| >= CHUNKS_BUFFER_SIZE
  {
    if s.producer == Completing {
      FullAfter(slots, entries, j);
      ChannelAtEnd(entries, j, s);
    }
  }

  lemma ChannelAtEnd<I>(entries: seq<Entry<I>>, j: nat, s: State<I>)
    requires ProducerInv(entries, s) && ChannelInv(entries, s) && s.producer == Completing && s.front <= j + 1
    ensures |s.channel| >= |ChunksBetween(entries, j + 1, |entries|)|
  {
    ChannelGrows(entries, s.front, j + 1, |entries|);
  }

  /** Chunks alone fill the channel. */
  lemma FullAfter<I>(slots: nat, entries: seq<Entry<I>>, j: nat)
    requires Leaves(slots, entries, j) && forall h | j < h < |entries| :: entries[h].Piece?
    ensures |ChunksBetween(entries, j + 1, |entries|)| >= CHUNKS_BUFFER_SIZE
  {
    assert Hold !in entries[j + 1..];
    ChannelLength(entries, j + 1, |entries|);
  }

  lemma {:induction false} ChannelGrows<I>(entries: seq<Entry<I>>, lo: nat, mid: nat, hi: nat)
    requires lo <= mid && hi <= |entries|
    ensures |ChunksBetween(entries, mid, hi)| <= |ChunksBetween(entries, lo, hi)|
    decreases hi
  {
    if mid < hi {
      ChannelGrows(entries, lo, mid, hi - 1);
    }
  }

  lemma DesertedTake<I>(slots: nat, entries: seq<Entry<I>>, j: nat, w: World<I>, w': World<I>)
    requires HeldInv(slots, entries, j, w) && w.protocol.position > j && Consume(entries, w, w')
    requires Take(w.protocol, w'.protocol)
    ensures Deserted(slots, entries, j, w'.protocol, w'.pool)
  {
    var s := w.protocol;
    ChunksBetweenFirst(entries, s.front, Pushed(s));
  }

  lemma DesertedConsume<I>(slots: nat, entries: seq<Entry<I>>, j: nat, w: World<I>, w': World<I>)
    requires HeldInv(slots, entries, j, w) && w.protocol.position > j && Consume(entries, w, w')
    ensures Deserted(slots, entries, j, w'.protocol, w'.pool)
  {
    if Take(w.protocol, w'.protocol) {
      DesertedTake(slots, entries, j, w, w');
    }
  }

  lemma DesertedAdds<I>(slots: nat, entries: seq<Entry<I>>, j: nat, w: World<I>, w': World<I>)
    requires Inv(entries, w.protocol) && Deserted(slots, entries, j, w.protocol, w.pool) && AddTask(w, w')
    ensures Deserted(slots, entries, j, w'.protocol, w'.pool)
  {
  }

  lemma DesertedSpawn<I>(slots: nat, entries: seq<Entry<I>>, j: nat, w: World<I>, w': World<I>)
    requires Inv(entries, w.protocol) && Deserted(slots, entries, j, w.protocol, w.pool) && Spawn(slots, w, w')
    ensures Deserted(slots, entries, j, w'.protocol, w'.pool)
  {
  }

  lemma HeldStepInv<I>(slots: nat, entries: seq<Entry<I>>, j: nat, w: World<I>, w': World<I>)
    requires HeldInv(slots, entries, j, w) && HeldStep(slots, entries, j, w, w')
    ensures HeldInv(slots, entries, j, w')
  {
    SlotStepInv(slots, entries, w, w');
    if w.protocol.position <= j {
      if Produce(entries, w, w') {
        GatheringProduce(slots, entries, j, w, w');
      } else if Consume(entries, w, w') {
        ConsumeKeeps(entries, w.protocol, w'.protocol);
      } else if Spawn(slots, w, w') {
        GatheringSpawn(slots, entries, j, w, w');
      } else if AddTask(w, w') {
        GatheringAdds(slots, entries, j, w, w');
      } else {
        GatheringRuns(slots, entries, j, w, w');
      }
    } else if Produce(entries, w, w') {
      DesertedProduce(slots, entries, j, w, w');
    } else if Consume(entries, w, w') {
      DesertedConsume(slots, entries, j, w, w');
    } else if AddTask(w, w') {
      DesertedAdds(slots, entries, j, w, w');
    } else if Spawn(slots, w, w') {
      DesertedSpawn(slots, entries, j, w, w');
    }
  }

  // ---- The run that starves.

  /** Up to `j` such a run can go on. */
  lemma GatheringGoesOn<I>(slots: nat, entries: seq<Entry<I>>, j: nat, w: World<I>) returns (w': World<I>)
    requires HeldInv(slots, entries, j, w) && w.protocol.position <= j
    ensures HeldStep(slots, entries, j, w, w')
  {
    var pool := w.pool;
    NotEnding(slots, entries, j, w);
    if pool.spawning {
      w' := SpawnFrom(slots, w);
    } else if pool.running != {} {
      var id :| id in pool.running;
      w' := FinishFrom(w, id);
    } else if pool.selecting > 0 && pool.queue != [] {
      w' := SelectFrom(w);
    } else if w.protocol.position == j && w.protocol.producer == Scheduling {
      if pool.selecting > 0 {
        w' := w.(pool := pool.(selecting := pool.selecting - 1, leaving := pool.leaving + 1));
        assert FindNone(w, w');
      } else {
        var s' := ScheduleFrom(w.protocol);
        w' := FreeGoesOn(slots, entries, w, s');
      }
    } else {
      NothingQueued(entries, j, w.protocol, pool);
      var s' := NotStuck(entries, w.protocol);
      w' := FreeGoesOn(slots, entries, w, s');
    }
  }

  /** Without a runner no chunk was scheduled yet. */
  lemma NothingQueued<I>(entries: seq<Entry<I>>, j: nat, s: State<I>, pool: Pool)
    requires j <= |entries| && Gathering(entries, j, s, pool) && TasksInv(entries, s.position, s.scheduled, pool)
    requires !pool.spawning && pool.running == {} && pool.leaving == 0 && (pool.selecting > 0 ==> pool.queue == [])
    ensures s.scheduled == {}
  {
    if pool.queue != [] {
      var id := pool.queue[0];
      assert id in s.scheduled;
      StepsGrow(entries, id + 1, s.position);
      assert false;
    }
  }

  /** The leaving runners are gone at last. */
  lemma {:induction false} AllRelease<I>(slots: nat, entries: seq<Entry<I>>, trace: seq<World<I>>)
    returns (longer: seq<World<I>>)
    requires SlotRun(slots, entries, trace)
    ensures SlotRun(slots, entries, longer)
    ensures var w := trace[|trace| - 1]; longer[|longer| - 1] == w.(pool := w.pool.(leaving := 0))
    decreases trace[|trace| - 1].pool.leaving
  {
    var w := trace[|trace| - 1];
    if w.pool.leaving == 0 {
      longer := trace;
    } else {
      var w' := w.(pool := w.pool.(leaving := w.pool.leaving - 1));
      assert Release(w, w');
      RunOn(slots, entries, trace, w');
      longer := AllRelease(slots, entries, trace + [w']);
    }
  }

  /** What cannot go on and has no runner left cannot go on at all. */
  lemma DesertedStarves<I(!new)>(slots: nat, entries: seq<Entry<I>>, j: nat, w: World<I>)
    requires HeldInv(slots, entries, j, w) && forall w' :: !HeldStep(slots, entries, j, w, w')
    ensures Starved(slots, entries, w.(pool := w.pool.(leaving := 0)))
  {
    if w.protocol.position <= j {
      var w' := GatheringGoesOn(slots, entries, j, w);
      assert false;
    }
    if w.pool.spawning {
      var w' := SpawnFrom(slots, w);
      assert HeldStep(slots, entries, j, w, w');
    }
    var last := w.(pool := w.pool.(leaving := 0));
    forall w' ensures !SlotStep(slots, entries, last, w') {
      if SlotStep(slots, entries, last, w') {
        OnlyFree(slots, entries, last, w');
        var w'' := FreeGoesOn(slots, entries, w, w'.protocol);
        assert HeldStep(slots, entries, j, w, w'');
      }
    }
  }

  lemma OnlyFree<I>(slots: nat, entries: seq<Entry<I>>, w: World<I>, w': World<I>)
    requires w.pool.Runners() == 0 && !w.pool.spawning && SlotStep(slots, entries, w, w')
    ensures FreeStep(entries, w.protocol, w'.protocol)
  {
  }

  lemma RunOn<I>(slots: nat, entries: seq<Entry<I>>, trace: seq<World<I>>, w': World<I>)
    requires SlotRun(slots, entries, trace) && SlotStep(slots, entries, trace[|trace| - 1], w')
    ensures SlotRun(slots, entries, trace + [w'])
  {
  }

  lemma HeldOn<I>(slots: nat, entries: seq<Entry<I>>, j: nat, trace: seq<World<I>>, w': World<I>)
    requires SlotRun(slots, entries, trace) && HeldInv(slots, entries, j, trace[|trace| - 1])
    requires HeldStep(slots, entries, j, trace[|trace| - 1], w')
    ensures SlotRun(slots, entries, trace + [w']) && HeldInv(slots, entries, j, w')
    ensures 0 <= Left(entries, w') < Left(entries, trace[|trace| - 1])
  {
    HeldStepInv(slots, entries, j, trace[|trace| - 1], w');
    SlotStepShrinks(slots, entries, trace[|trace| - 1], w');
    RunOn(slots, entries, trace, w');
  }

  /** A run that cannot be continued in this way starves once its runners are gone. */
  lemma OneMore<I(!new)>(slots: nat, entries: seq<Entry<I>>, j: nat, trace: seq<World<I>>)
    returns (longer: seq<World<I>>, starved: bool)
    requires SlotRun(slots, entries, trace) && HeldInv(slots, entries, j, trace[|trace| - 1])
    ensures SlotRun(slots, entries, longer)
    ensures var w, w' := trace[|trace| - 1], longer[|longer| - 1];
            if starved then Starved(slots, entries, w')
            else HeldInv(slots, entries, j, w') && 0 <= Left(entries, w') < Left(entries, w)
  {
    var w := trace[|trace| - 1];
    if w' :| HeldStep(slots, entries, j, w, w') {
      HeldOn(slots, entries, j, trace, w');
      longer, starved := trace + [w'], false;
    } else {
      DesertedStarves(slots, entries, j, w);
      longer := AllRelease(slots, entries, trace);
      starved := true;
    }
  }

  lemma {:induction false} RunsUntilStarved<I(!new)>(slots: nat, entries: seq<Entry<I>>, j: nat, trace: seq<World<I>>)
    returns (longer: seq<World<I>>)
    requires SlotRun(slots, entries, trace) && HeldInv(slots, entries, j, trace[|trace| - 1])
    ensures SlotRun(slots, entries, longer) && Starved(slots, entries, longer[|longer| - 1])
    decreases Left(entries, trace[|trace| - 1])
  {
    var starved;
    longer, starved := OneMore(slots, entries, j, trace);
    if !starved {
      longer := RunsUntilStarved(slots, entries, j, longer);
    }
  }

  // ---- The results.

  lemma {:induction false} FirstLeft<I>(slots: nat, entries: seq<Entry<I>>, j: nat) returns (first: nat)
    requires slots >= 1 && Strands(slots, entries, j)
    ensures Leaves(slots, entries, first)
    decreases j
  {
    first := j;
    if MapperSteps(entries, j) + 1 > slots {
      var i := ChunkBelow(entries, j);
      assert Hold in entries[j + 1..] ==> Hold in entries[i + 1..] by {
        assert entries[i + 1..][j - i..] == entries[j + 1..];
      }
      first := FirstLeft(slots, entries, i);
    }
  }

  lemma {:induction false} ChunkBelow<I>(entries: seq<Entry<I>>, j: nat) returns (i: nat)
    requires j <= |entries| && MapperSteps(entries, j) > 0
    ensures i < j && entries[i].Piece? && MapperSteps(entries, i) + 1 == MapperSteps(entries, j)
  {
    if entries[j - 1].Piece? {
      i := j - 1;
    } else {
      i := ChunkBelow(entries, j - 1);
    }
  }

  /** Some run waits forever if and only if that is too much for the slots. */
  lemma StarvesExactlyWhen<I(!new)>(concurrency: nat, entries: seq<Entry<I>>)
    ensures TooMuch(Slots(concurrency), entries) <==>
            exists trace: seq<World<I>> ::
              SlotRun(Slots(concurrency), entries, trace) && Starved(Slots(concurrency), entries, trace[|trace| - 1])
  {
    var slots := Slots(concurrency);
    if j :| Strands(slots, entries, j) {
      var first := FirstLeft(slots, entries, j);
      InitSlotInv(slots, entries);
      var trace := RunsUntilStarved(slots, entries, first, [InitWorld()]);
    } else {
      forall trace: seq<World<I>> | SlotRun(slots, entries, trace)
        ensures !Starved(slots, entries, trace[|trace| - 1])
      {
        RunShrinks(slots, entries, trace);
        if !trace[|trace| - 1].protocol.consumer.Finished? {
          NotStarved(slots, entries, trace[|trace| - 1]);
        }
      }
    }
  }

  /** With one slot the first chunk is left behind in every run, and none ever ends. */
  lemma OneSlotNeverEnds<I>(entries: seq<Entry<I>>, trace: seq<World<I>>)
    requires TooMuch(1, entries) && SlotRun(1, entries, trace)
    ensures !trace[|trace| - 1].protocol.consumer.Finished?
  {
    var j :| Strands(1, entries, j);
    var first := FirstLeft(1, entries, j);
    OneSlotHeld(entries, first, trace);
  }

  lemma {:induction false} OneSlotHeld<I>(entries: seq<Entry<I>>, j: nat, trace: seq<World<I>>)
    requires Leaves(1, entries, j) && SlotRun(1, entries, trace)
    ensures HeldInv(1, entries, j, trace[|trace| - 1]) && trace[|trace| - 1].protocol.producer != Ended
    decreases |trace|
  {
    if |trace| == 1 {
      InitSlotInv(1, entries);
    } else {
      SlotRunFront(1, entries, trace);
      OneSlotHeld(entries, j, trace[..|trace| - 1]);
      OneSlotHolds(entries, j, trace[|trace| - 2], trace[|trace| - 1]);
      HeldStepInv(1, entries, j, trace[|trace| - 2], trace[|trace| - 1]);
    }
    if trace[|trace| - 1].protocol.position <= j {
      NotEnding(1, entries, j, trace[|trace| - 1]);
    }
  }

  /** The producer's runner is the only one. */
  lemma OneSlotHolds<I>(entries: seq<Entry<I>>, j: nat, w: World<I>, w': World<I>)
    requires HeldInv(1, entries, j, w) && w.protocol.producer != Ended && SlotStep(1, entries, w, w')
    ensures HeldStep(1, entries, j, w, w')
  {
    assert w.pool.Runners() == 0;
  }

  /** What is too much for one slot: a chunk first, and a hold or more than the channel takes. */
  lemma TooMuchForOne<I>(entries: seq<Entry<I>>)
    ensures TooMuch(1, entries) <==>
            entries != [] && entries[0].Piece? && (Hold in entries || |entries| > CHUNKS_BUFFER_SIZE)
  {
    if j :| Strands(1, entries, j) {
      assert !Misplaced(entries, 0);
      if Hold in entries[j + 1..] {
        assert forall x <- entries[j + 1..] :: x in entries;
      }
    }
    if entries != [] && entries[0].Piece? && (Hold in entries || |entries| > CHUNKS_BUFFER_SIZE) {
      assert entries == [entries[0]] + entries[1..];
      assert Strands(1, entries, 0);
    }
  }

  /** Two slots and two chunks before a hold: the second chunk can be left without a runner. */
  lemma TwoSlotsWitness<I(!new)>(first: Entry<I>, second: Entry<I>) returns (trace: seq<World<I>>)
    requires first.Piece? && second.Piece?
    ensures SlotRun(2, [first, second, Hold], trace) && Starved(2, [first, second, Hold], trace[|trace| - 1])
  {
    var entries := [first, second, Hold];
    assert entries[2..] == [Hold];
    assert MapperSteps(entries, 1) == 1;
    assert Strands(2, entries, 1);
    StarvesExactlyWhen(2, entries);
    trace :| SlotRun(2, entries, trace) && Starved(2, entries, trace[|trace| - 1]);
  }

  /** In every interleaving a prefix of the sequential yield has been yielded, and no run is longer than
      a bound that the entries give. A run that has ended has ended right. Unless it is too much for the
      slots, every other run can go on. */
  lemma ConcurrentYieldsSequential<I(!new)>(concurrency: nat, entries: seq<Entry<I>>, trace: seq<World<I>>)
    requires SlotRun(Slots(concurrency), entries, trace)
    ensures var w := trace[|trace| - 1];
            && w.protocol.yielded <= Yields(entries) && |trace| <= 1 + 4 * AllSteps(entries)
            && (w.protocol.consumer.Finished? ==> EndsRight(entries, w.protocol))
            && (!w.protocol.consumer.Finished? && !TooMuch(Slots(concurrency), entries) ==>
                CanGoOn(Slots(concurrency), entries, w))
  {
    RunShrinks(Slots(concurrency), entries, trace);
    var w := trace[|trace| - 1];
    WorkBound(entries, w.protocol);
    YieldsRight(entries, w.protocol);
    if !w.protocol.consumer.Finished? && !TooMuch(Slots(concurrency), entries) {
      NotStarved(Slots(concurrency), entries, w);
    }
  }

  /** When no chunk fails to map or convert, the concurrent form has yielded a prefix of what the producer
      and mapper yield in turn. When every hold follows a chunk it has yielded exactly that once it is
      through, and it gets through unless the chunks are too much for the slots. */
  lemma ConcurrentFormRefines<I(!new), P, C>(concurrency: nat, producer: CursoredIterators.Producer<P, C>,
                                             mapper: Mapper<P, I>, conv: Converters<C>, c: Cursor, head: C,
                                             remaining: Cursor, trace: seq<World<I>>)
    requires CustomHeadValue(c, conv.from, conv.zero) == Ok((head, remaining))
    requires !ProducerMapper(producer, mapper, conv)(c).failed
    requires var entries := EntriesFor(producer(head, remaining).chunks, mapper, conv.to, remaining);
             SlotRun(Slots(concurrency), entries, trace)
    ensures var entries := EntriesFor(producer(head, remaining).chunks, mapper, conv.to, remaining);
            var w, items := trace[|trace| - 1], ProducerMapper(producer, mapper, conv)(c).items;
            && w.protocol.yielded <= items && |trace| <= 1 + 4 * AllSteps(entries)
            && (!w.protocol.consumer.Finished? && !TooMuch(Slots(concurrency), entries) ==>
                CanGoOn(Slots(concurrency), entries, w))
            && (w.protocol.consumer.Finished? && (forall h: nat :: !Misplaced(entries, h)) ==>
                w.protocol.consumer == Finished(false) && w.protocol.yielded == items)
  {
    var chunks := producer(head, remaining).chunks;
    EntriesYieldMapped(chunks, mapper, conv.to, remaining);
    ConcurrentYieldsSequential(concurrency, EntriesFor(chunks, mapper, conv.to, remaining), trace);
  }
}
