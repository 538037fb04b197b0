/** The concurrent producer and mapper on the task runner that runs them: tasks wait in a queue for
    one of a few runners, and scheduling a task starts a runner only when a slot is free.

    A runner that finds no task gives its slot back a moment later. A task that is scheduled in
    between starts no runner, and waits until another one is scheduled or the producer ends. */
module TaskSlots {
  import opened Common
  import opened ParallelMapping
  import opened MappingProgress

  /** The runners but for the one with the producer: those about to select a task, the chunks being
      mapped by one each, and those that found no task and still hold their slot. `spawning` says that
      a task was added for which no runner was tried to be started yet. */
  datatype Pool = Pool(queue: seq<nat>, spawning: bool, selecting: nat, running: set<nat>, leaving: nat) {
    ghost function Runners(): nat {
      selecting + |running| + leaving
    }

    /** Some runner will look at the queue again. */
    ghost predicate Manned() {
      selecting > 0 || running != {}
    }
  }

  datatype World<I> = World(protocol: State<I>, pool: Pool)

  /** The slots of the task runner. A concurrency of exactly one takes the sequential form instead. */
  function Slots(concurrency: nat): nat {
    if concurrency < 1 then 1 else concurrency
  }

  /** The producer has the first slot. */
  function InitWorld<I>(): World<I> {
    World(Init(), Pool([], false, 0, {}, 0))
  }

  // ---- The steps.

  ghost predicate ProducerStep<I>(entries: seq<Entry<I>>, s: State<I>, s': State<I>) {
    Pull(entries, s, s') || PassHold(s, s') || Push(s, s')
  }

  ghost predicate ConsumerStep<I>(entries: seq<Entry<I>>, s: State<I>, s': State<I>) {
    Take(s, s') || TakeResult(s, s') || YieldOne(entries, s, s')
  }

  /** What needs no runner beside the producer's. */
  ghost predicate FreeStep<I>(entries: seq<Entry<I>>, s: State<I>, s': State<I>) {
    Schedule(s, s') || ProducerStep(entries, s, s') || ConsumerStep(entries, s, s')
  }

  /** When the producer ends, its runner goes on to select a task. */
  ghost predicate Produce<I>(entries: seq<Entry<I>>, w: World<I>, w': World<I>) {
    && !w.pool.spawning && ProducerStep(entries, w.protocol, w'.protocol)
    && w'.pool == if w'.protocol.producer == Ended then w.pool.(selecting := w.pool.selecting + 1) else w.pool
  }

  ghost predicate Consume<I>(entries: seq<Entry<I>>, w: World<I>, w': World<I>) {
    ConsumerStep(entries, w.protocol, w'.protocol) && w'.pool == w.pool
  }

  ghost predicate AddTask<I>(w: World<I>, w': World<I>) {
    && !w.pool.spawning && Schedule(w.protocol, w'.protocol)
    && w'.pool == w.pool.(queue := w.pool.queue + [w.protocol.position], spawning := true)
  }

  /** A runner is started if the producer and the other runners leave a slot. */
  ghost predicate Spawn<I>(slots: nat, w: World<I>, w': World<I>) {
    && w.pool.spawning
    && w' == w.(pool := w.pool.(spawning := false,
                                selecting := w.pool.selecting + if 1 + w.pool.Runners() < slots then 1 else 0))
  }

  ghost predicate Select<I>(w: World<I>, w': World<I>) {
    && w.pool.selecting > 0 && w.pool.queue != []
    && w' == w.(pool := w.pool.(queue := w.pool.queue[1..], selecting := w.pool.selecting - 1,
                                running := w.pool.running + {w.pool.queue[0]}))
  }

  ghost predicate FindNone<I>(w: World<I>, w': World<I>) {
    && w.pool.selecting > 0 && w.pool.queue == []
    && w' == w.(pool := w.pool.(selecting := w.pool.selecting - 1, leaving := w.pool.leaving + 1))
  }

  ghost predicate Release<I>(w: World<I>, w': World<I>) {
    w.pool.leaving > 0 && w' == w.(pool := w.pool.(leaving := w.pool.leaving - 1))
  }

  ghost predicate Finish<I>(w: World<I>, id: nat, w': World<I>) {
    && id in w.pool.running && Map(w.protocol, id, w'.protocol)
    && w'.pool == w.pool.(running := w.pool.running - {id}, selecting := w.pool.selecting + 1)
  }

  ghost predicate SlotStep<I>(slots: nat, entries: seq<Entry<I>>, w: World<I>, w': World<I>) {
    || Produce(entries, w, w') || Consume(entries, w, w') || AddTask(w, w') || Spawn(slots, w, w')
    || Select(w, w') || FindNone(w, w') || Release(w, w') || exists id :: Finish(w, id, w')
  }

  ghost predicate SlotRun<I>(slots: nat, entries: seq<Entry<I>>, trace: seq<World<I>>) {
    && trace != [] && trace[0] == InitWorld()
    && forall k | 0 <= k < |trace| - 1 :: SlotStep(slots, entries, trace[k], trace[k + 1])
  }

  ghost predicate CanGoOn<I(!new)>(slots: nat, entries: seq<Entry<I>>, w: World<I>) {
    exists w' :: SlotStep(slots, entries, w, w')
  }

  ghost predicate Starved<I(!new)>(slots: nat, entries: seq<Entry<I>>, w: World<I>) {
    !w.protocol.consumer.Finished? && !CanGoOn(slots, entries, w)
  }

  // ---- The invariant.

  ghost predicate Ascending(queue: seq<nat>) {
    forall m, n | 0 <= m < n < |queue| :: queue[m] < queue[n]
  }

  lemma AscendingSnoc(queue: seq<nat>, id: nat)
    requires Ascending(queue) && forall x <- queue :: x < id
    ensures Ascending(queue + [id]) && forall x :: x in queue + [id] <==> x in queue || x == id
  {
    assert forall m | 0 <= m < |queue| :: queue[m] in queue;
  }

  /** The tasks of the protocol are those queued and those being run. */
  ghost predicate TasksInv<I>(entries: seq<Entry<I>>, position: nat, scheduled: set<nat>, pool: Pool)
    requires position <= |entries|
  {
    && (forall id :: id in scheduled <==> id in pool.queue || id in pool.running)
    && (forall id <- scheduled :: id < position && entries[id].Piece?)
    && (forall id <- pool.queue :: id !in pool.running) && Ascending(pool.queue)
  }

  /** Every runner was started for another chunk, and there are no more than slots. */
  ghost predicate PoolInv<I>(slots: nat, entries: seq<Entry<I>>, position: nat, ended: bool, pool: Pool)
    requires position <= |entries|
  {
    && pool.Runners() + (if ended then 0 else 1) <= slots
    && (!ended ==> pool.Runners() + (if pool.spawning then 1 else 0) <= MapperSteps(entries, position))
    && (pool.spawning ==> !ended && position > 0 && entries[position - 1].Piece?)
  }

  /** A task can be left without a runner only while the producer is there, and only if as many chunks
      precede it as there are other slots. */
  ghost predicate QueueInv<I>(slots: nat, entries: seq<Entry<I>>, position: nat, ended: bool, pool: Pool)
    requires position <= |entries| && forall id <- pool.queue :: id < position
  {
    pool.queue != [] && !pool.Manned() ==>
      && !ended
      && (|| (pool.spawning && pool.queue == [position - 1])
          || (assert pool.queue[0] in pool.queue; MapperSteps(entries, pool.queue[0]) + 1 >= slots))
  }

  ghost predicate SlotInv<I>(slots: nat, entries: seq<Entry<I>>, w: World<I>) {
    var s := w.protocol;
    && Lively(entries, s) && TasksInv(entries, s.position, s.scheduled, w.pool)
    && PoolInv(slots, entries, s.position, s.producer.Ended?, w.pool)
    && QueueInv(slots, entries, s.position, s.producer.Ended?, w.pool)
    && (w.pool.spawning ==> s.producer == Pulling)
  }

  lemma InitSlotInv<I>(slots: nat, entries: seq<Entry<I>>)
    requires slots >= 1
    ensures SlotInv(slots, entries, InitWorld())
  {
    InitLively(entries);
  }

  /** The steps of the producer that schedule nothing keep the tasks. */
  lemma ProduceKeeps<I>(entries: seq<Entry<I>>, s: State<I>, s': State<I>)
    requires ProducerStep(entries, s, s')
    ensures s'.scheduled == s.scheduled && s.position <= s'.position && !s.producer.Ended?
  {
  }

  lemma ProduceInv<I>(slots: nat, entries: seq<Entry<I>>, w: World<I>, w': World<I>)
    requires SlotInv(slots, entries, w) && Produce(entries, w, w')
    ensures SlotInv(slots, entries, w')
  {
    StepLively(entries, w.protocol, w'.protocol);
    ProduceKeeps(entries, w.protocol, w'.protocol);
    StepsGrow(entries, w.protocol.position, w'.protocol.position);
  }

  lemma ConsumeKeeps<I>(entries: seq<Entry<I>>, s: State<I>, s': State<I>)
    requires ConsumerStep(entries, s, s')
    ensures s'.scheduled == s.scheduled && s'.position == s.position && s'.producer == s.producer
  {
  }

  lemma ConsumeInv<I>(slots: nat, entries: seq<Entry<I>>, w: World<I>, w': World<I>)
    requires SlotInv(slots, entries, w) && Consume(entries, w, w')
    ensures SlotInv(slots, entries, w')
  {
    StepLively(entries, w.protocol, w'.protocol);
    ConsumeKeeps(entries, w.protocol, w'.protocol);
  }

  lemma AddTaskInv<I>(slots: nat, entries: seq<Entry<I>>, w: World<I>, w': World<I>)
    requires SlotInv(slots, entries, w) && AddTask(w, w')
    ensures SlotInv(slots, entries, w')
  {
    StepLively(entries, w.protocol, w'.protocol);
    var position := w.protocol.position;
    assert MapperSteps(entries, position + 1) == MapperSteps(entries, position) + 1;
    AscendingSnoc(w.pool.queue, position);
    if w.pool.queue != [] {
      assert w'.pool.queue[0] == w.pool.queue[0];
    }
  }

  lemma SpawnInv<I>(slots: nat, entries: seq<Entry<I>>, w: World<I>, w': World<I>)
    requires SlotInv(slots, entries, w) && Spawn(slots, w, w')
    ensures SlotInv(slots, entries, w')
  {
    var position := w.protocol.position;
    assert MapperSteps(entries, position) == MapperSteps(entries, position - 1) + 1;
  }

  lemma SelectInv<I>(slots: nat, entries: seq<Entry<I>>, w: World<I>, w': World<I>)
    requires SlotInv(slots, entries, w) && Select(w, w')
    ensures SlotInv(slots, entries, w')
  {
    var queue := w.pool.queue;
    assert forall id :: id in queue <==> id == queue[0] || id in queue[1..];
    assert queue[0] in w'.pool.running;
  }

  lemma LeaveInv<I>(slots: nat, entries: seq<Entry<I>>, w: World<I>, w': World<I>)
    requires SlotInv(slots, entries, w) && (FindNone(w, w') || Release(w, w'))
    ensures SlotInv(slots, entries, w')
  {
  }

  lemma FinishInv<I>(slots: nat, entries: seq<Entry<I>>, w: World<I>, id: nat, w': World<I>)
    requires SlotInv(slots, entries, w) && Finish(w, id, w')
    ensures SlotInv(slots, entries, w')
  {
    assert Step(entries, w.protocol, w'.protocol);
    StepLively(entries, w.protocol, w'.protocol);
  }

  lemma SlotStepInv<I>(slots: nat, entries: seq<Entry<I>>, w: World<I>, w': World<I>)
    requires SlotInv(slots, entries, w) && SlotStep(slots, entries, w, w')
    ensures SlotInv(slots, entries, w')
  {
    if Produce(entries, w, w') {
      ProduceInv(slots, entries, w, w');
    } else if Consume(entries, w, w') {
      ConsumeInv(slots, entries, w, w');
    } else if AddTask(w, w') {
      AddTaskInv(slots, entries, w, w');
    } else if Spawn(slots, w, w') {
      SpawnInv(slots, entries, w, w');
    } else if Select(w, w') {
      SelectInv(slots, entries, w, w');
    } else if FindNone(w, w') || Release(w, w') {
      LeaveInv(slots, entries, w, w');
    } else {
      var id :| Finish(w, id, w');
      FinishInv(slots, entries, w, id, w');
    }
  }

  /** In the protocol every step shows as one of its steps, or not at all. */
  lemma SlotStepShows<I>(slots: nat, entries: seq<Entry<I>>, w: World<I>, w': World<I>)
    requires SlotStep(slots, entries, w, w')
    ensures w'.protocol == w.protocol || Step(entries, w.protocol, w'.protocol)
  {
  }

  /** So whatever holds in every run of the protocol holds with slots. */
  lemma {:induction false} SlotRunShows<I>(slots: nat, entries: seq<Entry<I>>, trace: seq<World<I>>)
    returns (shown: seq<State<I>>)
    requires SlotRun(slots, entries, trace)
    ensures Run(entries, shown) && shown[|shown| - 1] == trace[|trace| - 1].protocol
    decreases |trace|
  {
    if |trace| == 1 {
      shown := [Init()];
    } else {
      SlotRunFront(slots, entries, trace);
      shown := SlotRunShows(slots, entries, trace[..|trace| - 1]);
      SlotStepShows(slots, entries, trace[|trace| - 2], trace[|trace| - 1]);
      if trace[|trace| - 1].protocol != trace[|trace| - 2].protocol {
        shown := shown + [trace[|trace| - 1].protocol];
      }
    }
  }

  lemma SlotRunFront<I>(slots: nat, entries: seq<Entry<I>>, trace: seq<World<I>>)
    requires SlotRun(slots, entries, trace) && |trace| > 1
    ensures SlotRun(slots, entries, trace[..|trace| - 1])
    ensures SlotStep(slots, entries, trace[|trace| - 2], trace[|trace| - 1])
  {
    assert forall k | 0 <= k < |trace| - 1 :: SlotStep(slots, entries, trace[k], trace[k + 1]);
  }

  // ---- Every step leaves less to do.

  ghost function Left<I>(entries: seq<Entry<I>>, w: World<I>): int
    requires Inv(entries, w.protocol)
  {
    4 * (AllSteps(entries) - Work(entries, w.protocol))
    + (if w.pool.spawning then 3 else 0) + 2 * w.pool.selecting + |w.pool.running| + w.pool.leaving
  }

  lemma ProtocolShrinks<I>(entries: seq<Entry<I>>, w: World<I>, w': World<I>)
    requires Lively(entries, w.protocol) && (Produce(entries, w, w') || Consume(entries, w, w') || AddTask(w, w'))
    ensures Inv(entries, w'.protocol) && Left(entries, w') < Left(entries, w)
  {
    StepWorks(entries, w.protocol, w'.protocol);
  }

  lemma FinishShrinks<I>(entries: seq<Entry<I>>, w: World<I>, id: nat, w': World<I>)
    requires Lively(entries, w.protocol) && Finish(w, id, w')
    ensures Inv(entries, w'.protocol) && Left(entries, w') < Left(entries, w)
  {
    assert Step(entries, w.protocol, w'.protocol);
    StepWorks(entries, w.protocol, w'.protocol);
  }

  lemma SlotStepShrinks<I>(slots: nat, entries: seq<Entry<I>>, w: World<I>, w': World<I>)
    requires SlotInv(slots, entries, w) && SlotStep(slots, entries, w, w')
    ensures SlotInv(slots, entries, w') && 0 <= Left(entries, w') < Left(entries, w)
  {
    SlotStepInv(slots, entries, w, w');
    WorkBound(entries, w'.protocol);
    if Produce(entries, w, w') || Consume(entries, w, w') || AddTask(w, w') {
      ProtocolShrinks(entries, w, w');
    } else if id :| Finish(w, id, w') {
      FinishShrinks(entries, w, id, w');
    }
  }

  lemma {:induction false} RunShrinks<I>(slots: nat, entries: seq<Entry<I>>, trace: seq<World<I>>)
    requires slots >= 1 && SlotRun(slots, entries, trace)
    ensures var w := trace[|trace| - 1];
            SlotInv(slots, entries, w) && |trace| + Left(entries, w) <= 1 + 4 * AllSteps(entries)
    decreases |trace|
  {
    if |trace| == 1 {
      InitSlotInv(slots, entries);
    } else {
      SlotRunFront(slots, entries, trace);
      RunShrinks(slots, entries, trace[..|trace| - 1]);
      SlotStepShrinks(slots, entries, trace[|trace| - 2], trace[|trace| - 1]);
    }
  }

  // ---- When no run starves.

  /** The chunk at `j` can be left without a runner: as many chunks precede it as there are slots beside
      the producer's. Then the producer stops at the next hold, or at a full channel. */
  ghost predicate Strands<I>(slots: nat, entries: seq<Entry<I>>, j: nat) {
    && j < |entries| && entries[j].Piece? && MapperSteps(entries, j) + 1 >= slots
    && (forall h: nat | h < j :: !Misplaced(entries, h))
    && (Hold in entries[j + 1..] || |entries| - (j + 1) >= CHUNKS_BUFFER_SIZE)
  }

  ghost predicate TooMuch<I>(slots: nat, entries: seq<Entry<I>>) {
    exists j :: Strands(slots, entries, j)
  }

  lemma {:induction false} ChannelLength<I>(entries: seq<Entry<I>>, lo: nat, hi: nat)
    requires lo <= hi <= |entries|
    ensures |ChunksBetween(entries, lo, hi)| <= hi - lo
    ensures (forall k | lo <= k < hi :: entries[k].Piece?) ==> |ChunksBetween(entries, lo, hi)| == hi - lo
  {
    if lo < hi {
      ChannelLength(entries, lo, hi - 1);
    }
  }

  /** As long as there are runners some step is possible. */
  lemma PoolGoesOn<I>(slots: nat, entries: seq<Entry<I>>, w: World<I>) returns (w': World<I>)
    requires SlotInv(slots, entries, w) && (w.pool.spawning || w.pool.Runners() > 0)
    ensures SlotStep(slots, entries, w, w')
  {
    var pool := w.pool;
    if pool.spawning {
      w' := SpawnFrom(slots, w);
    } else if pool.leaving > 0 {
      w' := w.(pool := pool.(leaving := pool.leaving - 1));
    } else if pool.running != {} {
      var id :| id in pool.running;
      w' := FinishFrom(w, id);
    } else if pool.queue == [] {
      w' := w.(pool := pool.(selecting := pool.selecting - 1, leaving := pool.leaving + 1));
      assert FindNone(w, w');
    } else {
      w' := SelectFrom(w);
    }
  }

  lemma SpawnFrom<I>(slots: nat, w: World<I>) returns (w': World<I>)
    requires w.pool.spawning
    ensures Spawn(slots, w, w')
  {
    w' := w.(pool := w.pool.(spawning := false,
                             selecting := w.pool.selecting + if 1 + w.pool.Runners() < slots then 1 else 0));
  }

  lemma SelectFrom<I>(w: World<I>) returns (w': World<I>)
    requires w.pool.selecting > 0 && w.pool.queue != []
    ensures Select(w, w')
  {
    w' := w.(pool := w.pool.(queue := w.pool.queue[1..], selecting := w.pool.selecting - 1,
                             running := w.pool.running + {w.pool.queue[0]}));
  }

  lemma FinishFrom<I>(w: World<I>, id: nat) returns (w': World<I>)
    requires id in w.pool.running && id in w.protocol.scheduled
    ensures Finish(w, id, w')
  {
    var s := w.protocol;
    w' := World(s.(scheduled := s.scheduled - {id}, mapped := s.mapped + {id}),
                w.pool.(running := w.pool.running - {id}, selecting := w.pool.selecting + 1));
  }

  lemma FreeGoesOn<I>(slots: nat, entries: seq<Entry<I>>, w: World<I>, s': State<I>) returns (w': World<I>)
    requires !w.pool.spawning && FreeStep(entries, w.protocol, s')
    ensures w'.protocol == s' && SlotStep(slots, entries, w, w')
    ensures Produce(entries, w, w') || Consume(entries, w, w') || AddTask(w, w')
  {
    var pool, s := w.pool, w.protocol;
    if Schedule(s, s') {
      w' := World(s', pool.(queue := pool.queue + [s.position], spawning := true));
    } else if ConsumerStep(entries, s, s') {
      w' := World(s', pool);
    } else {
      w' := World(s', if s'.producer == Ended then pool.(selecting := pool.selecting + 1) else pool);
    }
  }

  /** Without runners nothing but a task left in the queue can stop the protocol, while the producer
      waits at a hold or at the full channel. */
  lemma StopsWhere<I>(entries: seq<Entry<I>>, s: State<I>) returns (s': State<I>)
    requires Lively(entries, s) && !s.consumer.Finished? && s.producer != Ended
    ensures || FreeStep(entries, s, s')
            || (&& s.consumer.AwaitingResult? && s.consumer.id in s.scheduled
                && (s.producer == Waiting || |s.channel| >= CHUNKS_BUFFER_SIZE) && s.producer != Scheduling)
  {
    s' := s;
    match s.producer
    case Pulling => s' := PullFrom(entries, s);
    case Scheduling => s' := ScheduleFrom(s);
    case Waiting => s' := HoldStops(entries, s);
    case _ =>
      if |s.channel| < CHUNKS_BUFFER_SIZE {
        s' := PushFrom(s);
      } else {
        s' := ConsumerStops(entries, s);
      }
  }

  lemma ConsumerStops<I>(entries: seq<Entry<I>>, s: State<I>) returns (s': State<I>)
    requires Lively(entries, s) && !s.consumer.Finished? && s.producer != Scheduling
             && (s.consumer == Idle ==> s.channel != [])
    ensures ConsumerStep(entries, s, s') || (s.consumer.AwaitingResult? && s.consumer.id in s.scheduled)
  {
    s' := s;
    if s.consumer == Idle {
      s' := TakeFrom(s);
    } else if s.consumer.Yielding? {
      s' := YieldFrom(entries, s);
    } else if s.consumer.id in s.mapped {
      s' := s.(mapped := s.mapped - {s.consumer.id}, consumer := Yielding(s.consumer.id, 0));
      assert TakeResult(s, s');
    }
  }

  lemma HoldStops<I>(entries: seq<Entry<I>>, s: State<I>) returns (s': State<I>)
    requires Lively(entries, s) && s.producer == Waiting && !s.consumer.Finished?
    ensures || ProducerStep(entries, s, s') || ConsumerStep(entries, s, s')
            || (s.consumer.AwaitingResult? && s.consumer.id in s.scheduled)
  {
    var p := s.preceding.value;
    if p in s.flagged {
      s' := s.(producer := Pulling, position := s.position + 1, flagged := s.flagged - {p}, preceding := None);
      assert PassHold(s, s');
    } else {
      if s.consumer == Idle {
        assert ChunksBetween(entries, s.front, p + 1) != [];
      }
      s' := ConsumerStops(entries, s);
    }
  }

  lemma LeftBehind<I>(slots: nat, entries: seq<Entry<I>>, w: World<I>)
    requires SlotInv(slots, entries, w) && !w.pool.spawning && w.pool.Runners() == 0
    requires w.protocol.consumer.AwaitingResult? && w.protocol.consumer.id in w.protocol.scheduled
    requires w.protocol.producer != Scheduling && w.protocol.producer != Ended
    requires w.protocol.producer == Waiting || |w.protocol.channel| >= CHUNKS_BUFFER_SIZE
    ensures Strands(slots, entries, w.protocol.consumer.id)
  {
    var s, id := w.protocol, w.protocol.consumer.id;
    assert id in w.pool.queue && w.pool.queue[0] <= id;
    StepsGrow(entries, w.pool.queue[0], id);
    if s.producer == Waiting {
      assert entries[id + 1..][s.position - (id + 1)] == Hold;
    } else {
      ChannelLength(entries, s.front, s.position);
    }
  }

  /** Without runners nothing is ever mapped, and only what is too much waits for that. */
  lemma IdleGoesOn<I>(slots: nat, entries: seq<Entry<I>>, w: World<I>) returns (s': State<I>)
    requires SlotInv(slots, entries, w) && !w.pool.spawning && w.pool.Runners() == 0
    requires !w.protocol.consumer.Finished? && !TooMuch(slots, entries)
    ensures FreeStep(entries, w.protocol, s')
  {
    if w.protocol.producer == Ended {
      assert w.pool.queue == [] && w.protocol.scheduled == {};
      s' := NotStuck(entries, w.protocol);
    } else {
      s' := StopsWhere(entries, w.protocol);
      if !FreeStep(entries, w.protocol, s') {
        LeftBehind(slots, entries, w);
        assert false;
      }
    }
  }

  lemma NotStarved<I(!new)>(slots: nat, entries: seq<Entry<I>>, w: World<I>)
    requires SlotInv(slots, entries, w) && !w.protocol.consumer.Finished? && !TooMuch(slots, entries)
    ensures CanGoOn(slots, entries, w)
  {
    if w.pool.spawning || w.pool.Runners() > 0 {
      var w' := PoolGoesOn(slots, entries, w);
    } else {
      var s' := IdleGoesOn(slots, entries, w);
      var w' := FreeGoesOn(slots, entries, w, s');
    }
  }
}
