/** The concurrent producer and mapper come to an end: no reachable state is stuck, every step is
    progress, and so every run that cannot go on has yielded what the sequential form yields. */
module MappingProgress {
  import opened Common
  import opened CursoredIterators
  import opened ParallelMapping

  // ---- What keeps the protocol going.

  /** Every chunk whose result the consumer has not taken is scheduled or mapped, once the producer
      is past it; only a chunk that was is ever mapped. */
  ghost predicate TasksReady<I>(entries: seq<Entry<I>>, position: nat, scheduled: set<nat>, mapped: set<nat>,
                                front: nat, consumer: ParallelMapping.Consumer)
    requires position <= |entries|
  {
    && (forall id <- scheduled :: id < position)
    && (forall id <- mapped :: id < position)
    && (front > position ==> consumer == AwaitingResult(position))
    && (forall id: nat | id < position && entries[id].Piece? && (id >= front || consumer == AwaitingResult(id)) ::
          id in scheduled || id in mapped)
  }

  /** The chunk that a hold will wait for is reported as soon as it has been yielded. */
  ghost predicate Reported(producer: ParallelMapping.Producer, preceding: Option<nat>, done: nat, flagged: set<nat>) {
    (producer.Pulling? || producer.Waiting?) && preceding.Some? && preceding.value < done ==> preceding.value in flagged
  }

  ghost predicate Lively<I>(entries: seq<Entry<I>>, s: State<I>) {
    && Inv(entries, s)
    && TasksReady(entries, s.position, s.scheduled, s.mapped, s.front, s.consumer)
    && Reported(s.producer, s.preceding, Done(s), s.flagged)
  }

  lemma InitLively<I>(entries: seq<Entry<I>>)
    ensures Lively(entries, Init())
  {
  }

  /** Pulling and pushing change only what the producer is about to do, and the channel. */
  lemma ProducerMoves<I>(entries: seq<Entry<I>>, s: State<I>, s': State<I>)
    requires Pull(entries, s, s') || Push(s, s')
    ensures s'.position == s.position && s'.scheduled == s.scheduled && s'.mapped == s.mapped && s'.flagged == s.flagged
    ensures s'.front == s.front && s'.consumer == s.consumer
    ensures s'.producer != Pulling && (s'.producer == Waiting ==> s.producer == Pulling && s'.preceding == s.preceding)
    ensures ProducerPhase(s'.producer) == ProducerPhase(s.producer) + 1
  {
  }

  lemma ProducerLively<I>(entries: seq<Entry<I>>, s: State<I>, s': State<I>)
    requires Lively(entries, s) && Inv(entries, s') && (Pull(entries, s, s') || Push(s, s'))
    ensures Lively(entries, s')
  {
    ProducerMoves(entries, s, s');
  }

  lemma PassHoldLively<I>(entries: seq<Entry<I>>, s: State<I>, s': State<I>)
    requires Lively(entries, s) && Inv(entries, s') && PassHold(s, s')
    ensures Lively(entries, s')
  {
    ReadyPastHold(entries, s.position, s.scheduled, s.mapped, s.front, s.consumer);
  }

  lemma ReadyPastHold<I>(entries: seq<Entry<I>>, position: nat, scheduled: set<nat>, mapped: set<nat>, front: nat,
                         consumer: ParallelMapping.Consumer)
    requires position < |entries| && entries[position].Hold? && front <= position
    requires TasksReady(entries, position, scheduled, mapped, front, consumer)
    ensures TasksReady(entries, position + 1, scheduled, mapped, front, consumer)
  {
  }

  lemma ScheduleLively<I>(entries: seq<Entry<I>>, s: State<I>, s': State<I>)
    requires Lively(entries, s) && Inv(entries, s') && Schedule(s, s')
    ensures Lively(entries, s')
  {
  }

  lemma TakeLively<I>(entries: seq<Entry<I>>, s: State<I>, s': State<I>)
    requires Lively(entries, s) && Inv(entries, s') && Take(s, s')
    ensures Lively(entries, s')
  {
    if s.channel[0].ChunkSignal? {
      TakenChannel(entries, s, s');
    }
  }

  lemma ReadyTaken<I>(entries: seq<Entry<I>>, position: nat, scheduled: set<nat>, mapped: set<nat>, id: nat)
    requires position <= |entries| && id in mapped
    requires TasksReady(entries, position, scheduled, mapped, id + 1, AwaitingResult(id))
    ensures TasksReady(entries, position, scheduled, mapped - {id}, id + 1, Yielding(id, 0))
  {
  }

  lemma TakeResultLively<I>(entries: seq<Entry<I>>, s: State<I>, s': State<I>)
    requires Lively(entries, s) && Inv(entries, s') && TakeResult(s, s')
    ensures Lively(entries, s')
  {
    assert s.front == s.consumer.id + 1;
    ReadyTaken(entries, s.position, s.scheduled, s.mapped, s.consumer.id);
  }

  lemma ReadyYielding<I>(entries: seq<Entry<I>>, position: nat, scheduled: set<nat>, mapped: set<nat>, front: nat,
                         consumer: ParallelMapping.Consumer, consumer': ParallelMapping.Consumer)
    requires position <= |entries| && consumer.Yielding? && !consumer'.AwaitingResult?
    requires TasksReady(entries, position, scheduled, mapped, front, consumer)
    ensures TasksReady(entries, position, scheduled, mapped, front, consumer')
  {
  }

  lemma YieldKeeps<I>(entries: seq<Entry<I>>, s: State<I>, s': State<I>)
    requires YieldOne(entries, s, s') && ConsumerInv(entries, s)
    ensures s'.position == s.position && s'.scheduled == s.scheduled && s'.mapped == s.mapped && s'.front == s.front
    ensures s'.producer == s.producer && s'.preceding == s.preceding && !s'.consumer.AwaitingResult?
    ensures s'.flagged == s.flagged + if s'.consumer == Idle then {s.consumer.id} else {}
    ensures Done(s') == Done(s) + if s'.consumer == Idle then 1 else 0
    ensures ConsumerWork(entries, s'.front, s'.consumer) == ConsumerWork(entries, s.front, s.consumer) + 1
  {
  }

  lemma YieldLively<I>(entries: seq<Entry<I>>, s: State<I>, s': State<I>)
    requires Lively(entries, s) && Inv(entries, s') && YieldOne(entries, s, s')
    ensures Lively(entries, s')
  {
    YieldKeeps(entries, s, s');
    ReadyYielding(entries, s.position, s.scheduled, s.mapped, s.front, s.consumer, s'.consumer);
  }

  lemma StepLively<I>(entries: seq<Entry<I>>, s: State<I>, s': State<I>)
    requires Lively(entries, s) && Step(entries, s, s')
    ensures Lively(entries, s')
  {
    StepInv(entries, s, s');
    if Pull(entries, s, s') || Push(s, s') {
      ProducerLively(entries, s, s');
    } else if PassHold(s, s') {
      PassHoldLively(entries, s, s');
    } else if Schedule(s, s') {
      ScheduleLively(entries, s, s');
    } else if Take(s, s') {
      TakeLively(entries, s, s');
    } else if TakeResult(s, s') {
      TakeResultLively(entries, s, s');
    } else if YieldOne(entries, s, s') {
      YieldLively(entries, s, s');
    }
  }

  // ---- No state is stuck.

  /** A consumer that has a chunk can always go on with it, unless the chunk is still to be scheduled. */
  lemma ConsumerMoves<I>(entries: seq<Entry<I>>, s: State<I>) returns (s': State<I>)
    requires Lively(entries, s) && (s.consumer.AwaitingResult? || s.consumer.Yielding?) && s.front <= s.position
    ensures Step(entries, s, s')
  {
    var id := s.consumer.id;
    if s.consumer.Yielding? {
      s' := YieldFrom(entries, s);
    } else if id in s.mapped {
      s' := s.(mapped := s.mapped - {id}, consumer := Yielding(id, 0));
      assert TakeResult(s, s');
    } else {
      s' := s.(scheduled := s.scheduled - {id}, mapped := s.mapped + {id});
      assert Map(s, id, s');
    }
  }

  lemma YieldFrom<I>(entries: seq<Entry<I>>, s: State<I>) returns (s': State<I>)
    requires s.consumer.Yielding? && s.consumer.id < |entries| && entries[s.consumer.id].Piece?
    ensures YieldOne(entries, s, s')
  {
    var piece, n := entries[s.consumer.id], s.consumer.position;
    if n < |piece.items| {
      s' := s.(consumer := Yielding(s.consumer.id, n + 1),
               yielded := s.yielded +
                   [ItemAndCursor(piece.items[n].item, WithHead(piece.items[n].cursor, piece.head))]);
    } else {
      s' := s.(consumer := Idle, flagged := s.flagged + {s.consumer.id});
    }
  }

  lemma TakeFrom<I>(s: State<I>) returns (s': State<I>)
    requires s.consumer == Idle && s.channel != []
    ensures Take(s, s')
  {
    var rest := s.(channel := s.channel[1..]);
    match s.channel[0]
    case FailedSignal => s' := rest.(consumer := Finished(true));
    case CompletedSignal => s' := rest.(consumer := Finished(false));
    case ChunkSignal(id) => s' := rest.(consumer := AwaitingResult(id), front := id + 1);
  }

  lemma PullFrom<I>(entries: seq<Entry<I>>, s: State<I>) returns (s': State<I>)
    requires s.producer == Pulling && s.position <= |entries|
    ensures Pull(entries, s, s')
  {
    s' := if s.position == |entries| then s.(producer := Completing, preceding := None)
          else if entries[s.position].Piece? then s.(producer := Pushing, preceding := Some(s.position))
          else if s.preceding.None? then s.(producer := Failing)
          else s.(producer := Waiting);
  }

  lemma ScheduleFrom<I>(s: State<I>) returns (s': State<I>)
    requires s.producer == Scheduling
    ensures Schedule(s, s')
  {
    s' := s.(producer := Pulling, position := s.position + 1, scheduled := s.scheduled + {s.position});
  }

  lemma PushFrom<I>(s: State<I>) returns (s': State<I>)
    requires |s.channel| < CHUNKS_BUFFER_SIZE && (s.producer.Pushing? || s.producer.Failing? || s.producer.Completing?)
    ensures Push(s, s')
  {
    match s.producer
    case Pushing => s' := s.(producer := Scheduling, channel := s.channel + [ChunkSignal(s.position)]);
    case Failing => s' := s.(producer := Ended, channel := s.channel + [FailedSignal]);
    case Completing => s' := s.(producer := Ended, channel := s.channel + [CompletedSignal]);
  }

  /** The consumer can move when there is something in the channel or in its hands. */
  lemma ConsumerGoesOn<I>(entries: seq<Entry<I>>, s: State<I>) returns (s': State<I>)
    requires Lively(entries, s) && !s.consumer.Finished? && s.producer != Scheduling
             && (s.consumer == Idle ==> s.channel != [])
    ensures Step(entries, s, s')
  {
    if s.consumer == Idle {
      s' := TakeFrom(s);
    } else {
      s' := ConsumerMoves(entries, s);
    }
  }

  /** Until the consumer is through some step is possible. */
  lemma NotStuck<I>(entries: seq<Entry<I>>, s: State<I>) returns (s': State<I>)
    requires Lively(entries, s) && !s.consumer.Finished?
    ensures Step(entries, s, s')
  {
    match s.producer
    case Pulling => s' := PullFrom(entries, s);
    case Scheduling => s' := ScheduleFrom(s);
    case Waiting => s' := HoldGoesOn(entries, s);
    case Ended => s' := ConsumerGoesOn(entries, s);
    case _ =>
      if |s.channel| < CHUNKS_BUFFER_SIZE {
        s' := PushFrom(s);
      } else {
        s' := ConsumerGoesOn(entries, s);
      }
  }

  /** A hold waits for a chunk that was reported, is in the channel, or in the consumer's hands. */
  lemma HoldGoesOn<I>(entries: seq<Entry<I>>, s: State<I>) returns (s': State<I>)
    requires Lively(entries, s) && s.producer == Waiting
    ensures Step(entries, s, s')
  {
    var p := s.preceding.value;
    if p in s.flagged {
      s' := s.(producer := Pulling, position := s.position + 1, flagged := s.flagged - {p}, preceding := None);
      assert PassHold(s, s');
    } else {
      if s.consumer == Idle {
        assert ChunksBetween(entries, s.front, p + 1) != [];
      }
      s' := ConsumerGoesOn(entries, s);
    }
  }

  // ---- Every step is progress.

  ghost function ProducerSteps<I>(entries: seq<Entry<I>>, n: nat): nat
    requires n <= |entries|
  {
    if n == 0 then 0 else ProducerSteps(entries, n - 1) + if entries[n - 1].Piece? then 3 else 2
  }

  ghost function MapperSteps<I>(entries: seq<Entry<I>>, n: nat): nat
    requires n <= |entries|
  {
    if n == 0 then 0 else MapperSteps(entries, n - 1) + if entries[n - 1].Piece? then 1 else 0
  }

  ghost function ConsumerSteps<I>(entries: seq<Entry<I>>, n: nat): nat
    requires n <= |entries|
  {
    if n == 0 then 0 else ConsumerSteps(entries, n - 1) + if entries[n - 1].Piece? then |entries[n - 1].items| + 3
        else 0
  }

  ghost function ProducerPhase(p: ParallelMapping.Producer): nat {
    match p
    case Pulling => 0
    case Scheduling => 2
    case Ended => 2
    case _ => 1
  }

  ghost function ConsumerWork<I>(entries: seq<Entry<I>>, front: nat, consumer: ParallelMapping.Consumer): nat
    requires front <= |entries| && (consumer.AwaitingResult? || consumer.Yielding? ==> consumer.id < |entries|)
  {
    match consumer
    case Idle => ConsumerSteps(entries, front)
    case AwaitingResult(id) => ConsumerSteps(entries, id) + 1
    case Yielding(id, n) => ConsumerSteps(entries, id) + 2 + n
    case Finished(_) => ConsumerSteps(entries, front) + 1
  }

  /** How many steps have been taken. */
  ghost function Work<I>(entries: seq<Entry<I>>, s: State<I>): int
    requires Inv(entries, s)
  {
    ProducerSteps(entries, s.position) + ProducerPhase(s.producer)
    + (MapperSteps(entries, s.position) - |s.scheduled|)
    + ConsumerWork(entries, s.front, s.consumer)
  }

  /** How many steps there are to take. */
  ghost function AllSteps<I>(entries: seq<Entry<I>>): nat {
    ProducerSteps(entries, |entries|) + MapperSteps(entries, |entries|) + ConsumerSteps(entries, |entries|) + 3
  }

  lemma {:induction false} HoldsTakeNoSteps<I>(entries: seq<Entry<I>>, lo: nat, hi: nat)
    requires lo <= hi <= |entries| && forall k | lo <= k < hi :: entries[k].Hold?
    ensures ConsumerSteps(entries, lo) == ConsumerSteps(entries, hi)
  {
    if lo < hi {
      HoldsTakeNoSteps(entries, lo, hi - 1);
    }
  }

  lemma ProducerWorks<I>(entries: seq<Entry<I>>, s: State<I>, s': State<I>)
    requires Lively(entries, s) && Inv(entries, s') && (Pull(entries, s, s') || Push(s, s'))
    ensures Work(entries, s') == Work(entries, s) + 1
  {
    ProducerMoves(entries, s, s');
  }

  lemma PositionWorks<I>(entries: seq<Entry<I>>, s: State<I>, s': State<I>)
    requires Lively(entries, s) && Inv(entries, s') && (PassHold(s, s') || Schedule(s, s'))
    ensures Work(entries, s') == Work(entries, s) + 1
  {
    assert s'.position == s.position + 1 && s'.front == s.front && s'.consumer == s.consumer;
    assert ProducerSteps(entries, s'.position) == ProducerSteps(entries, s.position) + ProducerPhase(s.producer) + 1;
  }

  lemma ConsumerWorks<I>(entries: seq<Entry<I>>, s: State<I>, s': State<I>)
    requires Lively(entries, s) && Inv(entries, s') && (TakeResult(s, s') || YieldOne(entries, s, s'))
    ensures Work(entries, s') == Work(entries, s) + 1
  {
    if YieldOne(entries, s, s') {
      YieldKeeps(entries, s, s');
    }
  }

  lemma TakeWorks<I>(entries: seq<Entry<I>>, s: State<I>, s': State<I>)
    requires Lively(entries, s) && Inv(entries, s') && Take(s, s')
    ensures Work(entries, s') == Work(entries, s) + 1
  {
    if s.channel[0].ChunkSignal? {
      TakenChannel(entries, s, s');
      HoldsTakeNoSteps(entries, s.front, s.channel[0].id);
    }
  }

  lemma StepWorks<I>(entries: seq<Entry<I>>, s: State<I>, s': State<I>)
    requires Lively(entries, s) && Step(entries, s, s')
    ensures Lively(entries, s') && Work(entries, s') == Work(entries, s) + 1
  {
    StepLively(entries, s, s');
    if Pull(entries, s, s') || Push(s, s') {
      ProducerWorks(entries, s, s');
    } else if PassHold(s, s') || Schedule(s, s') {
      PositionWorks(entries, s, s');
    } else if Take(s, s') {
      TakeWorks(entries, s, s');
    } else if TakeResult(s, s') || YieldOne(entries, s, s') {
      ConsumerWorks(entries, s, s');
    }
  }

  lemma {:induction false} StepsGrow<I>(entries: seq<Entry<I>>, n: nat, m: nat)
    requires n <= m <= |entries|
    ensures ProducerSteps(entries, n) <= ProducerSteps(entries, m) && MapperSteps(entries, n) <= MapperSteps(entries, m)
    ensures ConsumerSteps(entries, n) <= ConsumerSteps(entries, m)
  {
    if n < m {
      StepsGrow(entries, n, m - 1);
    }
  }

  lemma WorkBound<I>(entries: seq<Entry<I>>, s: State<I>)
    requires Inv(entries, s)
    ensures Work(entries, s) <= AllSteps(entries)
  {
    StepsGrow(entries, s.position, |entries|);
    StepsGrow(entries, s.front, |entries|);
    if s.consumer.AwaitingResult? || s.consumer.Yielding? {
      StepsGrow(entries, s.consumer.id + 1, |entries|);
    }
  }

  lemma {:induction false} RunWorks<I>(entries: seq<Entry<I>>, trace: seq<State<I>>)
    requires Run(entries, trace)
    ensures Lively(entries, trace[|trace| - 1]) && Work(entries, trace[|trace| - 1]) == |trace| - 1
    decreases |trace|
  {
    if |trace| == 1 {
      InitLively(entries);
    } else {
      RunFront(entries, trace);
      RunWorks(entries, trace[..|trace| - 1]);
      StepWorks(entries, trace[|trace| - 2], trace[|trace| - 1]);
    }
  }

  // ---- The results.

  /** The consumer is through with an error exactly at the first hold that no chunk precedes, and
      without one when everything was yielded and there is no such hold. */
  ghost predicate EndsRight<I>(entries: seq<Entry<I>>, s: State<I>) {
    && s.position <= |entries| && s.yielded == Yields(entries[..s.position])
    && (if s.consumer == Finished(true) then Misplaced(entries, s.position)
        else s.yielded == Yields(entries) && s.position == |entries|)
    && forall h: nat | h < s.position :: !Misplaced(entries, h)
  }

  lemma YieldsRight<I>(entries: seq<Entry<I>>, s: State<I>)
    requires Inv(entries, s)
    ensures s.yielded <= Yields(entries) && (s.consumer.Finished? ==> EndsRight(entries, s))
  {
    InvMeansYielded(entries, s);
    if s.consumer.Finished? {
      InvMeansFinished(entries, s);
      assert entries[..|entries|] == entries;
    }
  }

  /** If mapper tasks could run at any time, every run that cannot go on would have ended, and ended
      right, within a bound that the entries give. */
  lemma ProtocolYieldsSequential<I>(entries: seq<Entry<I>>, trace: seq<State<I>>)
    requires Run(entries, trace)
    ensures var s := trace[|trace| - 1];
            && s.yielded <= Yields(entries) && |trace| <= 1 + AllSteps(entries)
            && (if s.consumer.Finished? then EndsRight(entries, s) else exists s' :: Step(entries, s, s'))
  {
    RunWorks(entries, trace);
    var s := trace[|trace| - 1];
    WorkBound(entries, s);
    YieldsRight(entries, s);
    if !s.consumer.Finished? {
      var s' := NotStuck(entries, s);
    }
  }

  /** A hold before any chunk: the sequential form yields nothing, the concurrent one an error. */
  lemma MisplacedHoldWitness<I>() returns (trace: seq<State<I>>)
    ensures Run([Hold], trace) && trace[|trace| - 1].consumer == Finished(true) && Yields<I>([Hold]) == []
  {
    var entries: seq<Entry<I>> := [Hold];
    var s0: State<I> := Init();
    var s1 := s0.(producer := Failing);
    var s2 := s1.(producer := Ended, channel := [FailedSignal]);
    var s3 := s2.(channel := [], consumer := Finished(true));
    assert Pull(entries, s0, s1) && Push(s1, s2) && Take(s2, s3);
    trace := [s0, s1, s2, s3];
    assert entries[..0] == [];
  }
}
