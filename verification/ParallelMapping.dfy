/** Producing, mapping and yielding at the same time: the producer pushes chunks into a bounded
    ordered channel and schedules a mapper task for each, the consumer yields the mapped items
    chunk by chunk, and a hold makes the producer wait until the chunk before it was yielded. */
module ParallelMapping {
  import opened Common
  import opened CursoredIterators

  const CHUNKS_BUFFER_SIZE: nat := 1000

  /** What the producer makes: a chunk, here with the items the mapper makes of it and the section
      that goes to the head of their cursors, or a hold. */
  datatype Entry<I> = Piece(items: seq<ItemAndCursor<I>>, head: Section) | Hold

  ghost function YieldsOne<I>(entry: Entry<I>): seq<ItemAndCursor<I>> {
    if entry.Piece? then WithHeads(entry.items, entry.head) else []
  }

  /** What the sequential form yields. */
  ghost function Yields<I>(entries: seq<Entry<I>>): seq<ItemAndCursor<I>> {
    if entries == [] then [] else Yields(entries[..|entries| - 1]) + YieldsOne(entries[|entries| - 1])
  }

  // ---- The protocol.

  /** What the producer is about to do. */
  datatype Producer = Pulling | Waiting | Pushing | Scheduling | Failing | Completing | Ended

  datatype Signal = ChunkSignal(id: nat) | FailedSignal | CompletedSignal

  /** What the consumer is doing: waiting for a chunk, for its mapping, yielding, or through. */
  datatype Consumer = Idle | AwaitingResult(id: nat) | Yielding(id: nat, position: nat) | Finished(failed: bool)

  /** Chunks are known by their position among the entries. `mapped` holds those whose result is
      ready, `flagged` those reported as yielded, and `front` is where the consumer has got to. */
  datatype State<I> = State(
    position: nat,
    producer: Producer,
    preceding: Option<nat>,
    channel: seq<Signal>,
    scheduled: set<nat>,
    mapped: set<nat>,
    flagged: set<nat>,
    front: nat,
    consumer: Consumer,
    yielded: seq<ItemAndCursor<I>>)

  function Init<I>(): State<I> {
    State(0, Pulling, None, [], {}, {}, {}, 0, Idle, [])
  }

  ghost predicate Pull<I>(entries: seq<Entry<I>>, s: State<I>, s': State<I>) {
    && s.producer == Pulling && s.position <= |entries|
    && s' == if s.position == |entries| then s.(producer := Completing, preceding := None)
             else if entries[s.position].Piece? then s.(producer := Pushing, preceding := Some(s.position))
             else if s.preceding.None? then s.(producer := Failing)
             else s.(producer := Waiting)
  }

  ghost predicate PassHold<I>(s: State<I>, s': State<I>) {
    && s.producer == Waiting && s.preceding.Some? && s.preceding.value in s.flagged
    && s' == s.(producer := Pulling, position := s.position + 1, flagged := s.flagged - {s.preceding.value},
                preceding := None)
  }

  ghost predicate Push<I>(s: State<I>, s': State<I>) {
    && |s.channel| < CHUNKS_BUFFER_SIZE
    && match s.producer
       case Pushing => s' == s.(producer := Scheduling, channel := s.channel + [ChunkSignal(s.position)])
       case Failing => s' == s.(producer := Ended, channel := s.channel + [FailedSignal])
       case Completing => s' == s.(producer := Ended, channel := s.channel + [CompletedSignal])
       case _ => false
  }

  ghost predicate Schedule<I>(s: State<I>, s': State<I>) {
    && s.producer == Scheduling
    && s' == s.(producer := Pulling, position := s.position + 1, scheduled := s.scheduled + {s.position})
  }

  /** A mapper task runs to its end; tasks may do so in any order. */
  ghost predicate Map<I>(s: State<I>, id: nat, s': State<I>) {
    id in s.scheduled && s' == s.(scheduled := s.scheduled - {id}, mapped := s.mapped + {id})
  }

  ghost predicate Take<I>(s: State<I>, s': State<I>) {
    && s.consumer == Idle && s.channel != []
    && var rest := s.(channel := s.channel[1..]);
       match s.channel[0]
       case FailedSignal => s' == rest.(consumer := Finished(true))
       case CompletedSignal => s' == rest.(consumer := Finished(false))
       case ChunkSignal(id) => s' == rest.(consumer := AwaitingResult(id), front := id + 1)
  }

  ghost predicate TakeResult<I>(s: State<I>, s': State<I>) {
    && s.consumer.AwaitingResult? && s.consumer.id in s.mapped
    && s' == s.(mapped := s.mapped - {s.consumer.id}, consumer := Yielding(s.consumer.id, 0))
  }

  ghost predicate YieldOne<I>(entries: seq<Entry<I>>, s: State<I>, s': State<I>) {
    && s.consumer.Yielding? && s.consumer.id < |entries| && entries[s.consumer.id].Piece?
    && var piece := entries[s.consumer.id];
       if s.consumer.position < |piece.items| then
         var r := piece.items[s.consumer.position];
         s' == s.(consumer := Yielding(s.consumer.id, s.consumer.position + 1),
                  yielded := s.yielded + [ItemAndCursor(r.item, WithHead(r.cursor, piece.head))])
       else
         s' == s.(consumer := Idle, flagged := s.flagged + {s.consumer.id})
  }

  ghost predicate Step<I>(entries: seq<Entry<I>>, s: State<I>, s': State<I>) {
    || Pull(entries, s, s') || PassHold(s, s') || Push(s, s') || Schedule(s, s')
    || Take(s, s') || TakeResult(s, s') || YieldOne(entries, s, s') || exists id :: Map(s, id, s')
  }

  ghost predicate Run<I>(entries: seq<Entry<I>>, trace: seq<State<I>>) {
    && trace != [] && trace[0] == Init()
    && forall k | 0 <= k < |trace| - 1 :: Step(entries, trace[k], trace[k + 1])
  }

  // ---- The invariant.

  /** The positions of the chunks from `lo` up to `hi`. */
  ghost function ChunksBetween<I>(entries: seq<Entry<I>>, lo: nat, hi: nat): seq<Signal>
    requires hi <= |entries|
  {
    if hi <= lo then []
    else ChunksBetween(entries, lo, hi - 1) + if entries[hi - 1].Piece? then [ChunkSignal(hi - 1)] else []
  }

  /** A hold that no chunk directly precedes. */
  ghost predicate Misplaced<I>(entries: seq<Entry<I>>, h: nat) {
    h < |entries| && entries[h].Hold? && (h == 0 || entries[h - 1].Hold?)
  }

  /** Up to where the producer has pushed. */
  ghost function PushedTo(position: nat, producer: Producer): nat {
    if producer == Scheduling then position + 1 else position
  }

  ghost function Pushed<I>(s: State<I>): nat {
    PushedTo(s.position, s.producer)
  }

  /** The chunk directly before a position, if there is one. */
  ghost function ChunkBefore<I>(entries: seq<Entry<I>>, position: nat): Option<nat>
    requires position <= |entries|
  {
    if position > 0 && entries[position - 1].Piece? then Some(position - 1) else None
  }

  ghost predicate ProducerAt<I>(entries: seq<Entry<I>>, position: nat, producer: Producer, preceding: Option<nat>) {
    && position <= |entries|
    && (forall h: nat | h < position :: !Misplaced(entries, h))
    && match producer
       case Pulling => preceding == ChunkBefore(entries, position)
       case Waiting => position < |entries| && entries[position].Hold? && preceding == ChunkBefore(entries, position)
           && preceding.Some?
       case Failing => Misplaced(entries, position)
       case Completing => position == |entries|
       case Ended => position == |entries| || Misplaced(entries, position)
       case _ => position < |entries| && entries[position].Piece? && preceding == Some(position)
  }

  ghost predicate ProducerInv<I>(entries: seq<Entry<I>>, s: State<I>) {
    ProducerAt(entries, s.position, s.producer, s.preceding)
  }

  /** The signal with which the producer ends, as long as the consumer has not taken it. */
  ghost function LastSignal<I>(entries: seq<Entry<I>>, position: nat, ended: bool, finished: bool): seq<Signal> {
    if !ended || finished then [] else if position == |entries| then [CompletedSignal] else [FailedSignal]
  }

  /** The channel holds the chunks pushed and not taken, then the last signal. */
  ghost predicate ChannelInv<I>(entries: seq<Entry<I>>, s: State<I>)
    requires ProducerInv(entries, s)
  {
    && s.front <= Pushed(s)
    && s.channel == ChunksBetween(entries, s.front, Pushed(s)) +
       LastSignal(entries, s.position, s.producer.Ended?, s.consumer.Finished?)
    && (s.consumer.Finished? ==> s.producer.Ended? && s.consumer.failed == (s.position < |entries|))
  }

  /** Where the consumer has yielded everything before. */
  ghost function Done<I>(s: State<I>): nat {
    if s.consumer.AwaitingResult? || s.consumer.Yielding? then s.consumer.id else s.front
  }

  ghost predicate ConsumerInv<I>(entries: seq<Entry<I>>, s: State<I>) {
    && s.front <= |entries|
    && match s.consumer
       case Idle => s.yielded == Yields(entries[..s.front])
       case AwaitingResult(id) =>
         s.front == id + 1 && entries[id].Piece? && s.yielded == Yields(entries[..id])
       case Yielding(id, n) =>
         && s.front == id + 1 && entries[id].Piece? && n <= |entries[id].items|
         && s.yielded == Yields(entries[..id]) + WithHeads(entries[id].items[..n], entries[id].head)
       case Finished(_) => s.position <= |entries| && s.yielded == Yields(entries[..s.position])
  }

  /** Chunks reported as yielded were yielded, and so was what precedes every hold passed. */
  ghost predicate HoldsPassed<I>(entries: seq<Entry<I>>, position: nat, flagged: set<nat>, done: nat)
    requires position <= |entries|
  {
    && (forall id <- flagged :: id < done)
    && (forall h: nat | h < position && entries[h].Hold? :: h <= done)
  }

  ghost predicate HoldInv<I>(entries: seq<Entry<I>>, s: State<I>)
    requires ProducerInv(entries, s)
  {
    HoldsPassed(entries, s.position, s.flagged, Done(s))
  }

  ghost predicate Inv<I>(entries: seq<Entry<I>>, s: State<I>) {
    ProducerInv(entries, s) && ChannelInv(entries, s) && ConsumerInv(entries, s) && HoldInv(entries, s)
  }

  lemma {:induction false} ChunksBetweenFirst<I>(entries: seq<Entry<I>>, lo: nat, hi: nat)
    requires hi <= |entries| && ChunksBetween(entries, lo, hi) != []
    ensures var first := ChunksBetween(entries, lo, hi)[0];
            && first.ChunkSignal? && lo <= first.id < hi && entries[first.id].Piece?
            && ChunksBetween(entries, lo, hi)[1..] == ChunksBetween(entries, first.id + 1, hi)
            && forall k | lo <= k < first.id :: entries[k].Hold?
  {
    var before := ChunksBetween(entries, lo, hi - 1);
    if before != [] {
      ChunksBetweenFirst(entries, lo, hi - 1);
    } else {
      NoChunks(entries, lo, hi - 1);
    }
  }

  lemma {:induction false} NoChunks<I>(entries: seq<Entry<I>>, lo: nat, hi: nat)
    requires hi <= |entries| && ChunksBetween(entries, lo, hi) == []
    ensures forall k | lo <= k < hi :: entries[k].Hold?
  {
    if lo < hi {
      NoChunks(entries, lo, hi - 1);
    }
  }

  /** Holds yield nothing. */
  lemma {:induction false} HoldsYieldNothing<I>(entries: seq<Entry<I>>, lo: nat, hi: nat)
    requires lo <= hi <= |entries| && forall k | lo <= k < hi :: entries[k].Hold?
    ensures Yields(entries[..lo]) == Yields(entries[..hi])
  {
    if lo < hi {
      HoldsYieldNothing(entries, lo, hi - 1);
      assert entries[..hi][..hi - 1] == entries[..hi - 1];
    }
  }

  lemma PullInv<I>(entries: seq<Entry<I>>, s: State<I>, s': State<I>)
    requires Inv(entries, s) && Pull(entries, s, s')
    ensures Inv(entries, s')
  {
  }

  lemma PushInv<I>(entries: seq<Entry<I>>, s: State<I>, s': State<I>)
    requires Inv(entries, s) && Push(s, s')
    ensures Inv(entries, s')
  {
    assert ProducerInv(entries, s');
    if s.producer == Pushing {
      assert ChunksBetween(entries, s.front, s.position + 1) == ChunksBetween(entries, s.front, s.position) +
             [ChunkSignal(s.position)];
    }
  }

  lemma ScheduleInv<I>(entries: seq<Entry<I>>, s: State<I>, s': State<I>)
    requires Inv(entries, s) && Schedule(s, s')
    ensures Inv(entries, s')
  {
  }

  lemma PassHoldInv<I>(entries: seq<Entry<I>>, s: State<I>, s': State<I>)
    requires Inv(entries, s) && PassHold(s, s')
    ensures Inv(entries, s')
  {
  }

  lemma TakeLastInv<I>(entries: seq<Entry<I>>, s: State<I>, s': State<I>)
    requires Inv(entries, s) && Take(s, s') && !s.channel[0].ChunkSignal?
    ensures Inv(entries, s')
  {
    if ChunksBetween(entries, s.front, Pushed(s)) == [] {
      NoChunks(entries, s.front, Pushed(s));
      HoldsYieldNothing(entries, s.front, s.position);
    } else {
      ChunksBetweenFirst(entries, s.front, Pushed(s));
      assert false;
    }
  }

  lemma TakeChunkInv<I>(entries: seq<Entry<I>>, s: State<I>, s': State<I>)
    requires Inv(entries, s) && Take(s, s') && s.channel[0].ChunkSignal?
    ensures Inv(entries, s')
  {
    TakenChannel(entries, s, s');
    TakenChunkYield(entries, s, s.channel[0].id);
  }

  lemma TakenChannel<I>(entries: seq<Entry<I>>, s: State<I>, s': State<I>)
    requires ProducerInv(entries, s) && ChannelInv(entries, s) && Take(s, s') && s.channel[0].ChunkSignal?
    ensures ProducerInv(entries, s') && ChannelInv(entries, s')
    ensures var id := s.channel[0].id;
            s.front <= id < |entries| && entries[id].Piece? && forall k | s.front <= k < id :: entries[k].Hold?
  {
    var chunks := ChunksBetween(entries, s.front, Pushed(s));
    assert chunks != [] && chunks[0] == s.channel[0];
    ChunksBetweenFirst(entries, s.front, Pushed(s));
    assert s.channel[1..] == chunks[1..] + s.channel[|chunks|..];
  }

  lemma TakenChunkYield<I>(entries: seq<Entry<I>>, s: State<I>, id: nat)
    requires ConsumerInv(entries, s) && s.consumer == Idle
    requires s.front <= id < |entries| && entries[id].Piece? && forall k | s.front <= k < id :: entries[k].Hold?
    ensures ConsumerInv(entries, s.(consumer := AwaitingResult(id), front := id + 1))
  {
    HoldsYieldNothing(entries, s.front, id);
  }

  lemma TakeResultInv<I>(entries: seq<Entry<I>>, s: State<I>, s': State<I>)
    requires Inv(entries, s) && TakeResult(s, s')
    ensures Inv(entries, s')
  {
  }

  lemma YieldInv<I>(entries: seq<Entry<I>>, s: State<I>, s': State<I>)
    requires Inv(entries, s) && YieldOne(entries, s, s')
    ensures Inv(entries, s')
  {
    YieldedOne(entries, s, s');
  }

  lemma YieldedOne<I>(entries: seq<Entry<I>>, s: State<I>, s': State<I>)
    requires ConsumerInv(entries, s) && YieldOne(entries, s, s')
    ensures ConsumerInv(entries, s')
  {
    var id, n := s.consumer.id, s.consumer.position;
    var items, head := entries[id].items, entries[id].head;
    if n < |items| {
      assert WithHeads(items[..n + 1], head) == WithHeads(items[..n], head) +
             [ItemAndCursor(items[n].item, WithHead(items[n].cursor, head))];
    } else {
      assert items[..n] == items;
      assert entries[..id + 1][..id] == entries[..id];
    }
  }

  lemma MapInv<I>(entries: seq<Entry<I>>, s: State<I>, id: nat, s': State<I>)
    requires Inv(entries, s) && Map(s, id, s')
    ensures Inv(entries, s')
  {
  }

  lemma InitInv<I>(entries: seq<Entry<I>>)
    ensures Inv(entries, Init())
  {
  }

  lemma StepInv<I>(entries: seq<Entry<I>>, s: State<I>, s': State<I>)
    requires Inv(entries, s) && Step(entries, s, s')
    ensures Inv(entries, s')
  {
    if Pull(entries, s, s') {
      PullInv(entries, s, s');
    } else if PassHold(s, s') {
      PassHoldInv(entries, s, s');
    } else if Push(s, s') {
      PushInv(entries, s, s');
    } else if Schedule(s, s') {
      ScheduleInv(entries, s, s');
    } else if Take(s, s') {
      if s.channel[0].ChunkSignal? {
        TakeChunkInv(entries, s, s');
      } else {
        TakeLastInv(entries, s, s');
      }
    } else if TakeResult(s, s') {
      TakeResultInv(entries, s, s');
    } else if YieldOne(entries, s, s') {
      YieldInv(entries, s, s');
    } else {
      var id :| Map(s, id, s');
      MapInv(entries, s, id, s');
    }
  }

  lemma RunFront<I>(entries: seq<Entry<I>>, trace: seq<State<I>>)
    requires Run(entries, trace) && |trace| > 1
    ensures Run(entries, trace[..|trace| - 1]) && Step(entries, trace[|trace| - 2], trace[|trace| - 1])
  {
  }

  lemma {:induction false} RunInv<I>(entries: seq<Entry<I>>, trace: seq<State<I>>)
    requires Run(entries, trace)
    ensures Inv(entries, trace[|trace| - 1])
    decreases |trace|
  {
    if |trace| == 1 {
      InitInv(entries);
    } else {
      RunFront(entries, trace);
      RunInv(entries, trace[..|trace| - 1]);
      StepInv(entries, trace[|trace| - 2], trace[|trace| - 1]);
    }
  }

  // ---- The results.

  lemma {:induction false} YieldsPrefix<I>(entries: seq<Entry<I>>, n: nat, m: nat)
    requires n <= m <= |entries|
    ensures Yields(entries[..n]) <= Yields(entries[..m])
  {
    if n < m {
      YieldsPrefix(entries, n, m - 1);
      assert entries[..m][..m - 1] == entries[..m - 1];
    }
  }

  lemma InvMeansYielded<I>(entries: seq<Entry<I>>, s: State<I>)
    requires Inv(entries, s)
    ensures Yields(entries[..Done(s)]) <= s.yielded <= Yields(entries)
  {
    assert entries[..|entries|] == entries;
    if s.consumer.Yielding? {
      var id, n := s.consumer.id, s.consumer.position;
      assert WithHeads(entries[id].items[..n], entries[id].head) <= WithHeads(entries[id].items, entries[id].head);
      assert entries[..id + 1][..id] == entries[..id];
      YieldsPrefix(entries, id + 1, |entries|);
    } else if s.consumer.Finished? {
      YieldsPrefix(entries, s.position, |entries|);
      YieldsPrefix(entries, s.front, s.position);
    } else {
      YieldsPrefix(entries, Done(s), |entries|);
    }
  }

  lemma InvMeansHeld<I>(entries: seq<Entry<I>>, s: State<I>, h: nat)
    requires Inv(entries, s) && h < s.position && entries[h].Hold?
    ensures Yields(entries[..h]) <= s.yielded
  {
    InvMeansYielded(entries, s);
    YieldsPrefix(entries, h, Done(s));
  }

  lemma InvMeansFinished<I>(entries: seq<Entry<I>>, s: State<I>)
    requires Inv(entries, s) && s.consumer.Finished?
    ensures s.position <= |entries| && s.yielded == Yields(entries[..s.position])
    ensures if s.consumer.failed then Misplaced(entries, s.position) else s.position == |entries|
    ensures forall h: nat | h < s.position :: !Misplaced(entries, h)
  {
  }

  /** The producer gets past a hold only after everything that precedes the hold was yielded. */
  lemma HoldsAreRespected<I>(entries: seq<Entry<I>>, trace: seq<State<I>>, h: nat)
    requires Run(entries, trace) && h < |entries| && entries[h].Hold? && h < trace[|trace| - 1].position
    ensures Yields(entries[..h]) <= trace[|trace| - 1].yielded
  {
    RunInv(entries, trace);
    InvMeansHeld(entries, trace[|trace| - 1], h);
  }

  // ---- Against the sequential form.

  ghost function EntriesFor<I, P, C>(chunks: seq<ChunkOrHold<P, C>>, mapper: Mapper<P, I>, to: C -> Result<Section>,
                                     remaining: Cursor): seq<Entry<I>> {
    if chunks == [] then []
    else
      match chunks[0]
      case HoldForMappingComplete => [Hold] + EntriesFor(chunks[1..], mapper, to, remaining)
      case Chunk(chunk, cursor) =>
        var head := if to(cursor).Ok? then to(cursor).value else IntSection(0);
        [Piece(mapper(remaining, chunk).items, head)] + EntriesFor(chunks[1..], mapper, to, [])
  }

  lemma {:induction false} YieldsConcat<I>(xs: seq<Entry<I>>, ys: seq<Entry<I>>)
    ensures Yields(xs + ys) == Yields(xs) + Yields(ys)
    decreases |ys|
  {
    if ys == [] {
      assert xs + ys == xs;
    } else {
      var front, last := ys[..|ys| - 1], ys[|ys| - 1];
      YieldsConcat(xs, front);
      calc {
        Yields(xs + ys);
        { assert (xs + ys)[..|xs + ys| - 1] == xs + front; }
        Yields(xs + front) + YieldsOne(last);
        (Yields(xs) + Yields(front)) + YieldsOne(last);
        Yields(xs) + (Yields(front) + YieldsOne(last));
        Yields(xs) + Yields(ys);
      }
    }
  }

  /** The entries yield what the sequential loop over the chunks yields. */
  lemma {:induction false} EntriesYieldMapped<I, P, C>(chunks: seq<ChunkOrHold<P, C>>, mapper: Mapper<P, I>,
                                                       to: C -> Result<Section>, remaining: Cursor)
    requires !Mapped(chunks, mapper, to, remaining).failed
    ensures Yields(EntriesFor(chunks, mapper, to, remaining)) == Mapped(chunks, mapper, to, remaining).items
  {
    if chunks != [] {
      var rest := if chunks[0].Chunk? then [] else remaining;
      EntriesYieldMapped(chunks[1..], mapper, to, rest);
      var entries := EntriesFor(chunks, mapper, to, remaining);
      YieldsConcat([entries[0]], entries[1..]);
      assert entries == [entries[0]] + entries[1..];
      assert [entries[0]][..0] == [];
    }
  }
}
