/** Iterators that decorate each item with a cursor from which the rest can be fetched later.

    An iterator is a function from a cursor to the items it yields when started there. The three
    combinators below build iterators from iterators; what they must keep is the resume law:
    started again from the cursor of any item, an iterator yields exactly the later items. */
module CursoredIterators {
  import opened Common

  datatype Section = IntSection(value: int) | TextSection(text: string)

  /** The most recently added section, the head, is the last one. */
  type Cursor = seq<Section>

  datatype ItemAndCursor<I> = ItemAndCursor(item: I, cursor: Cursor)

  /** All that an iterator yields: items, and at most one error, which ends it. */
  datatype Output<I> = Output(items: seq<ItemAndCursor<I>>, failed: bool)

  type Next<!I> = Cursor -> Output<I>

  const COMPLETED_HEADER_VALUE := -1

  function WithHead(c: Cursor, head: Section): Cursor {
    c + [head]
  }

  function CustomHeadValue<T>(c: Cursor, converter: Section -> Result<T>, zero: T): Result<(T, Cursor)> {
    if c == [] then Ok((zero, []))
    else
      match converter(c[|c| - 1])
      case Ok(value) => Ok((value, c[..|c| - 1]))
      case Err => Err
  }

  function IntFromSection(s: Section): Result<int> {
    if s.IntSection? then Ok(s.value) else Err
  }

  function IntHeadValue(c: Cursor): Result<(int, Cursor)> {
    CustomHeadValue(c, IntFromSection, 0)
  }

  /** Reading a head gives back what was added, and the cursor it was added to. */
  lemma HeadRoundTrip<T>(c: Cursor, converter: Section -> Result<T>, zero: T, head: Section)
    requires converter(head).Ok?
    ensures CustomHeadValue(WithHead(c, head), converter, zero) == Ok((converter(head).value, c))
    ensures CustomHeadValue([], converter, zero) == Ok((zero, []))
  {
  }

  /** The last section of the cursor is one that the converter does not understand. */
  ghost predicate Unreadable<T>(c: Cursor, converter: Section -> Result<T>) {
    c != [] && converter(c[|c| - 1]).Err?
  }

  /** Integer sections are read as their value, texts not at all. */
  lemma IntHeads(c: Cursor, n: int, text: string)
    ensures IntHeadValue(WithHead(c, IntSection(n))) == Ok((n, c)) && IntHeadValue([]) == Ok((0, []))
    ensures IntHeadValue(WithHead(c, TextSection(text))).Err?
  {
  }

  // ---- What the combinators yield.

  function Join<I>(first: Output<I>, second: Output<I>): Output<I> {
    if first.failed then first else Output(first.items + second.items, second.failed)
  }

  function WithHeads<I>(items: seq<ItemAndCursor<I>>, head: Section): seq<ItemAndCursor<I>> {
    seq(|items|, k requires 0 <= k < |items| => ItemAndCursor(items[k].item, WithHead(items[k].cursor, head)))
  }

  function Adjusted<I>(output: Output<I>, head: Section): Output<I> {
    Output(WithHeads(output.items, head), output.failed)
  }

  /** What a header yields: items without cursors. */
  datatype HeaderOutput<I> = HeaderOutput(items: seq<I>, failed: bool)

  function Indexed<I>(items: seq<I>, start: int): seq<ItemAndCursor<I>> {
    seq(|items|, k requires 0 <= k < |items| => ItemAndCursor(items[k], [IntSection(start + k + 1)]))
  }

  function IntegerHeaderOutput<I>(header: int -> HeaderOutput<I>, next: Next<I>, c: Cursor): Output<I> {
    match IntHeadValue(c)
    case Err => Output([], true)
    case Ok((start, remaining)) =>
      var rest := Adjusted(next(remaining), IntSection(COMPLETED_HEADER_VALUE));
      if start == COMPLETED_HEADER_VALUE then rest
      else Join(Output(Indexed(header(start).items, start), header(start).failed), rest)
  }

  function IntegerHeader<I>(header: int -> HeaderOutput<I>, next: Next<I>): Next<I> {
    c => IntegerHeaderOutput(header, next, c)
  }

  function BranchesFrom<I>(branches: seq<Next<I>>, i: nat, remaining: Cursor): Output<I>
    requires i <= |branches|
    decreases |branches| - i
  {
    if i == |branches| then Output([], false)
    else Join(Adjusted(branches[i](remaining), IntSection(i)), BranchesFrom(branches, i + 1, []))
  }

  /** A branch index out of range is an error; a negative one ends the program. */
  function BranchesOutput<I>(branches: seq<Next<I>>, c: Cursor): Output<I> {
    if branches == [] then Output([], false)
    else
      match IntHeadValue(c)
      case Err => Output([], true)
      case Ok((start, remaining)) =>
        if 0 <= start < |branches| then BranchesFrom(branches, start, remaining) else Output([], true)
  }

  function Branches<I>(branches: seq<Next<I>>): Next<I> {
    c => BranchesOutput(branches, c)
  }

  datatype ChunkOrHold<P, C> = Chunk(chunk: P, cursor: C) | HoldForMappingComplete

  datatype ProducerOutput<P, C> = ProducerOutput(chunks: seq<ChunkOrHold<P, C>>, failed: bool)

  type Producer<!P, !C> = (C, Cursor) -> ProducerOutput<P, C>

  type Mapper<!P, !I> = (Cursor, P) -> Output<I>

  datatype Converters<!C> = Converters(to: C -> Result<Section>, from: Section -> Result<C>, zero: C)

  /** Maps chunk after chunk; only the first is mapped from the remaining cursor. */
  function Mapped<I, P, C>(chunks: seq<ChunkOrHold<P, C>>, mapper: Mapper<P, I>, to: C -> Result<Section>,
                           remaining: Cursor): Output<I> {
    if chunks == [] then Output([], false)
    else
      match chunks[0]
      case HoldForMappingComplete => Mapped(chunks[1..], mapper, to, remaining)
      case Chunk(chunk, cursor) =>
        match to(cursor)
        case Err => Output([], true)
        case Ok(head) => Join(Adjusted(mapper(remaining, chunk), head), Mapped(chunks[1..], mapper, to, []))
  }

  function ProducerMapperOutput<I, P, C>(producer: Producer<P, C>, mapper: Mapper<P, I>, conv: Converters<C>,
                                         c: Cursor): Output<I> {
    match CustomHeadValue(c, conv.from, conv.zero)
    case Err => Output([], true)
    case Ok((head, remaining)) =>
      var produced := producer(head, remaining);
      Join(Mapped(produced.chunks, mapper, conv.to, remaining), Output([], produced.failed))
  }

  function ProducerMapper<I, P, C>(producer: Producer<P, C>, mapper: Mapper<P, I>, conv: Converters<C>): Next<I> {
    c => ProducerMapperOutput(producer, mapper, conv, c)
  }

  // ---- The consumer, and the loops that yield to it.

  /** What a consumer has got, and how many items it takes before it stops the iteration. */
  datatype Taken<I> = Taken(items: seq<ItemAndCursor<I>>, failed: bool, room: nat)

  /** Feeding an output: all of it, or as much as there is room for. */
  function Feed<I>(t: Taken<I>, output: Output<I>): Taken<I> {
    if t.failed || t.room == 0 then t
    else if t.room <= |output.items| then Taken(t.items + output.items[..t.room], false, 0)
    else Taken(t.items + output.items, output.failed, t.room - |output.items|)
  }

  /** A consumer with more room than there are items has got them all, and the error if there is one.
      Any other has got the first items it had room for, and no error. */
  ghost predicate Delivered<I>(was: Taken<I>, output: Output<I>, now: Taken<I>) {
    && (|output.items| < was.room ==>
          now.items == was.items + output.items && now.failed == output.failed
          && now.room == was.room - |output.items|)
    && (was.room <= |output.items| ==>
          now.items == was.items + output.items[..was.room] && !now.failed && now.room == 0)
  }

  lemma FeedJoin<I>(t: Taken<I>, first: Output<I>, second: Output<I>)
    ensures Feed(Feed(t, first), second) == Feed(t, Join(first, second))
  {
  }

  /** Feeding one more item of an output. */
  lemma FeedSnoc<I>(t: Taken<I>, items: seq<ItemAndCursor<I>>, n: nat)
    requires n < |items|
    ensures Feed(t, Output(items[..n + 1], false)) ==
            Feed(Feed(t, Output(items[..n], false)), Output([items[n]], false))
  {
  }

  /** The yield function: an iterator must not call it again once it has returned false. */
  class Consumer<I> {
    var taken: Taken<I>

    constructor (room: nat)
      requires room > 0
      ensures taken == Taken([], false, room)
    {
      taken := Taken([], false, room);
    }

    predicate Open()
      reads this
    {
      !taken.failed && taken.room > 0
    }

    method Yield(item: ItemAndCursor<I>) returns (more: bool)
      requires Open()
      modifies this
      ensures taken == Feed(old(taken), Output([item], false)) && more == Open()
      ensures taken == Taken(old(taken).items + [item], false, old(taken).room - 1)
    {
      taken := Taken(taken.items + [item], false, taken.room - 1);
      more := taken.room > 0;
    }

    method YieldError()
      requires Open()
      modifies this
      ensures taken == Feed(old(taken), Output([], true)) && !Open()
      ensures taken == old(taken).(failed := true)
    {
      taken := taken.(failed := true);
    }

    /** Runs an iterator against the consumer; canceled when it failed or was stopped. */
    method YieldOutput(output: Output<I>) returns (canceled: bool)
      requires Open()
      modifies this
      ensures taken == Feed(old(taken), output) && canceled == !Open()
      ensures Delivered(old(taken), output, taken)
    {
      canceled := false;
      for k := 0 to |output.items|
        invariant Open() && taken == Feed(old(taken), Output(output.items[..k], false))
        invariant old(taken).room == taken.room + k
      {
        FeedSnoc(old(taken), output.items, k);
        var more := Yield(output.items[k]);
        if !more {
          return true;
        }
      }
      assert output.items[..|output.items|] == output.items;
      if output.failed {
        YieldError();
        canceled := true;
      }
    }

    /** Yields the output of an iterator with one more section at the head of each cursor. */
    method YieldAdjusted(output: Output<I>, head: Section)
      requires Open()
      modifies this
      ensures taken == Feed(old(taken), Adjusted(output, head)) && Delivered(old(taken), Adjusted(output, head), taken)
    {
      ghost var adjusted := Adjusted(output, head).items;
      for k := 0 to |output.items|
        invariant Open() && taken == Feed(old(taken), Output(adjusted[..k], false))
        invariant old(taken).room == taken.room + k
      {
        FeedSnoc(old(taken), adjusted, k);
        var more := Yield(ItemAndCursor(output.items[k].item, WithHead(output.items[k].cursor, head)));
        if !more {
          return;
        }
      }
      if output.failed {
        YieldError();
      }
    }

    /** Yields the items of a header, each with the index of the item after it. */
    method YieldIndexed(output: HeaderOutput<I>, start: int)
      requires Open()
      modifies this
      ensures taken == Feed(old(taken), Output(Indexed(output.items, start), output.failed))
      ensures Delivered(old(taken), Output(Indexed(output.items, start), output.failed), taken)
    {
      var currentIndex := start;
      ghost var indexed := Indexed(output.items, start);
      for k := 0 to |output.items|
        invariant Open() && taken == Feed(old(taken), Output(indexed[..k], false))
        invariant old(taken).room == taken.room + k && currentIndex == start + k
      {
        FeedSnoc(old(taken), indexed, k);
        var more := Yield(ItemAndCursor(output.items[k], [IntSection(currentIndex + 1)]));
        if !more {
          return;
        }
        currentIndex := currentIndex + 1;
      }
      if output.failed {
        YieldError();
      }
    }
  }

  function JoinAll<I>(outputs: seq<Output<I>>): Output<I> {
    if outputs == [] then Output([], false) else Join(outputs[0], JoinAll(outputs[1..]))
  }

  /** Yields one iterator after another, until one fails or the consumer stops. */
  method JoinIterators<I>(iters: seq<Output<I>>, consumer: Consumer<I>)
    requires consumer.Open()
    modifies consumer
    ensures consumer.taken == Feed(old(consumer.taken), JoinAll(iters))
    ensures Delivered(old(consumer.taken), JoinAll(iters), consumer.taken)
  {
    for i := 0 to |iters|
      invariant consumer.Open()
      invariant Feed(consumer.taken, JoinAll(iters[i..])) == Feed(old(consumer.taken), JoinAll(iters))
    {
      FeedJoin(consumer.taken, iters[i], JoinAll(iters[i + 1..]));
      assert iters[i..][1..] == iters[i + 1..];
      var canceled := consumer.YieldOutput(iters[i]);
      if canceled {
        break;
      }
    }
  }

  method CursoredWithIntegerHeader<I>(header: int -> HeaderOutput<I>, next: Next<I>, c: Cursor, consumer: Consumer<I>)
    requires consumer.Open()
    modifies consumer
    ensures consumer.taken == Feed(old(consumer.taken), IntegerHeader(header, next)(c))
    ensures Delivered(old(consumer.taken), IntegerHeader(header, next)(c), consumer.taken)
    ensures Unreadable(c, IntFromSection) ==> consumer.taken == old(consumer.taken).(failed := true)
  {
    match IntHeadValue(c)
    case Err => consumer.YieldError();
    case Ok((start, remaining)) =>
      ghost var rest := Adjusted(next(remaining), IntSection(COMPLETED_HEADER_VALUE));
      if start != COMPLETED_HEADER_VALUE {
        FeedJoin(consumer.taken, Output(Indexed(header(start).items, start), header(start).failed), rest);
        consumer.YieldIndexed(header(start), start);
      }
      if consumer.Open() {
        consumer.YieldAdjusted(next(remaining), IntSection(COMPLETED_HEADER_VALUE));
      }
  }

  /** The ordered branches one after another, as with a concurrency of one. */
  method CursoredBranches<I>(branches: seq<Next<I>>, c: Cursor, consumer: Consumer<I>)
    requires consumer.Open()
    modifies consumer
    ensures consumer.taken == Feed(old(consumer.taken), Branches(branches)(c))
    ensures Delivered(old(consumer.taken), Branches(branches)(c), consumer.taken)
    ensures branches != [] && Unreadable(c, IntFromSection) ==>
            consumer.taken == old(consumer.taken).(failed := true)
  {
    if |branches| == 0 {
      return;
    }
    match IntHeadValue(c)
    case Err => consumer.YieldError();
    case Ok((start, remaining)) =>
      if start >= |branches| || start < 0 {
        consumer.YieldError();
        return;
      }
      var iteratorRemaining := remaining;
      ghost var all := BranchesFrom(branches, start, remaining);
      for i := start to |branches|
        invariant consumer.Open()
        invariant Feed(consumer.taken, BranchesFrom(branches, i, iteratorRemaining)) == Feed(old(consumer.taken), all)
      {
        FeedJoin(consumer.taken, Adjusted(branches[i](iteratorRemaining), IntSection(i)),
                 BranchesFrom(branches, i + 1, []));
        consumer.YieldAdjusted(branches[i](iteratorRemaining), IntSection(i));
        if !consumer.Open() {
          return;
        }
        iteratorRemaining := [];
      }
  }

  /** Producing and mapping in turn, as with a concurrency of one. */
  method CursoredProducerMapper<I, P, C>(producer: Producer<P, C>, mapper: Mapper<P, I>, conv: Converters<C>,
                                         c: Cursor, consumer: Consumer<I>)
    requires consumer.Open()
    modifies consumer
    ensures consumer.taken == Feed(old(consumer.taken), ProducerMapper(producer, mapper, conv)(c))
    ensures Delivered(old(consumer.taken), ProducerMapper(producer, mapper, conv)(c), consumer.taken)
    ensures Unreadable(c, conv.from) ==> consumer.taken == old(consumer.taken).(failed := true)
  {
    match CustomHeadValue(c, conv.from, conv.zero)
    case Err => consumer.YieldError();
    case Ok((head, remaining)) =>
      var produced := producer(head, remaining);
      var chunks := produced.chunks;
      var chunkRemaining := remaining;
      ghost var all := Mapped(chunks, mapper, conv.to, remaining);
      ghost var before := consumer.taken;
      for k := 0 to |chunks|
        invariant consumer.Open()
        invariant Feed(consumer.taken, Mapped(chunks[k..], mapper, conv.to, chunkRemaining)) == Feed(before, all)
      {
        assert chunks[k..][1..] == chunks[k + 1..];
        match chunks[k]
        case HoldForMappingComplete =>
        case Chunk(chunk, cursor) =>
          match conv.to(cursor)
          case Err =>
            FeedJoin(before, all, Output([], produced.failed));
            consumer.YieldError();
            return;
          case Ok(section) =>
            FeedJoin(consumer.taken, Adjusted(mapper(chunkRemaining, chunk), section),
                     Mapped(chunks[k + 1..], mapper, conv.to, []));
            consumer.YieldAdjusted(mapper(chunkRemaining, chunk), section);
            if !consumer.Open() {
              FeedJoin(before, all, Output([], produced.failed));
              return;
            }
            chunkRemaining := [];
      }
      FeedJoin(before, all, Output([], produced.failed));
      if produced.failed {
        consumer.YieldError();
      }
  }
}
