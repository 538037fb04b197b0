/** The resume law, kept by every combinator and so by every nesting of them. */
module Resumption {
  import opened Common
  import opened CursoredIterators

  /** Two yields agree on their items and, when `exact`, on their cursors too. */
  ghost predicate Alike<I>(exact: bool, xs: seq<ItemAndCursor<I>>, ys: seq<ItemAndCursor<I>>) {
    && |xs| == |ys|
    && forall k | 0 <= k < |xs| :: xs[k].item == ys[k].item && (exact ==> xs[k].cursor == ys[k].cursor)
  }

  /** Started at `c` the iterator yields `items`, and started at the cursor of any of these it
      yields the later ones, again with cursors to resume from. Unless `exact`, the cursors may
      be different ones at each start. */
  ghost predicate Resumes<I>(f: Next<I>, c: Cursor, items: seq<ItemAndCursor<I>>, exact: bool)
    decreases |items|
  {
    && !f(c).failed && Alike(exact, f(c).items, items)
    && forall k | 0 <= k < |items| :: Resumes(f, f(c).items[k].cursor, items[k + 1..], exact)
  }

  /** With exact cursors the law reads: started at the cursor of an item, the iterator yields
      precisely what it would have yielded after it. */
  lemma ExactMeansSuffix<I>(f: Next<I>, c: Cursor, items: seq<ItemAndCursor<I>>)
    requires Resumes(f, c, items, true)
    ensures f(c).items == items
    ensures forall k | 0 <= k < |items| :: f(items[k].cursor) == Output(f(c).items[k + 1..], false)
  {
  }

  lemma {:induction false} SuffixMeansExact<I>(f: Next<I>, c: Cursor)
    requires !f(c).failed
    requires forall k | 0 <= k < |f(c).items| :: f(f(c).items[k].cursor) == Output(f(c).items[k + 1..], false)
    ensures Resumes(f, c, f(c).items, true)
    decreases |f(c).items|
  {
    var items := f(c).items;
    forall k | 0 <= k < |items| ensures Resumes(f, items[k].cursor, items[k + 1..], true) {
      var c' := items[k].cursor;
      assert f(c').items == items[k + 1..];
      forall j | 0 <= j < |f(c').items| ensures f(f(c').items[j].cursor) == Output(f(c').items[j + 1..], false) {
        assert f(c').items[j] == items[k + 1 + j];
        assert items[k + 1..][j + 1..] == items[k + 1 + j + 1..];
      }
      SuffixMeansExact(f, c');
    }
  }

  lemma ResumesSame<I>(f: Next<I>, c: Cursor, c': Cursor, items: seq<ItemAndCursor<I>>, exact: bool)
    requires f(c) == f(c') && Resumes(f, c', items, exact)
    ensures Resumes(f, c, items, exact)
  {
  }

  /** One more item in front, whose cursor leads to the others. */
  lemma ResumesCons<I>(f: Next<I>, c: Cursor, x: ItemAndCursor<I>, items: seq<ItemAndCursor<I>>, exact: bool)
    requires Resumes(f, x.cursor, items, exact)
    requires f(c) == Output([x] + f(x.cursor).items, false)
    ensures Resumes(f, c, [x] + items, exact)
  {
    AlikeConcat(exact, [x], [x], f(x.cursor).items, items);
    forall k | 0 <= k < |[x] + items| ensures Resumes(f, f(c).items[k].cursor, ([x] + items)[k + 1..], exact) {
      ResumesConsItem(f, x, items, exact, k);
    }
  }

  lemma ResumesConsItem<I>(f: Next<I>, x: ItemAndCursor<I>, items: seq<ItemAndCursor<I>>, exact: bool, k: nat)
    requires Resumes(f, x.cursor, items, exact) && k <= |items|
    ensures Resumes(f, ([x] + f(x.cursor).items)[k].cursor, ([x] + items)[k + 1..], exact)
  {
    if k == 0 {
      assert ([x] + items)[1..] == items;
    } else {
      assert Resumes(f, f(x.cursor).items[k - 1].cursor, items[k - 1 + 1..], exact);
      assert ([x] + items)[k + 1..] == items[k..];
    }
  }

  // ---- Pages.

  ghost function Clip<T>(items: seq<T>, n: nat): seq<T> {
    if n < |items| then items[..n] else items
  }

  /** Fetches page after page, each from the cursor of the last item before it. */
  ghost function Pages<I>(f: Next<I>, c: Cursor, sizes: seq<nat>): seq<ItemAndCursor<I>>
    decreases |sizes|
  {
    if sizes == [] then []
    else
      var page := Clip(f(c).items, sizes[0]);
      page + Pages(f, if page == [] then c else page[|page| - 1].cursor, sizes[1..])
  }

  ghost function Total(sizes: seq<nat>): nat {
    if sizes == [] then 0 else sizes[0] + Total(sizes[1..])
  }

  /** Pages of any sizes together are the unpaged run, up to the number of items asked for. */
  lemma {:induction false} PagesConcatenate<I>(f: Next<I>, c: Cursor, items: seq<ItemAndCursor<I>>, exact: bool,
                                               sizes: seq<nat>)
    requires Resumes(f, c, items, exact)
    ensures Alike(exact, Pages(f, c, sizes), Clip(items, Total(sizes)))
    decreases |sizes|
  {
    if sizes != [] {
      var page := Clip(f(c).items, sizes[0]);
      var c' := if page == [] then c else page[|page| - 1].cursor;
      LaterPage(f, c, items, exact, sizes[0]);
      PagesConcatenate(f, c', items[|page|..], exact, sizes[1..]);
      ClipSplits(items, sizes[0], Total(sizes[1..]));
      AlikeConcat(exact, page, items[..|page|], Pages(f, c', sizes[1..]), Clip(items[|page|..], Total(sizes[1..])));
    }
  }

  lemma LaterPage<I>(f: Next<I>, c: Cursor, items: seq<ItemAndCursor<I>>, exact: bool, size: nat)
    requires Resumes(f, c, items, exact)
    ensures var page := Clip(f(c).items, size);
            && |page| <= |items| && Alike(exact, page, items[..|page|])
            && Resumes(f, if page == [] then c else page[|page| - 1].cursor, items[|page|..], exact)
  {
  }

  lemma AlikeConcat<I>(exact: bool, xs: seq<ItemAndCursor<I>>, ys: seq<ItemAndCursor<I>>, xs': seq<ItemAndCursor<I>>,
                       ys': seq<ItemAndCursor<I>>)
    requires Alike(exact, xs, ys) && Alike(exact, xs', ys')
    ensures Alike(exact, xs + xs', ys + ys')
  {
  }

  lemma ClipSplits<T>(items: seq<T>, n: nat, more: nat)
    ensures var k := |Clip(items, n)|; Clip(items, n + more) == items[..k] + Clip(items[k..], more)
  {
  }

  // ---- The integer header.

  ghost predicate HeaderResumes<I>(header: int -> HeaderOutput<I>, start: int) {
    && !header(start).failed
    && forall i | start < i <= start + |header(start).items| ::
       header(i) == HeaderOutput(header(start).items[i - start..], false)
  }

  lemma {:induction false} AfterHeader<I>(header: int -> HeaderOutput<I>, next: Next<I>, c: Cursor,
                                          items: seq<ItemAndCursor<I>>, exact: bool)
    requires Resumes(next, c, items, exact)
    ensures Resumes(IntegerHeader(header, next), WithHead(c, IntSection(-1)), WithHeads(items, IntSection(-1)), exact)
    decreases |items|
  {
    HeadRoundTrip(c, IntFromSection, 0, IntSection(-1));
    var all := WithHeads(items, IntSection(-1));
    forall k | 0 <= k < |items|
      ensures Resumes(IntegerHeader(header, next), WithHead(next(c).items[k].cursor, IntSection(-1)), all[k + 1..],
                      exact)
    {
      AfterHeader(header, next, next(c).items[k].cursor, items[k + 1..], exact);
      assert all[k + 1..] == WithHeads(items[k + 1..], IntSection(-1));
    }
  }

  ghost function HeaderThen<I>(header: int -> HeaderOutput<I>, start: int,
                               items: seq<ItemAndCursor<I>>): seq<ItemAndCursor<I>> {
    Indexed(header(start).items, start) + WithHeads(items, IntSection(-1))
  }

  /** From the index of a header item the header yields the items after that one. */
  lemma HeaderShorter<I>(header: int -> HeaderOutput<I>, start: int, items: seq<ItemAndCursor<I>>)
    requires HeaderResumes(header, start) && header(start).items != []
    ensures HeaderResumes(header, start + 1) && |header(start + 1).items| == |header(start).items| - 1
    ensures HeaderThen(header, start, items) == [ItemAndCursor(header(start).items[0], [IntSection(start + 1)])] +
            HeaderThen(header, start + 1, items)
  {
  }

  lemma HeaderOutputFrom<I>(header: int -> HeaderOutput<I>, next: Next<I>, c: Cursor, start: nat)
    requires IntHeadValue(c) == Ok((start, [])) && HeaderResumes(header, start) && !next([]).failed
    ensures IntegerHeader(header, next)(c) == Output(HeaderThen(header, start, next([]).items), false)
  {
  }

  lemma {:induction false} FromHeader<I>(header: int -> HeaderOutput<I>, next: Next<I>, c: Cursor, start: nat,
                                         items: seq<ItemAndCursor<I>>, exact: bool)
    requires IntHeadValue(c) == Ok((start, [])) && HeaderResumes(header, start)
    requires Resumes(next, [], items, exact)
    ensures Resumes(IntegerHeader(header, next), c, HeaderThen(header, start, items), exact)
    decreases |header(start).items|
  {
    var f := IntegerHeader(header, next);
    HeaderOutputFrom(header, next, c, start);
    if header(start).items == [] {
      HeadRoundTrip([], IntFromSection, 0, IntSection(-1));
      AfterHeader(header, next, [], items, exact);
      assert HeaderThen(header, start, items) == WithHeads(items, IntSection(-1));
      ResumesSame(f, c, WithHead([], IntSection(-1)), WithHeads(items, IntSection(-1)), exact);
    } else {
      var later := [IntSection(start + 1)];
      assert IntHeadValue(later) == Ok((start + 1, []));
      HeaderShorter(header, start, items);
      HeaderShorter(header, start, next([]).items);
      HeaderOutputFrom(header, next, later, start + 1);
      FromHeader(header, next, later, start + 1, items, exact);
      ResumesCons(f, c, ItemAndCursor(header(start).items[0], later), HeaderThen(header, start + 1, items), exact);
    }
  }

  /** The integer header keeps the law from every cursor it can have yielded: none, an index
      alone, or anything below the mark of a completed header. */
  lemma IntegerHeaderResumes<I>(header: int -> HeaderOutput<I>, next: Next<I>, c: Cursor, items: seq<ItemAndCursor<I>>,
                                exact: bool)
    requires IntHeadValue(c).Ok?
    requires var (start, remaining) := IntHeadValue(c).value;
             Resumes(next, remaining, items, exact)
                 && (start == -1 || (start >= 0 && remaining == [] && HeaderResumes(header, start)))
    ensures var (start, _) := IntHeadValue(c).value;
            Resumes(IntegerHeader(header, next), c,
                    if start == -1 then WithHeads(items, IntSection(-1)) else HeaderThen(header, start, items), exact)
  {
    var (start, remaining) := IntHeadValue(c).value;
    if start == -1 {
      AfterHeader(header, next, remaining, items, exact);
      assert c == WithHead(remaining, IntSection(-1));
    } else {
      FromHeader(header, next, c, start, items, exact);
    }
  }

  lemma AlikeHeads<I>(exact: bool, xs: seq<ItemAndCursor<I>>, ys: seq<ItemAndCursor<I>>, head: Section)
    requires Alike(exact, xs, ys)
    ensures Alike(exact, WithHeads(xs, head), WithHeads(ys, head))
  {
  }

  // ---- Ordered branches.

  ghost function BranchesTail<I>(branches: seq<Next<I>>, i: nat): seq<ItemAndCursor<I>>
    requires i <= |branches|
  {
    BranchesFrom(branches, i, []).items
  }

  ghost predicate LaterBranchesResume<I>(branches: seq<Next<I>>, i: nat, exact: bool) {
    forall j | i < j < |branches| :: Resumes(branches[j], [], branches[j]([]).items, exact)
  }

  ghost function BranchThen<I>(branches: seq<Next<I>>, i: nat, items: seq<ItemAndCursor<I>>): seq<ItemAndCursor<I>>
    requires i < |branches|
  {
    WithHeads(items, IntSection(i)) + BranchesTail(branches, i + 1)
  }

  /** Ordered branches keep the law: if the branch that the cursor points at resumes from the
      cursor below, and each later one from its start, then all together resume. */
  lemma {:induction false} BranchesResume<I>(branches: seq<Next<I>>, c: Cursor, i: nat, remaining: Cursor,
                                             items: seq<ItemAndCursor<I>>, exact: bool)
    requires i < |branches| && IntHeadValue(c) == Ok((i, remaining))
    requires Resumes(branches[i], remaining, items, exact) && LaterBranchesResume(branches, i, exact)
    ensures Resumes(Branches(branches), c, BranchThen(branches, i, items), exact)
    decreases |branches| - i, |items|, 1
  {
    var f := Branches(branches);
    var actual := branches[i](remaining).items;
    TailResumes(branches, i, exact);
    assert f(c) == Output(BranchThen(branches, i, actual), false);
    AlikeHeads(exact, actual, items, IntSection(i));
    AlikeConcat(exact, WithHeads(actual, IntSection(i)), WithHeads(items, IntSection(i)),
                BranchesTail(branches, i + 1), BranchesTail(branches, i + 1));
    forall k | 0 <= k < |BranchThen(branches, i, items)|
      ensures Resumes(f, f(c).items[k].cursor, BranchThen(branches, i, items)[k + 1..], exact)
    {
      BranchItem(branches, i, remaining, items, exact, k);
    }
  }

  lemma {:induction false} TailResumes<I>(branches: seq<Next<I>>, i: nat, exact: bool)
    requires i < |branches| && LaterBranchesResume(branches, i, exact)
    ensures !BranchesFrom(branches, i + 1, []).failed
    ensures i + 1 < |branches| ==>
            Resumes(Branches(branches), WithHead([], IntSection(i + 1)), BranchesTail(branches, i + 1), exact)
    decreases |branches| - i - 1
  {
    if i + 1 < |branches| {
      HeadRoundTrip([], IntFromSection, 0, IntSection(i + 1));
      BranchesResume(branches, WithHead([], IntSection(i + 1)), i + 1, [], branches[i + 1]([]).items, exact);
    }
  }

  lemma {:induction false} BranchItem<I>(branches: seq<Next<I>>, i: nat, remaining: Cursor,
                                         items: seq<ItemAndCursor<I>>, exact: bool, k: nat)
    requires i < |branches| && k < |BranchThen(branches, i, items)|
    requires Resumes(branches[i], remaining, items, exact) && LaterBranchesResume(branches, i, exact)
    ensures |branches[i](remaining).items| == |items|
    ensures Resumes(Branches(branches), BranchThen(branches, i, branches[i](remaining).items)[k].cursor,
                    BranchThen(branches, i, items)[k + 1..], exact)
    decreases |branches| - i, |items|, 0
  {
    var f := Branches(branches);
    if k < |items| {
      var cursor := branches[i](remaining).items[k].cursor;
      assert Resumes(branches[i], cursor, items[k + 1..], exact);
      HeadRoundTrip(cursor, IntFromSection, 0, IntSection(i));
      BranchesResume(branches, WithHead(cursor, IntSection(i)), i, cursor, items[k + 1..], exact);
      assert BranchThen(branches, i, items)[k + 1..] == BranchThen(branches, i, items[k + 1..]);
    } else {
      var m := k - |items|;
      TailResumes(branches, i, exact);
      var tail := BranchesTail(branches, i + 1);
      assert Resumes(f, tail[m].cursor, tail[m + 1..], exact);
      assert BranchThen(branches, i, items)[k + 1..] == tail[m + 1..];
    }
  }

  // ---- Producer and mapper.

  ghost function Pieces<P, C>(chunks: seq<ChunkOrHold<P, C>>): seq<(P, C)> {
    if chunks == [] then []
    else if chunks[0].Chunk? then [(chunks[0].chunk, chunks[0].cursor)] + Pieces(chunks[1..])
    else Pieces(chunks[1..])
  }

  ghost function MappedPieces<I, P, C>(pieces: seq<(P, C)>, mapper: Mapper<P, I>, to: C -> Result<Section>,
                                       remaining: Cursor): Output<I> {
    if pieces == [] then Output([], false)
    else if to(pieces[0].1).Err? then Output([], true)
    else Join(Adjusted(mapper(remaining, pieces[0].0), to(pieces[0].1).value),
              MappedPieces(pieces[1..], mapper, to, []))
  }

  /** Holds do not show in what is yielded. */
  lemma {:induction false} HoldsAreSkipped<I, P, C>(chunks: seq<ChunkOrHold<P, C>>, mapper: Mapper<P, I>,
                                                    to: C -> Result<Section>, remaining: Cursor)
    ensures Mapped(chunks, mapper, to, remaining) == MappedPieces(Pieces(chunks), mapper, to, remaining)
  {
    if chunks != [] {
      var rest := if chunks[0].Chunk? then [] else remaining;
      HoldsAreSkipped(chunks[1..], mapper, to, rest);
      if chunks[0].Chunk? {
        assert Pieces(chunks)[1..] == Pieces(chunks[1..]);
      }
    }
  }

  ghost predicate SamePieces<P, C>(exact: bool, xs: seq<(P, C)>, ys: seq<(P, C)>) {
    && |xs| == |ys|
    && forall j | 0 <= j < |xs| :: xs[j].0 == ys[j].0 && (exact ==> xs[j].1 == ys[j].1)
  }

  ghost predicate Convertible<C>(conv: Converters<C>, c: C) {
    conv.to(c).Ok? && conv.from(conv.to(c).value) == Ok(c)
  }

  /** Started at `c` the producer makes `pieces`, and the cursor of each piece, which can be
      converted back, is again listed, with that piece and those after it. */
  ghost predicate Produces<P(!new), C(!new)>(producer: Producer<P, C>, conv: Converters<C>,
                                             table: iset<(C, seq<(P, C)>)>,
                                             c: C, remaining: Cursor, pieces: seq<(P, C)>, exact: bool) {
    var actual := Pieces(producer(c, remaining).chunks);
    && !producer(c, remaining).failed && SamePieces(exact, actual, pieces)
    && Listed(conv, table, actual, pieces)
  }

  ghost predicate Listed<P(!new), C(!new)>(conv: Converters<C>, table: iset<(C, seq<(P, C)>)>, actual: seq<(P, C)>,
                                           pieces: seq<(P, C)>) {
    |actual| == |pieces| && forall j | 0 <= j < |actual| ::
        Convertible(conv, actual[j].1) && (actual[j].1, pieces[j..]) in table
  }

  /** The producer's own resume law: the table lists where it can be started and what it then makes. */
  ghost predicate ProducerResumes<P(!new), C(!new)>(producer: Producer<P, C>, conv: Converters<C>,
                                                    table: iset<(C, seq<(P, C)>)>, exact: bool) {
    forall entry, remaining | entry in table :: Produces(producer, conv, table, entry.0, remaining, entry.1, exact)
  }

  ghost function MapperOn<I, P>(mapper: Mapper<P, I>, chunk: P): Next<I> {
    c => mapper(c, chunk)
  }

  ghost predicate MapsFromStart<I, P, C>(mapper: Mapper<P, I>, pieces: seq<(P, C)>, exact: bool) {
    forall j | 0 <= j < |pieces| :: Resumes(MapperOn(mapper, pieces[j].0), [], mapper([], pieces[j].0).items, exact)
  }

  /** The first piece resumes from the remaining cursor, yielding `first`; the others from their start. */
  ghost predicate MapperResumes<I, P, C>(mapper: Mapper<P, I>, pieces: seq<(P, C)>, remaining: Cursor,
                                         first: seq<ItemAndCursor<I>>, exact: bool) {
    pieces != [] ==>
      Resumes(MapperOn(mapper, pieces[0].0), remaining, first, exact) && MapsFromStart(mapper, pieces[1..], exact)
  }

  ghost function HeadOf<C>(to: C -> Result<Section>, c: C): Section {
    if to(c).Ok? then to(c).value else IntSection(0)
  }

  ghost function FromPieces<I, P, C>(pieces: seq<(P, C)>, mapper: Mapper<P, I>, to: C -> Result<Section>,
                                     first: seq<ItemAndCursor<I>>): seq<ItemAndCursor<I>> {
    if pieces == [] then []
    else
      WithHeads(first, HeadOf(to, pieces[0].1)) +
      FromPieces(pieces[1..], mapper, to, if |pieces| == 1 then [] else mapper([], pieces[1].0).items)
  }

  lemma MapperResumesLater<I, P, C>(mapper: Mapper<P, I>, pieces: seq<(P, C)>, remaining: Cursor,
                                    first: seq<ItemAndCursor<I>>, exact: bool)
    requires pieces != [] && MapperResumes(mapper, pieces, remaining, first, exact)
    ensures MapperResumes(mapper, pieces[1..], [], if |pieces| == 1 then [] else mapper([], pieces[1].0).items, exact)
  {
  }

  lemma AllFromStart<I, P, C>(mapper: Mapper<P, I>, pieces: seq<(P, C)>, exact: bool)
    requires MapsFromStart(mapper, pieces, exact)
    ensures MapperResumes(mapper, pieces, [], if pieces == [] then [] else mapper([], pieces[0].0).items, exact)
  {
  }

  /** What is yielded is the mapped pieces, in order. */
  lemma {:induction false} MappedShape<I, P, C>(actual: seq<(P, C)>, pieces: seq<(P, C)>, mapper: Mapper<P, I>,
                                                conv: Converters<C>, remaining: Cursor,
                                                first: seq<ItemAndCursor<I>>, exact: bool)
    requires SamePieces(exact, actual, pieces) && forall j | 0 <= j < |actual| :: Convertible(conv, actual[j].1)
    requires MapperResumes(mapper, pieces, remaining, first, exact)
    ensures !MappedPieces(actual, mapper, conv.to, remaining).failed
    ensures Alike(exact, MappedPieces(actual, mapper, conv.to, remaining).items,
                  FromPieces(pieces, mapper, conv.to, first))
    decreases |pieces|
  {
    if pieces != [] {
      var next := if |pieces| == 1 then [] else mapper([], pieces[1].0).items;
      MapperResumesLater(mapper, pieces, remaining, first, exact);
      MappedShape(actual[1..], pieces[1..], mapper, conv, [], next, exact);
      var items, head := mapper(remaining, pieces[0].0).items, HeadOf(conv.to, actual[0].1);
      assert MapperOn(mapper, pieces[0].0)(remaining) == mapper(remaining, pieces[0].0);
      assert Alike(exact, WithHeads(items, head), WithHeads(first, HeadOf(conv.to, pieces[0].1)));
      AlikeConcat(exact, WithHeads(items, head), WithHeads(first, HeadOf(conv.to, pieces[0].1)),
                  MappedPieces(actual[1..], mapper, conv.to, []).items, FromPieces(pieces[1..], mapper, conv.to, next));
    }
  }

  /** The sequential producer and mapper keep the law. */
  lemma {:induction false} ProducerMapperResumes<I, P(!new), C(!new)>(producer: Producer<P, C>, mapper: Mapper<P, I>,
        conv: Converters<C>, table: iset<(C, seq<(P, C)>)>,
      c: Cursor, head: C, remaining: Cursor, pieces: seq<(P, C)>, first: seq<ItemAndCursor<I>>, exact: bool)
    requires ProducerResumes(producer, conv, table, exact) && (head, pieces) in table
    requires CustomHeadValue(c, conv.from, conv.zero) == Ok((head, remaining))
    requires MapperResumes(mapper, pieces, remaining, first, exact)
    ensures Resumes(ProducerMapper(producer, mapper, conv), c, FromPieces(pieces, mapper, conv.to, first), exact)
    decreases |FromPieces(pieces, mapper, conv.to, first)|, |pieces| + 1
  {
    var f := ProducerMapper(producer, mapper, conv);
    var chunks := producer(head, remaining).chunks;
    var actual := Pieces(chunks);
    assert Produces(producer, conv, table, (head, pieces).0, remaining, (head, pieces).1, exact);
    HoldsAreSkipped(chunks, mapper, conv.to, remaining);
    MappedShape(actual, pieces, mapper, conv, remaining, first, exact);
    assert f(c) == MappedPieces(actual, mapper, conv.to, remaining);
    var all := FromPieces(pieces, mapper, conv.to, first);
    forall k | 0 <= k < |all| ensures Resumes(f, f(c).items[k].cursor, all[k + 1..], exact) {
      MappedItem(producer, mapper, conv, table, actual, remaining, pieces, first, exact, k);
    }
  }

  lemma {:induction false} MappedItem<I, P(!new), C(!new)>(producer: Producer<P, C>, mapper: Mapper<P, I>,
                                                           conv: Converters<C>, table: iset<(C, seq<(P, C)>)>,
      actual: seq<(P, C)>, remaining: Cursor, pieces: seq<(P, C)>, first: seq<ItemAndCursor<I>>, exact: bool, k: nat)
    requires ProducerResumes(producer, conv, table, exact) && SamePieces(exact, actual, pieces)
             && Listed(conv, table, actual, pieces)
    requires MapperResumes(mapper, pieces, remaining, first, exact)
    requires k < |FromPieces(pieces, mapper, conv.to, first)| ==
             |MappedPieces(actual, mapper, conv.to, remaining).items|
    ensures Resumes(ProducerMapper(producer, mapper, conv),
                    MappedPieces(actual, mapper, conv.to, remaining).items[k].cursor,
                    FromPieces(pieces, mapper, conv.to, first)[k + 1..], exact)
    decreases |FromPieces(pieces, mapper, conv.to, first)|, |pieces|
  {
    if k < |first| {
      FirstPieceItem(producer, mapper, conv, table, actual, remaining, pieces, first, exact, k);
    } else {
      var next := if |pieces| == 1 then [] else mapper([], pieces[1].0).items;
      var later := FromPieces(pieces[1..], mapper, conv.to, next);
      MapperResumesLater(mapper, pieces, remaining, first, exact);
      MappedShape(actual[1..], pieces[1..], mapper, conv, [], next, exact);
      ListedLater(conv, table, actual, pieces);
      MappedItem(producer, mapper, conv, table, actual[1..], [], pieces[1..], next, exact, k - |first|);
      assert FromPieces(pieces, mapper, conv.to, first)[k + 1..] == later[k - |first| + 1..];
      assert MapperOn(mapper, pieces[0].0)(remaining) == mapper(remaining, pieces[0].0);
    }
  }

  lemma ListedLater<P(!new), C(!new)>(conv: Converters<C>, table: iset<(C, seq<(P, C)>)>, actual: seq<(P, C)>,
                                      pieces: seq<(P, C)>)
    requires actual != [] && Listed(conv, table, actual, pieces)
    ensures Listed(conv, table, actual[1..], pieces[1..])
  {
  }

  lemma {:induction false} FirstPieceItem<I, P(!new), C(!new)>(producer: Producer<P, C>, mapper: Mapper<P, I>,
                                                               conv: Converters<C>, table: iset<(C, seq<(P, C)>)>,
      actual: seq<(P, C)>, remaining: Cursor, pieces: seq<(P, C)>, first: seq<ItemAndCursor<I>>, exact: bool, k: nat)
    requires ProducerResumes(producer, conv, table, exact) && SamePieces(exact, actual, pieces)
             && Listed(conv, table, actual, pieces)
    requires MapperResumes(mapper, pieces, remaining, first, exact)
    requires pieces != [] && k < |first|
    requires |FromPieces(pieces, mapper, conv.to, first)| == |MappedPieces(actual, mapper, conv.to, remaining).items|
    ensures Resumes(ProducerMapper(producer, mapper, conv),
                    MappedPieces(actual, mapper, conv.to, remaining).items[k].cursor,
                    FromPieces(pieces, mapper, conv.to, first)[k + 1..], exact)
    decreases |FromPieces(pieces, mapper, conv.to, first)|, 0
  {
    var head := HeadOf(conv.to, actual[0].1);
    var on := MapperOn(mapper, pieces[0].0);
    assert on(remaining) == mapper(remaining, pieces[0].0);
    var cursor := on(remaining).items[k].cursor;
    assert Resumes(on, cursor, first[k + 1..], exact);
    HeadRoundTrip(cursor, conv.from, conv.zero, head);
    assert pieces[0..] == pieces;
    assert FromPieces(pieces, mapper, conv.to, first)[k + 1..] == FromPieces(pieces, mapper, conv.to, first[k + 1..]);
    ProducerMapperResumes(producer, mapper, conv, table, WithHead(cursor, head), actual[0].1, cursor, pieces,
                          first[k + 1..], exact);
  }
}
