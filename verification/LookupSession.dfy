/** A client that fetches page after page of a lookup, each from the cursor of the last item it
    has, while the cache of the server loses any chunks in between. */
module LookupSession {
  import opened Common
  import opened CursoredIterators
  import opened Resumption
  import opened ChunkProducer

  function ItemsOf<I>(items: seq<ItemAndCursor<I>>): seq<I> {
    seq(|items|, k requires 0 <= k < |items| => items[k].item)
  }

  ghost function Contents(chunks: seq<seq<Found>>): seq<Subjects> {
    seq(|chunks|, j requires 0 <= j < |chunks| => Collect(chunks[j]))
  }

  /** What the mapper makes of the chunks, each from its start. */
  ghost function Unpaged<I>(contents: seq<Subjects>, mapper: Mapper<Subjects, I>): seq<I> {
    if contents == [] then [] else ItemsOf(mapper([], contents[0]).items) + Unpaged(contents[1..], mapper)
  }

  /** The same, where `first` is what is left of the first chunk. */
  ghost function Rest<I>(contents: seq<Subjects>, mapper: Mapper<Subjects, I>, first: seq<ItemAndCursor<I>>): seq<I> {
    if contents == [] then [] else ItemsOf(first) + Unpaged(contents[1..], mapper)
  }

  /** The mapper resumes on each of the chunks. */
  ghost predicate MapperLaw<I>(contents: seq<Subjects>, mapper: Mapper<Subjects, I>) {
    forall j | 0 <= j < |contents| :: Resumes(MapperOn(mapper, contents[j]), [], mapper([], contents[j]).items, false)
  }

  ghost predicate LeavesFirst<I>(contents: seq<Subjects>, mapper: Mapper<Subjects, I>, remaining: Cursor,
                                 first: seq<ItemAndCursor<I>>) {
    contents != [] ==>
      Resumes(MapperOn(mapper, contents[0]), remaining, first, false) && MapperLaw(contents[1..], mapper)
  }

  ghost predicate Owes<I(!new)>(contents: seq<Subjects>, mapper: Mapper<Subjects, I>, remaining: Cursor, rest: seq<I>) {
    exists first :: LeavesFirst(contents, mapper, remaining, first) && rest == Rest(contents, mapper, first)
  }

  /** The cursor leads to an index given out here, or is empty, and `rest` is still to come from it. */
  ghost predicate Promises<I(!new)>(source: Source, issued: map<nat, Option<Reference>>, mapper: Mapper<Subjects, I>,
                                    conv: Converters<DatastoreIndex>, c: Cursor, rest: seq<I>) {
    && CustomHeadValue(c, conv.from, conv.zero).Ok?
    && var (index, remaining) := CustomHeadValue(c, conv.from, conv.zero).value;
       && (index.chunkID.None? || Issued(issued, index))
       && Owes(Contents(ChunksFrom(source, index.dbCursor)), mapper, remaining, rest)
  }

  ghost predicate ConvertsAll(conv: Converters<DatastoreIndex>) {
    && conv.zero == DatastoreIndex(None, None)
    && forall index: DatastoreIndex | index.chunkID.Some? :: Convertible(conv, index)
  }

  /** What was promised stays promised when more ids are given out. */
  lemma PromiseKept<I(!new)>(source: Source, issued: map<nat, Option<Reference>>, issued': map<nat, Option<Reference>>,
                             mapper: Mapper<Subjects, I>, conv: Converters<DatastoreIndex>, c: Cursor, rest: seq<I>)
    requires Promises(source, issued, mapper, conv, c, rest) && Keeps(issued, issued')
    ensures Promises(source, issued', mapper, conv, c, rest)
  {
  }

  /** The output is the rest, and the cursor of every item leads to what comes after it. */
  ghost predicate IsPage<I>(leads: (Cursor, seq<I>) -> bool, output: Output<I>, rest: seq<I>) {
    && !output.failed && ItemsOf(output.items) == rest
    && forall k | 0 <= k < |output.items| :: leads(output.items[k].cursor, rest[k + 1..])
  }

  lemma LeadsConcat<I>(leads: (Cursor, seq<I>) -> bool, xs: seq<ItemAndCursor<I>>, ys: Output<I>, mine: seq<I>,
                       later: seq<I>)
    requires ItemsOf(xs) == mine && IsPage(leads, ys, later)
    requires forall k | 0 <= k < |xs| :: leads(xs[k].cursor, (mine + later)[k + 1..])
    ensures IsPage(leads, Output(xs + ys.items, false), mine + later)
  {
    var all, rest := xs + ys.items, mine + later;
    assert ItemsOf(all) == rest;
    forall k | 0 <= k < |all| ensures leads(all[k].cursor, rest[k + 1..]) {
      if k >= |xs| {
        assert rest[k + 1..] == later[k - |xs| + 1..];
      }
    }
  }

  ghost function Leads<I(!new)>(source: Source, issued: map<nat, Option<Reference>>, mapper: Mapper<Subjects, I>,
                                conv: Converters<DatastoreIndex>): (Cursor, seq<I>) -> bool {
    (c, rest) => Promises(source, issued, mapper, conv, c, rest)
  }

  /** The items of a page, and what the cursor of each promises. */
  lemma {:induction false} PagePromises<I(!new)>(source: Source, issued: map<nat, Option<Reference>>,
      mapper: Mapper<Subjects, I>, conv: Converters<DatastoreIndex>, chunks: seq<seq<Found>>,
      pieces: seq<(Subjects, DatastoreIndex)>, remaining: Cursor, first: seq<ItemAndCursor<I>>)
    requires ConvertsAll(conv) && Serves(source, issued, chunks, pieces) && |pieces| == |chunks|
    requires LeavesFirst(Contents(chunks), mapper, remaining, first)
    ensures IsPage(Leads(source, issued, mapper, conv), MappedPieces(pieces, mapper, conv.to, remaining),
                   Rest(Contents(chunks), mapper, first))
    decreases |chunks|
  {
    if chunks != [] {
      var laterRest := LaterPromises(source, issued, mapper, conv, chunks, pieces, remaining, first);
      var mine := FirstItems(source, issued, mapper, conv, chunks, pieces, remaining, first);
      LeadsConcat(Leads(source, issued, mapper, conv), mine, MappedPieces(pieces[1..], mapper, conv.to, []),
                  ItemsOf(first), laterRest);
    }
  }

  /** The items of the first chunk, and the page that they and the later ones make. */
  lemma FirstItems<I(!new)>(source: Source, issued: map<nat, Option<Reference>>, mapper: Mapper<Subjects, I>,
      conv: Converters<DatastoreIndex>, chunks: seq<seq<Found>>, pieces: seq<(Subjects, DatastoreIndex)>,
      remaining: Cursor, first: seq<ItemAndCursor<I>>) returns (mine: seq<ItemAndCursor<I>>)
    requires chunks != [] && ConvertsAll(conv) && Serves(source, issued, chunks, pieces) && |pieces| == |chunks|
    requires LeavesFirst(Contents(chunks), mapper, remaining, first)
    requires !MappedPieces(pieces[1..], mapper, conv.to, []).failed
    ensures mine == WithHeads(MapperOn(mapper, Contents(chunks)[0])(remaining).items, conv.to(pieces[0].1).value)
    ensures |mine| == |first| && ItemsOf(mine) == ItemsOf(first)
    ensures var later := MappedPieces(pieces[1..], mapper, conv.to, []);
            MappedPieces(pieces, mapper, conv.to, remaining) == Output(mine + later.items, false)
    ensures forall k | 0 <= k < |mine| ::
              Leads(source, issued, mapper, conv)(mine[k].cursor, Rest(Contents(chunks), mapper, first)[k + 1..])
  {
    mine := WithHeads(MapperOn(mapper, Contents(chunks)[0])(remaining).items, conv.to(pieces[0].1).value);
    assert pieces[0].0 == Contents(chunks)[0];
    forall k | 0 <= k < |mine|
      ensures Leads(source, issued, mapper, conv)(mine[k].cursor, Rest(Contents(chunks), mapper, first)[k + 1..])
    {
      FirstPromises(source, issued, mapper, conv, chunks, pieces, remaining, first, k);
    }
  }

  lemma {:induction false} LaterPromises<I(!new)>(source: Source, issued: map<nat, Option<Reference>>,
                                                  mapper: Mapper<Subjects, I>, conv: Converters<DatastoreIndex>,
                                                  chunks: seq<seq<Found>>, pieces: seq<(Subjects, DatastoreIndex)>,
                                                  remaining: Cursor, first: seq<ItemAndCursor<I>>)
    returns (rest: seq<I>)
    requires chunks != [] && ConvertsAll(conv) && Serves(source, issued, chunks, pieces) && |pieces| == |chunks|
    requires LeavesFirst(Contents(chunks), mapper, remaining, first)
    ensures rest == Unpaged(Contents(chunks)[1..], mapper)
    ensures IsPage(Leads(source, issued, mapper, conv), MappedPieces(pieces[1..], mapper, conv.to, []), rest)
    decreases |chunks|, 0
  {
    var contents, later := Contents(chunks), Contents(chunks[1..]);
    assert contents[1..] == later;
    var next := if later == [] then [] else mapper([], later[0]).items;
    if later != [] {
      assert forall j | 0 <= j < |later| - 1 :: later[1..][j] == later[j + 1];
    }
    ServesLater(source, issued, chunks, pieces);
    PagePromises(source, issued, mapper, conv, chunks[1..], pieces[1..], [], next);
    rest := Rest(later, mapper, next);
  }

  lemma ServesLater(source: Source, issued: map<nat, Option<Reference>>, chunks: seq<seq<Found>>,
                    pieces: seq<(Subjects, DatastoreIndex)>)
    requires Serves(source, issued, chunks, pieces) && pieces != []
    ensures Serves(source, issued, chunks[1..], pieces[1..])
  {
  }

  lemma FirstPromises<I(!new)>(source: Source, issued: map<nat, Option<Reference>>, mapper: Mapper<Subjects, I>,
                               conv: Converters<DatastoreIndex>, chunks: seq<seq<Found>>,
                               pieces: seq<(Subjects, DatastoreIndex)>, remaining: Cursor, first: seq<ItemAndCursor<I>>,
                               k: nat)
    requires chunks != [] && ConvertsAll(conv) && Serves(source, issued, chunks, pieces) && |pieces| == |chunks|
    requires LeavesFirst(Contents(chunks), mapper, remaining, first) && k < |first|
    ensures var on, head := MapperOn(mapper, Contents(chunks)[0]), conv.to(pieces[0].1).value;
            && |on(remaining).items| == |first|
            && Promises(source, issued, mapper, conv, WithHead(on(remaining).items[k].cursor, head),
                        Rest(Contents(chunks), mapper, first)[k + 1..])
  {
    var cursor := FirstOwes(Contents(chunks), mapper, remaining, first, k);
    HeadRoundTrip(cursor, conv.from, conv.zero, conv.to(pieces[0].1).value);
    assert chunks[0..] == chunks;
  }

  lemma RestSlice<I>(contents: seq<Subjects>, mapper: Mapper<Subjects, I>, first: seq<ItemAndCursor<I>>, k: nat)
    requires contents != [] && k <= |first|
    ensures Rest(contents, mapper, first)[k..] == Rest(contents, mapper, first[k..])
  {
    assert ItemsOf(first)[k..] == ItemsOf(first[k..]);
  }

  /** From the cursor of an item of the first chunk the rest of that chunk and all others are owed. */
  lemma FirstOwes<I(!new)>(contents: seq<Subjects>, mapper: Mapper<Subjects, I>, remaining: Cursor,
                           first: seq<ItemAndCursor<I>>, k: nat)
    returns (cursor: Cursor)
    requires contents != [] && LeavesFirst(contents, mapper, remaining, first) && k < |first|
    ensures var on := MapperOn(mapper, contents[0]);
            |on(remaining).items| == |first| && cursor == on(remaining).items[k].cursor
    ensures Owes(contents, mapper, cursor, Rest(contents, mapper, first)[k + 1..])
  {
    var on := MapperOn(mapper, contents[0]);
    cursor := on(remaining).items[k].cursor;
    assert LeavesFirst(contents, mapper, cursor, first[k + 1..]) by {
      assert Resumes(on, cursor, first[k + 1..], false);
    }
    RestSlice(contents, mapper, first, k + 1);
  }

  /** A producer that hands over what was produced. */
  function Replay(output: ProducerOutput<Subjects, DatastoreIndex>): Producer<Subjects, DatastoreIndex> {
    (_, _) => output
  }

  /** All that a page could hold is what was promised, and each of its cursors promises what is after it. */
  lemma OutputPromises<I(!new)>(source: Source, issued: map<nat, Option<Reference>>, mapper: Mapper<Subjects, I>,
      conv: Converters<DatastoreIndex>, c: Cursor, output: ProducerOutput<Subjects, DatastoreIndex>, rest: seq<I>)
    requires ConvertsAll(conv) && Promises(source, issued, mapper, conv, c, rest) && !output.failed
    requires var chunks := ChunksFrom(source, CustomHeadValue(c, conv.from, conv.zero).value.0.dbCursor);
             Serves(source, issued, chunks, Pieces(output.chunks)) && |Pieces(output.chunks)| == |chunks|
    ensures var all := ProducerMapper(Replay(output), mapper, conv)(c);
            && !all.failed && ItemsOf(all.items) == rest
            && forall k | 0 <= k < |all.items| ::
               Promises(source, issued, mapper, conv, all.items[k].cursor, rest[k + 1..])
  {
    var (index, remaining) := CustomHeadValue(c, conv.from, conv.zero).value;
    var chunks, pieces := ChunksFrom(source, index.dbCursor), Pieces(output.chunks);
    var first :| LeavesFirst(Contents(chunks), mapper, remaining, first)
        && rest == Rest(Contents(chunks), mapper, first);
    PagePromises(source, issued, mapper, conv, chunks, pieces, remaining, first);
    HoldsAreSkipped(output.chunks, mapper, conv.to, remaining);
    var mapped := MappedPieces(pieces, mapper, conv.to, remaining);
    assert mapped.items + [] == mapped.items;
  }

  /** Clipping a page, or skipping it, leaves a cursor that promises the rest. */
  lemma ClippedPromises<I(!new)>(source: Source, issued: map<nat, Option<Reference>>, mapper: Mapper<Subjects, I>,
      conv: Converters<DatastoreIndex>, c: Cursor, all: seq<ItemAndCursor<I>>, rest: seq<I>, size: nat)
    requires Promises(source, issued, mapper, conv, c, rest) && ItemsOf(all) == rest
    requires forall k | 0 <= k < |all| :: Promises(source, issued, mapper, conv, all[k].cursor, rest[k + 1..])
    ensures var page := Clip(all, size);
            && ItemsOf(page) == Clip(rest, size) && |page| <= |rest|
            && Promises(source, issued, mapper, conv, if page == [] then c else page[|page| - 1].cursor, rest[|page|..])
  {
  }

  /** One page: the producer at the index of the cursor, and as much of what is mapped as fits. */
  method FetchPage<I(!new)>(lookup: ChunkedLookup, mapper: Mapper<Subjects, I>, conv: Converters<DatastoreIndex>,
                            c: Cursor, size: nat, holds: bool, ghost rest: seq<I>)
    returns (page: seq<ItemAndCursor<I>>)
    requires lookup.Valid() && ConvertsAll(conv) && Promises(lookup.source, lookup.issued, mapper, conv, c, rest)
    modifies lookup
    ensures lookup.Valid() && ItemsOf(page) == Clip(rest, size) && |page| <= |rest|
    ensures var next := if page == [] then c else page[|page| - 1].cursor;
            Promises(lookup.source, lookup.issued, mapper, conv, next, rest[|page|..])
  {
    var index := CustomHeadValue(c, conv.from, conv.zero).value.0;
    ghost var before := lookup.issued;
    var output := lookup.Produce(index, holds);
    PromiseKept(lookup.source, before, lookup.issued, mapper, conv, c, rest);
    OutputPromises(lookup.source, lookup.issued, mapper, conv, c, output, rest);
    ghost var all := ProducerMapper(Replay(output), mapper, conv)(c);
    page := TakePage(mapper, conv, c, output, size);
    ClippedPromises(lookup.source, lookup.issued, mapper, conv, c, all.items, rest, size);
  }

  method TakePage<I>(mapper: Mapper<Subjects, I>, conv: Converters<DatastoreIndex>, c: Cursor,
                     output: ProducerOutput<Subjects, DatastoreIndex>, size: nat)
    returns (page: seq<ItemAndCursor<I>>)
    ensures page == Clip(ProducerMapper(Replay(output), mapper, conv)(c).items, size)
  {
    if size == 0 {
      return [];
    }
    var consumer := new Consumer<I>(size);
    CursoredProducerMapper(Replay(output), mapper, conv, c, consumer);
    page := consumer.taken.items;
  }

  /** Pages of any sizes, with any chunks evicted before each, are together the unpaged run. */
  method FetchPages<I(!new)>(lookup: ChunkedLookup, mapper: Mapper<Subjects, I>, conv: Converters<DatastoreIndex>,
                             sizes: seq<nat>, evicted: nat -> set<nat>, holds: nat -> bool)
    returns (items: seq<I>)
    requires lookup.Valid() && ConvertsAll(conv) && MapperLaw(Contents(ChunksFrom(lookup.source, None)), mapper)
    modifies lookup
    ensures lookup.Valid() && items == Clip(Unpaged(Contents(ChunksFrom(lookup.source, None)), mapper), Total(sizes))
  {
    var cursor: Cursor := [];
    ghost var all := Unpaged(Contents(ChunksFrom(lookup.source, None)), mapper);
    ghost var rest := all;
    StartPromises(lookup.source, lookup.issued, mapper, conv);
    items := [];
    assert sizes[0..] == sizes;
    for i := 0 to |sizes|
      invariant lookup.Valid() && Promises(lookup.source, lookup.issued, mapper, conv, cursor, rest)
      invariant items + Clip(rest, Total(sizes[i..])) == Clip(all, Total(sizes))
    {
      lookup.Evict(evicted(i));
      var page := FetchPage(lookup, mapper, conv, cursor, sizes[i], holds(i), rest);
      PageTaken(items, ItemsOf(page), rest, sizes, i);
      items := items + ItemsOf(page);
      rest := rest[|page|..];
      if page != [] {
        cursor := page[|page| - 1].cursor;
      }
    }
  }

  lemma PageTaken<I>(items: seq<I>, page: seq<I>, rest: seq<I>, sizes: seq<nat>, i: nat)
    requires i < |sizes| && page == Clip(rest, sizes[i])
    ensures items + Clip(rest, Total(sizes[i..])) == items + page + Clip(rest[|page|..], Total(sizes[i + 1..]))
  {
  }

  lemma StartPromises<I(!new)>(source: Source, issued: map<nat, Option<Reference>>, mapper: Mapper<Subjects, I>,
                               conv: Converters<DatastoreIndex>)
    requires ConvertsAll(conv) && MapperLaw(Contents(ChunksFrom(source, None)), mapper)
    ensures Promises(source, issued, mapper, conv, [], Unpaged(Contents(ChunksFrom(source, None)), mapper))
  {
    var contents := Contents(ChunksFrom(source, None));
    var first := if contents == [] then [] else mapper([], contents[0]).items;
    if contents != [] {
      assert forall j | 0 <= j < |contents| - 1 :: contents[1..][j] == contents[j + 1];
    }
    assert LeavesFirst(contents, mapper, [], first) && Unpaged(contents, mapper) == Rest(contents, mapper, first);
  }
}
