/** Iterators built from iterators, to any depth, resume. */
module Nesting {
  import opened CursoredIterators
  import opened Resumption

  /** A nesting of the combinators. The chunks of a producer tell which plan maps them. */
  datatype Plan<!I> =
    | Source(f: Next<I>)
    | WithHeader(header: int -> HeaderOutput<I>, next: Plan<I>)
    | Ordered(branches: seq<Plan<I>>)
    | Producing(producer: Producer<nat, int>, conv: Converters<int>, plans: seq<Plan<I>>)

  ghost function Iterator<I>(plan: Plan<I>): Next<I> {
    match plan
    case Source(f) => f
    case WithHeader(header, next) => IntegerHeader(header, Iterator(next))
    case Ordered(branches) => Branches(Iterators(branches))
    case Producing(producer, conv, plans) => ProducerMapper(producer, MapperFor(plans), conv)
  }

  ghost function Iterators<I>(plans: seq<Plan<I>>): seq<Next<I>> {
    seq(|plans|, i requires 0 <= i < |plans| => Iterator(plans[i]))
  }

  ghost function MapperFor<I>(plans: seq<Plan<I>>): Mapper<nat, I> {
    (c: Cursor, k: nat) => if k < |plans| then Iterator(plans[k])(c) else Output([], true)
  }

  /** The law of the producer of a nesting, started without a cursor. */
  ghost predicate ProducerLawful(producer: Producer<nat, int>, conv: Converters<int>, count: nat, exact: bool) {
    exists table: iset<(int, seq<(nat, int)>)>, pieces: seq<(nat, int)> ::
      ProducerResumes(producer, conv, table, exact) && (conv.zero, pieces) in table && forall j | 0 <= j < |pieces| ::
          pieces[j].0 < count
  }

  /** Every component obeys its own law. */
  ghost predicate Lawful<I>(plan: Plan<I>, exact: bool) {
    match plan
    case Source(f) => Resumes(f, [], f([]).items, exact)
    case WithHeader(header, next) => HeaderResumes(header, 0) && Lawful(next, exact)
    case Ordered(branches) => forall i | 0 <= i < |branches| :: Lawful(branches[i], exact)
    case Producing(producer, conv, plans) =>
      ProducerLawful(producer, conv, |plans|, exact) && forall i | 0 <= i < |plans| :: Lawful(plans[i], exact)
  }

  lemma {:induction false} ResumesAlike<I>(f: Next<I>, c: Cursor, items: seq<ItemAndCursor<I>>,
                                           others: seq<ItemAndCursor<I>>, exact: bool)
    requires Resumes(f, c, items, exact) && Alike(exact, items, others)
    ensures Resumes(f, c, others, exact)
    decreases |items|
  {
    forall k | 0 <= k < |others| ensures Resumes(f, f(c).items[k].cursor, others[k + 1..], exact) {
      ResumesAlike(f, f(c).items[k].cursor, items[k + 1..], others[k + 1..], exact);
    }
  }

  /** What a start yields serves as well as what was expected of it. */
  lemma ResumesItself<I>(f: Next<I>, c: Cursor, items: seq<ItemAndCursor<I>>, exact: bool)
    requires Resumes(f, c, items, exact)
    ensures Resumes(f, c, f(c).items, exact)
  {
    ResumesAlike(f, c, items, f(c).items, exact);
  }

  lemma OrderedResumes<I>(branches: seq<Plan<I>>, exact: bool)
    requires forall i | 0 <= i < |branches| ::
             Resumes(Iterator(branches[i]), [], Iterator(branches[i])([]).items, exact)
    ensures Resumes(Branches(Iterators(branches)), [], Branches(Iterators(branches))([]).items, exact)
  {
    var fs := Iterators(branches);
    if branches != [] {
      assert fs[0] == Iterator(branches[0]);
      assert LaterBranchesResume(fs, 0, exact);
      BranchesResume(fs, [], 0, [], fs[0]([]).items, exact);
      ResumesItself(Branches(fs), [], BranchThen(fs, 0, fs[0]([]).items), exact);
    }
  }

  lemma ProducingResumes<I>(producer: Producer<nat, int>, conv: Converters<int>, plans: seq<Plan<I>>, exact: bool)
    requires ProducerLawful(producer, conv, |plans|, exact)
    requires forall i | 0 <= i < |plans| :: Resumes(Iterator(plans[i]), [], Iterator(plans[i])([]).items, exact)
    ensures var f := ProducerMapper(producer, MapperFor(plans), conv); Resumes(f, [], f([]).items, exact)
  {
    var mapper := MapperFor(plans);
    var table: iset<(int, seq<(nat, int)>)>, pieces: seq<(nat, int)> :|
      ProducerResumes(producer, conv, table, exact) && (conv.zero, pieces) in table && forall j | 0 <= j < |pieces| ::
          pieces[j].0 < |plans|;
    forall j | 0 <= j < |pieces| ensures Resumes(MapperOn(mapper, pieces[j].0), [], mapper([], pieces[j].0).items,
                                                 exact) {
      SameIterator(Iterator(plans[pieces[j].0]), MapperOn(mapper, pieces[j].0), [], mapper([], pieces[j].0).items,
                   exact);
    }
    AllFromStart(mapper, pieces, exact);
    var first := if pieces == [] then [] else mapper([], pieces[0].0).items;
    ProducerMapperResumes(producer, mapper, conv, table, [], conv.zero, [], pieces, first, exact);
    ResumesItself(ProducerMapper(producer, mapper, conv), [], FromPieces(pieces, mapper, conv.to, first), exact);
  }

  lemma {:induction false} SameIterator<I>(f: Next<I>, g: Next<I>, c: Cursor, items: seq<ItemAndCursor<I>>, exact: bool)
    requires Resumes(f, c, items, exact) && forall c :: f(c) == g(c)
    ensures Resumes(g, c, items, exact)
    decreases |items|
  {
    forall k | 0 <= k < |items| ensures Resumes(g, g(c).items[k].cursor, items[k + 1..], exact) {
      assert f(c) == g(c);
      SameIterator(f, g, f(c).items[k].cursor, items[k + 1..], exact);
    }
  }

  /** Any nesting of the combinators over components that obey their laws resumes. */
  lemma {:induction false} NestingResumes<I>(plan: Plan<I>, exact: bool)
    requires Lawful(plan, exact)
    ensures Resumes(Iterator(plan), [], Iterator(plan)([]).items, exact)
    decreases plan
  {
    match plan
    case Source(f) =>
    case WithHeader(header, next) =>
      NestingResumes(next, exact);
      var items := Iterator(next)([]).items;
      IntegerHeaderResumes(header, Iterator(next), [], items, exact);
      ResumesItself(Iterator(plan), [], HeaderThen(header, 0, items), exact);
    case Ordered(branches) =>
      forall i | 0 <= i < |branches| ensures Resumes(Iterator(branches[i]), [], Iterator(branches[i])([]).items,
                                                     exact) {
        NestingResumes(branches[i], exact);
      }
      OrderedResumes(branches, exact);
    case Producing(producer, conv, plans) =>
      forall i | 0 <= i < |plans| ensures Resumes(Iterator(plans[i]), [], Iterator(plans[i])([]).items, exact) {
        NestingResumes(plans[i], exact);
      }
      ProducingResumes(producer, conv, plans, exact);
  }

  /** So pages of any sizes, each fetched from the cursor of the last item before it, concatenate
      to the unpaged run of the whole nesting. */
  lemma NestingPages<I>(plan: Plan<I>, exact: bool, sizes: seq<nat>)
    requires Lawful(plan, exact)
    ensures Alike(exact, Pages(Iterator(plan), [], sizes), Clip(Iterator(plan)([]).items, Total(sizes)))
  {
    NestingResumes(plan, exact);
    PagesConcatenate(Iterator(plan), [], Iterator(plan)([]).items, exact, sizes);
  }
}
