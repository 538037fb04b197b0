/** Ordered branches run in parallel: each branch fills a bounded collector of its own while the
    consumer empties the collectors in order. Every interleaving yields what the sequential form
    yields, none gets stuck, and none goes on forever. */
module ParallelBranches {
  import opened Common
  import opened CursoredIterators

  const RESULTS_BUFFER_SIZE: nat := 1000

  datatype Message<I> = Result(item: ItemAndCursor<I>) | Completed

  /** All that a branch sends: its items, then the mark that it has completed. */
  function Stream<I>(output: seq<ItemAndCursor<I>>): seq<Message<I>> {
    seq(|output| + 1, k requires 0 <= k <= |output| => if k < |output| then Result(output[k]) else Completed)
  }

  /** The branches to run by what each yields, the index of the first of them, and how many may
      run at a time, which the program raises from zero to one. */
  datatype Job<I> = Job(outputs: seq<seq<ItemAndCursor<I>>>, offset: nat, concurrency: nat)

  /** Branches are started in order; `sent` counts the messages of each, and `received` those
      taken from the current collector. */
  datatype State<I> = State(
    started: nat,
    sent: seq<nat>,
    collectors: seq<seq<Message<I>>>,
    current: nat,
    received: nat,
    yielded: seq<ItemAndCursor<I>>)

  ghost predicate Shaped<I>(job: Job<I>, s: State<I>) {
    |s.sent| == |s.collectors| == |job.outputs| && s.started <= |job.outputs| && s.current <= |job.outputs|
  }

  function Init<I>(job: Job<I>): State<I> {
    State(0, seq(|job.outputs|, _ => 0), seq(|job.outputs|, _ => []), 0, 0, [])
  }

  /** The number of branches among the first `n` that have not sent everything. */
  ghost function Running<I>(outputs: seq<seq<ItemAndCursor<I>>>, sent: seq<nat>, n: nat): nat
    requires n <= |outputs| == |sent|
  {
    if n == 0 then 0 else Running(outputs, sent, n - 1) + if sent[n - 1] <= |outputs[n - 1]| then 1 else 0
  }

  ghost predicate StartBranch<I>(job: Job<I>, s: State<I>, s': State<I>)
    requires Shaped(job, s)
  {
    && s.started < |job.outputs| && Running(job.outputs, s.sent, s.started) < job.concurrency
    && s' == s.(started := s.started + 1)
  }

  ghost predicate Send<I>(job: Job<I>, s: State<I>, i: nat, s': State<I>)
    requires Shaped(job, s)
  {
    && i < s.started && s.sent[i] < |Stream(job.outputs[i])| && |s.collectors[i]| < RESULTS_BUFFER_SIZE
    && s' == s.(sent := s.sent[i := s.sent[i] + 1],
                collectors := s.collectors[i := s.collectors[i] + [Stream(job.outputs[i])[s.sent[i]]]])
  }

  ghost predicate Receive<I>(job: Job<I>, s: State<I>, s': State<I>)
    requires Shaped(job, s)
  {
    && s.current < |job.outputs| && s.collectors[s.current] != []
    && var rest := s.(collectors := s.collectors[s.current := s.collectors[s.current][1..]]);
       match s.collectors[s.current][0]
       case Completed => s' == rest.(current := s.current + 1, received := 0)
       case Result(r) =>
         var head := IntSection(job.offset + s.current);
         s' == rest.(received := s.received + 1,
                     yielded := s.yielded + [ItemAndCursor(r.item, WithHead(r.cursor, head))])
  }

  ghost predicate Step<I>(job: Job<I>, s: State<I>, s': State<I>) {
    Shaped(job, s) && (StartBranch(job, s, s') || Receive(job, s, s') || exists i: nat :: Send(job, s, i, s'))
  }

  ghost predicate Run<I>(job: Job<I>, trace: seq<State<I>>) {
    && trace != [] && trace[0] == Init(job)
    && forall k | 0 <= k < |trace| - 1 :: Step(job, trace[k], trace[k + 1])
  }

  // ---- The invariant.

  ghost function Yields<I>(job: Job<I>, n: nat): seq<ItemAndCursor<I>>
    requires n <= |job.outputs|
  {
    if n == 0 then [] else Yields(job, n - 1) + WithHeads(job.outputs[n - 1], IntSection(job.offset + n - 1))
  }

  /** How many messages of branch `i` the consumer has taken. */
  ghost function Taken<I>(job: Job<I>, s: State<I>, i: nat): nat
    requires i < |job.outputs|
  {
    if i < s.current then |job.outputs[i]| + 1 else if i == s.current then s.received else 0
  }

  /** The collector holds what has been sent and not taken. */
  ghost predicate BranchInv<I>(job: Job<I>, s: State<I>, i: nat)
    requires Shaped(job, s) && i < |job.outputs|
  {
    && Taken(job, s, i) <= s.sent[i] <= |Stream(job.outputs[i])|
    && s.collectors[i] == Stream(job.outputs[i])[Taken(job, s, i)..s.sent[i]]
    && (i >= s.started ==> s.sent[i] == 0)
    && |s.collectors[i]| <= RESULTS_BUFFER_SIZE
  }

  ghost predicate YieldedInv<I>(job: Job<I>, s: State<I>)
    requires Shaped(job, s)
  {
    if s.current == |job.outputs| then s.received == 0 && s.yielded == Yields(job, s.current)
    else
      && s.received <= |job.outputs[s.current]|
      && s.yielded == Yields(job, s.current) +
         WithHeads(job.outputs[s.current][..s.received], IntSection(job.offset + s.current))
  }

  ghost predicate Inv<I>(job: Job<I>, s: State<I>) {
    && Shaped(job, s)
    && (forall i: nat | i < |job.outputs| :: BranchInv(job, s, i))
    && YieldedInv(job, s)
    && Running(job.outputs, s.sent, s.started) <= job.concurrency
  }

  lemma {:induction false} RunningUpdate<I>(outputs: seq<seq<ItemAndCursor<I>>>, sent: seq<nat>, n: nat, i: nat)
    requires n <= |outputs| == |sent| && i < |sent| && sent[i] <= |outputs[i]|
    ensures Running(outputs, sent[i := sent[i] + 1], n) <= Running(outputs, sent, n)
  {
    if n > 0 {
      RunningUpdate(outputs, sent, n - 1, i);
    }
  }

  lemma InitInv<I>(job: Job<I>)
    ensures Inv(job, Init(job))
  {
  }

  lemma SendInv<I>(job: Job<I>, s: State<I>, i: nat, s': State<I>)
    requires Inv(job, s) && Send(job, s, i, s')
    ensures Inv(job, s')
  {
    RunningUpdate(job.outputs, s.sent, s.started, i);
    forall j: nat | j < |job.outputs| ensures BranchInv(job, s', j) {
      assert BranchInv(job, s, j);
      if j == i {
        var stream, n := Stream(job.outputs[i]), s.sent[i];
        assert stream[Taken(job, s, i)..n] + [stream[n]] == stream[Taken(job, s, i)..n + 1];
      }
    }
  }

  lemma ReceivedBranch<I>(job: Job<I>, s: State<I>, s': State<I>, j: nat)
    requires Inv(job, s) && Receive(job, s, s') && j < |job.outputs|
    ensures BranchInv(job, s', j)
  {
    assert BranchInv(job, s, j) && BranchInv(job, s, s.current);
    if j == s.current {
      var stream := Stream(job.outputs[j]);
      assert stream[s.received] == s.collectors[j][0];
      assert stream[s.received..s.sent[j]][1..] == stream[s.received + 1..s.sent[j]];
    }
  }

  lemma ReceivedYield<I>(job: Job<I>, s: State<I>, s': State<I>)
    requires Inv(job, s) && Receive(job, s, s')
    ensures YieldedInv(job, s')
  {
    var i := s.current;
    assert BranchInv(job, s, i);
    var output, head := job.outputs[i], IntSection(job.offset + i);
    assert Stream(output)[s.received] == s.collectors[i][0];
    if s.collectors[i][0].Completed? {
      assert output[..s.received] == output;
      if s'.current < |job.outputs| {
        assert job.outputs[s'.current][..0] == [];
      }
    } else {
      assert WithHeads(output[..s.received + 1], head) ==
             WithHeads(output[..s.received], head) +
                 [ItemAndCursor(output[s.received].item, WithHead(output[s.received].cursor, head))];
    }
  }

  lemma StepInv<I>(job: Job<I>, s: State<I>, s': State<I>)
    requires Inv(job, s) && Step(job, s, s')
    ensures Inv(job, s')
  {
    if StartBranch(job, s, s') {
      forall j: nat | j < |job.outputs| ensures BranchInv(job, s', j) {
        assert BranchInv(job, s, j);
      }
    } else if Receive(job, s, s') {
      forall j: nat | j < |job.outputs| ensures BranchInv(job, s', j) {
        ReceivedBranch(job, s, s', j);
      }
      ReceivedYield(job, s, s');
    } else {
      var i: nat :| Send(job, s, i, s');
      SendInv(job, s, i, s');
    }
  }

  lemma RunFront<I>(job: Job<I>, trace: seq<State<I>>)
    requires Run(job, trace) && |trace| > 1
    ensures Run(job, trace[..|trace| - 1]) && Step(job, trace[|trace| - 2], trace[|trace| - 1])
  {
  }

  lemma {:induction false} RunInv<I>(job: Job<I>, trace: seq<State<I>>)
    requires Run(job, trace)
    ensures Inv(job, trace[|trace| - 1])
    decreases |trace|
  {
    if |trace| == 1 {
      InitInv(job);
    } else {
      RunFront(job, trace);
      RunInv(job, trace[..|trace| - 1]);
      StepInv(job, trace[|trace| - 2], trace[|trace| - 1]);
    }
  }

  // ---- The results.

  lemma {:induction false} YieldsPrefix<I>(job: Job<I>, n: nat, m: nat)
    requires n <= m <= |job.outputs|
    ensures Yields(job, n) <= Yields(job, m)
  {
    if n < m {
      YieldsPrefix(job, n, m - 1);
    }
  }

  lemma InvMeansPrefix<I>(job: Job<I>, s: State<I>)
    requires Inv(job, s)
    ensures s.yielded <= Yields(job, |job.outputs|)
    ensures s.current == |job.outputs| ==> s.yielded == Yields(job, |job.outputs|)
  {
    if s.current < |job.outputs| {
      var output, head := job.outputs[s.current], IntSection(job.offset + s.current);
      assert WithHeads(output[..s.received], head) <= WithHeads(output, head);
      YieldsPrefix(job, s.current + 1, |job.outputs|);
    }
  }

  /** A branch that all others wait for is never kept from starting or sending. */
  lemma NotStuck<I>(job: Job<I>, s: State<I>) returns (s': State<I>)
    requires Inv(job, s) && job.concurrency > 0 && s.current < |job.outputs|
    ensures Step(job, s, s')
  {
    var i := s.current;
    assert BranchInv(job, s, i);
    if s.collectors[i] != [] {
      s' := AnyReceive(job, s);
    } else if i < s.started {
      s' := s.(sent := s.sent[i := s.sent[i] + 1],
               collectors := s.collectors[i := s.collectors[i] + [Stream(job.outputs[i])[s.sent[i]]]]);
      assert Send(job, s, i, s');
    } else {
      AllDone(job, s, s.started);
      s' := s.(started := s.started + 1);
      assert StartBranch(job, s, s');
    }
  }

  lemma AnyReceive<I>(job: Job<I>, s: State<I>) returns (s': State<I>)
    requires Shaped(job, s) && s.current < |job.outputs| && s.collectors[s.current] != []
    ensures Receive(job, s, s')
  {
    var rest := s.(collectors := s.collectors[s.current := s.collectors[s.current][1..]]);
    match s.collectors[s.current][0]
    case Completed => s' := rest.(current := s.current + 1, received := 0);
    case Result(r) =>
      s' := rest.(received := s.received + 1,
                  yielded := s.yielded +
                      [ItemAndCursor(r.item, WithHead(r.cursor, IntSection(job.offset + s.current)))]);
  }

  lemma {:induction false} AllDone<I>(job: Job<I>, s: State<I>, n: nat)
    requires Inv(job, s) && n <= s.current
    ensures Running(job.outputs, s.sent, n) == 0
  {
    if n > 0 {
      assert BranchInv(job, s, n - 1);
      AllDone(job, s, n - 1);
    }
  }

  // ---- Every step is progress.

  ghost function Sum(ns: seq<nat>): nat {
    if ns == [] then 0 else Sum(ns[..|ns| - 1]) + ns[|ns| - 1]
  }

  lemma {:induction false} SumUpdate(ns: seq<nat>, i: nat, v: nat)
    requires i < |ns|
    ensures Sum(ns[i := v]) == Sum(ns) - ns[i] + v
    decreases |ns|
  {
    var front := ns[..|ns| - 1];
    if i == |front| {
      assert ns[i := v][..|front|] == front;
    } else {
      SumUpdate(front, i, v);
      assert ns[i := v][..|front|] == front[i := v];
    }
  }

  ghost function Total<I>(outputs: seq<seq<ItemAndCursor<I>>>, n: nat): nat
    requires n <= |outputs|
  {
    if n == 0 then 0 else Total(outputs, n - 1) + |outputs[n - 1]| + 1
  }

  ghost function Work<I>(job: Job<I>, s: State<I>): nat
    requires Shaped(job, s)
  {
    s.started + Sum(s.sent) + Total(job.outputs, s.current) + s.received
  }

  lemma {:induction false} SentBound<I>(job: Job<I>, s: State<I>, n: nat)
    requires Inv(job, s) && n <= |job.outputs|
    ensures Sum(s.sent[..n]) <= Total(job.outputs, n)
  {
    if n > 0 {
      assert BranchInv(job, s, n - 1);
      SentBound(job, s, n - 1);
      assert s.sent[..n][..n - 1] == s.sent[..n - 1];
    }
  }

  lemma {:induction false} TotalMonotone<I>(outputs: seq<seq<ItemAndCursor<I>>>, n: nat, m: nat)
    requires n <= m <= |outputs|
    ensures Total(outputs, n) <= Total(outputs, m)
  {
    if n < m {
      TotalMonotone(outputs, n, m - 1);
    }
  }

  lemma ReceiveWorks<I>(job: Job<I>, s: State<I>, s': State<I>)
    requires Inv(job, s) && Receive(job, s, s')
    ensures Shaped(job, s') && Work(job, s') == Work(job, s) + 1
  {
    assert BranchInv(job, s, s.current);
    assert s.collectors[s.current][0] == Stream(job.outputs[s.current])[s.received];
  }

  lemma StepWorks<I>(job: Job<I>, s: State<I>, s': State<I>)
    requires Inv(job, s) && Step(job, s, s')
    ensures Shaped(job, s') && Work(job, s') == Work(job, s) + 1
  {
    if Receive(job, s, s') {
      ReceiveWorks(job, s, s');
    } else if !StartBranch(job, s, s') {
      var i: nat :| Send(job, s, i, s');
      SumUpdate(s.sent, i, s.sent[i] + 1);
    }
  }

  lemma {:induction false} SumZeros(n: nat)
    ensures Sum(seq(n, _ => 0)) == 0
  {
    if n > 0 {
      SumZeros(n - 1);
      assert seq<nat>(n, _ => 0)[..n - 1] == seq(n - 1, _ => 0);
    }
  }

  lemma {:induction false} RunWorks<I>(job: Job<I>, trace: seq<State<I>>)
    requires Run(job, trace)
    ensures Inv(job, trace[|trace| - 1]) && Work(job, trace[|trace| - 1]) == |trace| - 1
    decreases |trace|
  {
    RunInv(job, trace);
    if |trace| == 1 {
      SumZeros(|job.outputs|);
    } else {
      RunFront(job, trace);
      RunWorks(job, trace[..|trace| - 1]);
      StepWorks(job, trace[|trace| - 2], trace[|trace| - 1]);
    }
  }

  lemma WorkBound<I>(job: Job<I>, s: State<I>)
    requires Inv(job, s)
    ensures Work(job, s) <= |job.outputs| + 2 * Total(job.outputs, |job.outputs|)
  {
    SentBound(job, s, |job.outputs|);
    assert s.sent[..|job.outputs|] == s.sent;
    TotalMonotone(job.outputs, s.current, |job.outputs|);
    if s.current < |job.outputs| {
      TotalMonotone(job.outputs, s.current + 1, |job.outputs|);
    }
  }

  // ---- Against the sequential form.

  /** The branches from `start` on; only the first of them resumes from the remaining cursor. */
  ghost function JobFor<I>(branches: seq<Next<I>>, start: nat, remaining: Cursor, concurrency: nat): Job<I>
    requires start < |branches|
  {
    Job(seq(|branches| - start,
            i requires 0 <= i < |branches| - start => branches[start + i](if i == 0 then remaining else []).items),
        start, concurrency)
  }

  ghost predicate NoneFails<I>(branches: seq<Next<I>>, start: nat, remaining: Cursor)
    requires start < |branches|
  {
    !branches[start](remaining).failed && forall i | start < i < |branches| :: !branches[i]([]).failed
  }

  lemma {:induction false} SequentialYields<I>(branches: seq<Next<I>>, start: nat, remaining: Cursor, concurrency: nat,
                                               i: nat)
    requires start < |branches| && i <= |branches| - start && NoneFails(branches, start, remaining)
    ensures var job := JobFor(branches, start, remaining, concurrency);
            var rest := BranchesFrom(branches, start + i, if i == 0 then remaining else []);
            !rest.failed && Yields(job, i) + rest.items == Yields(job, |job.outputs|)
    decreases |branches| - start - i
  {
    var job := JobFor(branches, start, remaining, concurrency);
    if i < |job.outputs| {
      SequentialYields(branches, start, remaining, concurrency, i + 1);
      var cursor := if i == 0 then remaining else [];
      assert job.outputs[i] == branches[start + i](cursor).items;
      var rest := BranchesFrom(branches, start + i + 1, []);
      assert BranchesFrom(branches, start + i, cursor).items == WithHeads(job.outputs[i], IntSection(start + i)) +
             rest.items;
      assert Yields(job, i + 1) + rest.items == Yields(job, i) +
             (WithHeads(job.outputs[i], IntSection(start + i)) + rest.items);
    }
  }

  /** In every run the parallel form has yielded a prefix of what the sequential form yields, and
      all of it when the consumer is through; until then some step is possible; and no run is
      longer than the messages there are to pass. */
  lemma ParallelYieldsSequential<I>(branches: seq<Next<I>>, c: Cursor, start: nat, remaining: Cursor, concurrency: nat,
                                    trace: seq<State<I>>)
    requires start < |branches| && IntHeadValue(c) == Ok((start, remaining)) && NoneFails(branches, start, remaining)
    requires concurrency > 0 && Run(JobFor(branches, start, remaining, concurrency), trace)
    ensures var job, s := JobFor(branches, start, remaining, concurrency), trace[|trace| - 1];
            && s.yielded <= Branches(branches)(c).items
            && (s.current == |job.outputs| ==> s.yielded == Branches(branches)(c).items)
            && (s.current != |job.outputs| ==> exists s' :: Step(job, s, s'))
            && |trace| <= 1 + |job.outputs| + 2 * Total(job.outputs, |job.outputs|)
  {
    var job, s := JobFor(branches, start, remaining, concurrency), trace[|trace| - 1];
    RunWorks(job, trace);
    WorkBound(job, s);
    InvMeansPrefix(job, s);
    SequentialYields(branches, start, remaining, concurrency, 0);
    assert Branches(branches)(c) == BranchesFrom(branches, start, remaining);
    if s.current < |job.outputs| {
      var s' := NotStuck(job, s);
    }
  }
}
