/** Evaluating a caveat expression under a context that may leave caveats undecided.

    A leaf evaluates to a value, to "partial" together with the names of the missing context
    variables, or to an error. The run folds the children of an operation from left to right and,
    without debugging, stops as soon as the outcome is decided. */
module CaveatRunner {
  import opened Common
  import opened Caveats

  datatype Outcome = Known(b: bool) | Partial(missing: set<string>)

  /** What one caveat evaluates to under the context of the run. */
  type LeafResults = Caveat -> Result<Outcome>

  /** The result of running an expression. A combined result carries the results of its children
      when debugging, and the collected missing names otherwise. */
  datatype ExpressionResult =
    | CaveatResult(outcome: Outcome)
    | SyntheticResult(value: bool, isPartial: bool, exprResults: seq<ExpressionResult>, collected: Option<set<string>>)
  {
    predicate IsPartial() {
      if CaveatResult? then outcome.Partial? else isPartial
    }

    predicate Value() {
      if CaveatResult? then outcome == Known(true) else value
    }

    function MissingVarNames(): Result<set<string>> {
      if !IsPartial() then Err
      else if CaveatResult? then Ok(outcome.missing)
      else if collected.Some? then Ok(collected.value)
      else Ok(set i, x | 0 <= i < |exprResults| && exprResults[i].IsPartial()
              && x in exprResults[i].MissingVarNames().value :: x)
    }

    function AsOutcome(): Outcome {
      if IsPartial() then Partial(MissingVarNames().value) else Known(Value())
    }
  }

  // ---- What an expression evaluates to, in three-valued logic.

  ghost function Missing(outcomes: seq<Outcome>): set<string> {
    set i, x | 0 <= i < |outcomes| && outcomes[i].Partial? && x in outcomes[i].missing :: x
  }

  ghost predicate AnyPartial(outcomes: seq<Outcome>) {
    exists o <- outcomes :: o.Partial?
  }

  /** A deciding child decides; failing that, a partial child makes the whole partial, missing
      everything any partial child misses. */
  ghost function Combine(decisive: bool, outcomes: seq<Outcome>): Outcome {
    if Known(decisive) in outcomes then Known(decisive)
    else if AnyPartial(outcomes) then Partial(Missing(outcomes))
    else Known(!decisive)
  }

  ghost function Negated(o: Outcome): Outcome {
    if o.Partial? then o else Known(!o.b)
  }

  ghost function Kleene(e: Expr, leaves: Caveat -> Outcome): Outcome {
    match e
    case Leaf(c) => leaves(c)
    case Operation(op, children) =>
      var outcomes := seq(|children|, i requires 0 <= i < |children| => Kleene(children[i], leaves));
      match op
      case AND => Combine(false, outcomes)
      case OR => Combine(true, outcomes)
      case NOT => if children == [] then Known(false) else Negated(outcomes[0])
      case UNKNOWN => Known(false)
  }

  ghost function Outcomes(children: seq<Expr>, leaves: Caveat -> Outcome): seq<Outcome> {
    seq(|children|, i requires 0 <= i < |children| => Kleene(children[i], leaves))
  }

  /** `leaves` has the values of `results`, and anything where `results` has errors. */
  ghost predicate Extends(leaves: Caveat -> Outcome, results: LeafResults) {
    forall c :: results(c).Ok? ==> leaves(c) == results(c).value
  }

  /** Whether every child the run looks at succeeds: all of them when debugging, otherwise those
      with no decisive child before them. */
  ghost predicate Succeeds(e: Expr, results: LeafResults, leaves: Caveat -> Outcome, debug: bool) {
    match e
    case Leaf(c) => results(c).Ok?
    case Operation(op, children) =>
      match op
      case UNKNOWN => children == []
      case NOT => children == [] || Succeeds(children[0], results, leaves, debug)
      case _ =>
        forall i | 0 <= i < |children| && (debug || Known(op == OR) !in Outcomes(children, leaves)[..i]) ::
          Succeeds(children[i], results, leaves, debug)
  }

  // ---- The run.

  function AndResults(existing: ExpressionResult, found: ExpressionResult, exprResults: seq<ExpressionResult>,
                      collected: Option<set<string>>): ExpressionResult {
    if !existing.IsPartial() && !existing.Value() then SyntheticResult(false, false, exprResults, None)
    else if !found.IsPartial() && !found.Value() then SyntheticResult(false, false, exprResults, None)
    else
      var partial := existing.IsPartial() || found.IsPartial();
      SyntheticResult(!partial && existing.Value() && found.Value(), partial, exprResults, collected)
  }

  function OrResults(existing: ExpressionResult, found: ExpressionResult, exprResults: seq<ExpressionResult>,
                     collected: Option<set<string>>): ExpressionResult {
    if !existing.IsPartial() && existing.Value() then SyntheticResult(true, false, exprResults, None)
    else if !found.IsPartial() && found.Value() then SyntheticResult(true, false, exprResults, None)
    else
      var partial := existing.IsPartial() || found.IsPartial();
      SyntheticResult(!partial && (existing.Value() || found.Value()), partial, exprResults, collected)
  }

  function InvertResult(existing: ExpressionResult, exprResults: seq<ExpressionResult>,
                        collected: Option<set<string>>): ExpressionResult {
    SyntheticResult(!existing.IsPartial() && !existing.Value(), existing.IsPartial(), exprResults, collected)
  }

  ghost function OutcomesOf(results: seq<ExpressionResult>): seq<Outcome> {
    seq(|results|, i requires 0 <= i < |results| => results[i].AsOutcome())
  }

  /** What the loop has collected after children with these outcomes. */
  ghost predicate Collected(outcomes: seq<Outcome>, exprResults: seq<ExpressionResult>,
                            collected: Option<set<string>>) {
    match collected
    case None => OutcomesOf(exprResults) == outcomes
    case Some(missing) => missing == Missing(outcomes)
  }

  lemma MissingSnoc(outcomes: seq<Outcome>, o: Outcome)
    ensures Missing(outcomes + [o]) == Missing(outcomes) + if o.Partial? then o.missing else {}
  {
    var more := outcomes + [o];
    forall x | x in Missing(outcomes) ensures x in Missing(more) {
      var i :| 0 <= i < |outcomes| && outcomes[i].Partial? && x in outcomes[i].missing;
      assert more[i] == outcomes[i];
    }
    assert more[|outcomes|] == o;
  }

  lemma CombineSnoc(decisive: bool, outcomes: seq<Outcome>, o: Outcome)
    ensures Combine(decisive, outcomes + [o]) ==
            if Known(decisive) in [Combine(decisive, outcomes), o] then Known(decisive)
            else if Combine(decisive, outcomes).Partial? || o.Partial? then Partial(Missing(outcomes + [o]))
            else Known(!decisive)
  {
  }

  /** What a combined result says about missing names is what its children miss. */
  lemma SyntheticMissing(outcomes: seq<Outcome>, r: ExpressionResult)
    requires r.SyntheticResult? && Collected(outcomes, r.exprResults, r.collected)
    ensures r.isPartial ==> r.MissingVarNames() == Ok(Missing(outcomes))
  {
    if r.isPartial && r.collected.None? {
      assert forall i | 0 <= i < |outcomes| :: outcomes[i] == r.exprResults[i].AsOutcome();
      assert r.MissingVarNames().value == Missing(outcomes);
    }
  }

  lemma AndStep(outcomes: seq<Outcome>, existing: ExpressionResult, found: ExpressionResult,
                exprResults: seq<ExpressionResult>, collected: Option<set<string>>)
    requires existing.AsOutcome() == Combine(false, outcomes)
    requires Collected(outcomes + [found.AsOutcome()], exprResults, collected)
    ensures AndResults(existing, found, exprResults, collected).AsOutcome() ==
            Combine(false, outcomes + [found.AsOutcome()])
  {
    CombineSnoc(false, outcomes, found.AsOutcome());
    var r := AndResults(existing, found, exprResults, collected);
    if r.isPartial {
      SyntheticMissing(outcomes + [found.AsOutcome()], r);
    }
  }

  lemma OrStep(outcomes: seq<Outcome>, existing: ExpressionResult, found: ExpressionResult,
               exprResults: seq<ExpressionResult>, collected: Option<set<string>>)
    requires existing.AsOutcome() == Combine(true, outcomes)
    requires Collected(outcomes + [found.AsOutcome()], exprResults, collected)
    ensures OrResults(existing, found, exprResults, collected).AsOutcome() ==
            Combine(true, outcomes + [found.AsOutcome()])
  {
    CombineSnoc(true, outcomes, found.AsOutcome());
    var r := OrResults(existing, found, exprResults, collected);
    if r.isPartial {
      SyntheticMissing(outcomes + [found.AsOutcome()], r);
    }
  }

  /** A decisive child decides the operation and ends the run without debugging. */
  lemma DecidedEarly(op: Operator, children: seq<Expr>, results: LeafResults, leaves: Caveat -> Outcome, n: nat)
    requires op == AND || op == OR
    requires n < |children|
    requires Combine(op == OR, Outcomes(children, leaves)[..n + 1]) == Known(op == OR)
    requires Known(op == OR) !in Outcomes(children, leaves)[..n]
    requires forall j | 0 <= j <= n :: Succeeds(children[j], results, leaves, false)
    ensures Succeeds(Operation(op, children), results, leaves, false)
    ensures Kleene(Operation(op, children), leaves) == Known(op == OR)
  {
  }

  /** The run fails exactly when a child it looks at fails; otherwise its result is the
      three-valued meaning of the expression, whatever the leaves that err would have been. */
  method RunExpression(e: Expr, results: LeafResults, debug: bool, ghost leaves: Caveat -> Outcome)
    returns (r: Result<ExpressionResult>)
    requires Extends(leaves, results)
    ensures r.Ok? <==> Succeeds(e, results, leaves, debug)
    ensures r.Ok? ==> r.value.AsOutcome() == Kleene(e, leaves)
    decreases e, 1
  {
    match e
    case Leaf(c) =>
      var outcome := results(c);
      r := if outcome.Ok? then Ok(CaveatResult(outcome.value)) else Err;
    case Operation(op, children) =>
      if children == [] {
        return Ok(SyntheticResult(op == AND, false, [], None));
      }
      match op
      case UNKNOWN =>
        var _ := RunExpression(children[0], results, debug, leaves);
        r := Err;
      case NOT =>
        var child := RunExpression(children[0], results, debug, leaves);
        if child.Err? {
          return Err;
        }
        var names := if child.value.IsPartial() then child.value.MissingVarNames().value else {};
        var inverted := if debug then InvertResult(child.value, [child.value], None)
            else InvertResult(child.value, [], Some(names));
        ghost var outcome := child.value.AsOutcome();
        MissingSnoc([], outcome);
        assert [] + [outcome] == [outcome];
        SyntheticMissing([outcome], inverted);
        r := Ok(inverted);
      case _ => r := RunOperation(op, children, e, results, debug, leaves);
  }

  /** The loop over the children of a conjunction or disjunction. */
  method RunOperation(op: Operator, children: seq<Expr>, ghost e: Expr, results: LeafResults, debug: bool,
                      ghost leaves: Caveat -> Outcome)
    returns (r: Result<ExpressionResult>)
    requires e == Operation(op, children) && (op == AND || op == OR)
    requires Extends(leaves, results)
    ensures r.Ok? <==> Succeeds(e, results, leaves, debug)
    ensures r.Ok? ==> r.value.AsOutcome() == Kleene(e, leaves)
    decreases e, 0
  {
    var current := SyntheticResult(op == AND, false, [], None);
    var exprResults, names := [], {};
    ghost var outcomes := Outcomes(children, leaves);
    for i := 0 to |children|
      invariant current.AsOutcome() == Combine(op == OR, outcomes[..i])
      invariant Collected(outcomes[..i], exprResults, if debug then None else Some(names))
      invariant debug || Known(op == OR) !in outcomes[..i]
      invariant forall j | 0 <= j < i :: Succeeds(children[j], results, leaves, debug)
    {
      var child := RunExpression(children[i], results, debug, leaves);
      if child.Err? {
        return Err;
      }
      var found := child.value;
      assert outcomes[..i + 1] == outcomes[..i] + [found.AsOutcome()];
      MissingSnoc(outcomes[..i], found.AsOutcome());
      if debug {
        exprResults := exprResults + [found];
      } else if found.IsPartial() {
        names := names + found.MissingVarNames().value;
      }
      var collected := if debug then None else Some(names);
      if op == AND {
        AndStep(outcomes[..i], current, found, exprResults, collected);
        current := AndResults(current, found, exprResults, collected);
      } else {
        OrStep(outcomes[..i], current, found, exprResults, collected);
        current := OrResults(current, found, exprResults, collected);
      }
      if !debug && !current.IsPartial() && current.Value() == (op == OR) {
        DecidedEarly(op, children, results, leaves, i);
        return Ok(current);
      }
    }
    assert outcomes[..|children|] == outcomes;
    r := Ok(current);
  }

  // ---- What the result means.

  /** An assignment that completes what the leaves leave open. */
  ghost predicate Completes(a: Assignment, leaves: Caveat -> Outcome) {
    forall c :: leaves(c).Known? ==> (c in a <==> leaves(c).b)
  }

  /** A determined result is the classical value under every completion. */
  lemma {:induction false} DeterminedIsClassical(e: Expr, leaves: Caveat -> Outcome, a: Assignment)
    requires Completes(a, leaves)
    ensures Kleene(e, leaves).Known? ==> (Eval(e, a) <==> Kleene(e, leaves).b)
  {
    match e
    case Leaf(c) =>
    case Operation(op, children) =>
      var outcomes := Outcomes(children, leaves);
      forall i | 0 <= i < |children|
        ensures outcomes[i].Known? ==> (Eval(children[i], a) <==> outcomes[i].b) && outcomes[i] in outcomes
      {
        DeterminedIsClassical(children[i], leaves, a);
      }
      if op == AND || op == OR {
        if Known(op == OR) in outcomes {
          var i :| 0 <= i < |outcomes| && outcomes[i] == Known(op == OR);
          assert Eval(children[i], a) <==> op == OR;
        } else if Kleene(e, leaves).Known? {
          assert forall i | 0 <= i < |children| :: outcomes[i] in outcomes && outcomes[i] == Known(op == AND);
        }
      }
  }

  /** More context: known leaves stay, partial ones become known or miss no more than before. */
  ghost predicate Refined(before: Outcome, after: Outcome) {
    if before.Known? then after == before else after.Partial? ==> after.missing <= before.missing
  }

  ghost predicate AddsContext(leaves: Caveat -> Outcome, more: Caveat -> Outcome) {
    forall c :: Refined(leaves(c), more(c))
  }

  lemma CombineRefined(decisive: bool, before: seq<Outcome>, after: seq<Outcome>)
    requires |before| == |after| && forall i | 0 <= i < |before| :: Refined(before[i], after[i])
    ensures Refined(Combine(decisive, before), Combine(decisive, after))
  {
  }

  /** Adding context never changes a determined result, and a result that stays partial misses
      no new name. */
  lemma {:induction false} ContextOnlyRefines(e: Expr, leaves: Caveat -> Outcome, more: Caveat -> Outcome)
    requires AddsContext(leaves, more)
    ensures Refined(Kleene(e, leaves), Kleene(e, more))
  {
    match e
    case Leaf(c) =>
    case Operation(op, children) =>
      forall i | 0 <= i < |children| ensures Refined(Outcomes(children, leaves)[i], Outcomes(children, more)[i]) {
        ContextOnlyRefines(children[i], leaves, more);
      }
      CombineRefined(op == OR, Outcomes(children, leaves), Outcomes(children, more));
  }

  /** The context added decides every leaf that misses nothing but the supplied names. */
  ghost predicate Supplies(leaves: Caveat -> Outcome, more: Caveat -> Outcome, names: set<string>) {
    && AddsContext(leaves, more)
    && forall c :: leaves(c).Partial? && leaves(c).missing <= names ==> more(c).Known?
  }

  /** Supplying every name a partial result reports missing determines the result. */
  lemma {:induction false} SuppliedNamesDetermine(e: Expr, leaves: Caveat -> Outcome, more: Caveat -> Outcome,
                                                  names: set<string>)
    requires Supplies(leaves, more, names)
    ensures Kleene(e, leaves).Known? || Kleene(e, leaves).missing <= names ==> Kleene(e, more).Known?
  {
    ContextOnlyRefines(e, leaves, more);
    match e
    case Leaf(c) =>
    case Operation(op, children) =>
      var before, after := Outcomes(children, leaves), Outcomes(children, more);
      if Kleene(e, leaves).Partial? && Kleene(e, leaves).missing <= names {
        forall i | 0 <= i < |children| && (op != NOT || i == 0) ensures after[i].Known? {
          SuppliedNamesDetermine(children[i], leaves, more, names);
          if before[i].Partial? && op != NOT {
            assert forall x <- before[i].missing :: x in Missing(before);
          }
        }
      }
  }

  /** Debugging looks at every child, so where it succeeds the plain run succeeds too. */
  lemma {:induction false} DebugSucceedsLess(e: Expr, results: LeafResults, leaves: Caveat -> Outcome)
    ensures Succeeds(e, results, leaves, true) ==> Succeeds(e, results, leaves, false)
  {
    if e.Operation? && Succeeds(e, results, leaves, true) {
      forall i | 0 <= i < |e.children| && Succeeds(e.children[i], results, leaves, true)
        ensures Succeeds(e.children[i], results, leaves, false)
      {
        DebugSucceedsLess(e.children[i], results, leaves);
      }
    }
  }

  // ---- Partial means undetermined, as long as no caveat is used twice.

  ghost predicate Uses(e: Expr, c: Caveat) {
    match e
    case Leaf(d) => c == d
    case Operation(_, children) => exists i | 0 <= i < |children| :: Uses(children[i], c)
  }

  ghost predicate Apart(children: seq<Expr>) {
    forall i, j, c | 0 <= i < j < |children| :: !(Uses(children[i], c) && Uses(children[j], c))
  }

  ghost predicate UsesOnce(e: Expr) {
    e.Operation? ==> Apart(e.children) && forall i | 0 <= i < |e.children| :: UsesOnce(e.children[i])
  }

  lemma {:induction false} EvalLocal(e: Expr, a: Assignment, b: Assignment)
    requires forall c | Uses(e, c) :: c in a <==> c in b
    ensures Eval(e, a) <==> Eval(e, b)
  {
    if e.Operation? {
      forall i | 0 <= i < |e.children| ensures Eval(e.children[i], a) <==> Eval(e.children[i], b) {
        EvalLocal(e.children[i], a, b);
      }
    }
  }

  /** `b` completes the leaves and differs from `a` only on caveats that `e` uses. */
  ghost predicate ChangesOnly(e: Expr, leaves: Caveat -> Outcome, a: Assignment, b: Assignment) {
    Completes(b, leaves) && forall c | !Uses(e, c) :: c in a <==> c in b
  }

  /** A partial expression can be completed to either value. */
  lemma {:induction false} EitherValue(e: Expr, leaves: Caveat -> Outcome, a: Assignment, value: bool)
    returns (b: Assignment)
    requires UsesOnce(e) && Completes(a, leaves) && Kleene(e, leaves).Partial?
    ensures ChangesOnly(e, leaves, a, b) && (Eval(e, b) <==> value)
    decreases e, 1
  {
    match e
    case Leaf(c) => b := if value then a + iset{c} else a - iset{c};
    case Operation(op, children) =>
      var outcomes := Outcomes(children, leaves);
      if op == NOT {
        b := EitherValue(children[0], leaves, a, !value);
      } else {
        var i :| 0 <= i < |outcomes| && outcomes[i].Partial?;
        if value == (op == OR) {
          b := EitherValue(children[i], leaves, a, value);
          assert Eval(children[i], b) <==> value;
        } else {
          b := EveryChild(e, leaves, a, value, |children|);
          assert forall j | 0 <= j < |children| :: Eval(children[j], b) <==> value;
          assert Eval(children[i], b) <==> value;
        }
      }
  }

  /** Completes the first `n` children, one after another, to the value that is not decisive. */
  lemma {:induction false} EveryChild(e: Expr, leaves: Caveat -> Outcome, a: Assignment, value: bool, n: nat)
    returns (b: Assignment)
    requires UsesOnce(e) && Completes(a, leaves)
    requires e.Operation? && n <= |e.children| && Known(!value) !in Outcomes(e.children, leaves)
    ensures ChangesOnly(e, leaves, a, b)
    ensures forall j | 0 <= j < n :: Eval(e.children[j], b) <==> value
    decreases e, 0, n
  {
    if n == 0 {
      return a;
    }
    var before := EveryChild(e, leaves, a, value, n - 1);
    var child := e.children[n - 1];
    var outcome := Outcomes(e.children, leaves)[n - 1];
    assert outcome in Outcomes(e.children, leaves);
    if outcome.Known? {
      b := before;
      DeterminedIsClassical(child, leaves, b);
    } else {
      b := EitherValue(child, leaves, before, value);
      forall j | 0 <= j < n - 1 ensures Eval(e.children[j], b) <==> value {
        EvalLocal(e.children[j], before, b);
      }
    }
  }

  /** When no caveat is used twice, a result is determined exactly when all completions agree. */
  lemma PartialIffUndetermined(e: Expr, leaves: Caveat -> Outcome, a: Assignment)
    requires UsesOnce(e) && Completes(a, leaves)
    ensures Kleene(e, leaves).Known? <==> forall b | Completes(b, leaves) :: Eval(e, a) <==> Eval(e, b)
  {
    if Kleene(e, leaves).Known? {
      forall b | Completes(b, leaves) ensures Eval(e, a) <==> Eval(e, b) {
        DeterminedIsClassical(e, leaves, a);
        DeterminedIsClassical(e, leaves, b);
      }
    } else {
      var b := EitherValue(e, leaves, a, !Eval(e, a));
    }
  }

  /** With a caveat used twice a result can be partial although every completion gives it the
      same value. */
  lemma TwiceUsedStaysPartial(c: Caveat, missing: set<string>, a: Assignment)
    ensures var e := Operation(OR, [Leaf(c), Operation(NOT, [Leaf(c)])]);
            Kleene(e, _ => Partial(missing)) == Partial(missing) && Eval(e, a)
  {
    var leaves := _ => Partial(missing);
    var children := [Leaf(c), Operation(NOT, [Leaf(c)])];
    var outcomes := Outcomes(children, leaves);
    assert outcomes[0] == Partial(missing) && outcomes[0] in outcomes;
    assert outcomes[1] == Partial(missing);
    assert Missing(outcomes) == missing;
    assert Eval(children[0], a) || Eval(children[1], a);
  }
}
