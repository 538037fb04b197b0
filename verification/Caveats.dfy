/** Caveat expressions: the boolean conditions attached to relationships, subjects and
    check results, and the combinators that build them.

    A missing expression (nil in the program) means "unconditionally", so a
    condition is `Always` or `When(expr)`. Every combinator treats the missing operand in
    its own way; the contracts say what each one means under every assignment of truth
    values to the caveats. */
module Caveats {
  import opened Common

  /** A caveat written on a relationship: its name together with the context stored beside it. */
  datatype Caveat = Caveat(name: string, context: map<string, string>)

  datatype Operator = UNKNOWN | OR | AND | NOT

  datatype Expr =
    | Leaf(caveat: Caveat)
    | Operation(op: Operator, children: seq<Expr>)

  datatype Condition = Always | When(expr: Expr)

  /** The caveats that are true; all others are false. */
  type Assignment = iset<Caveat>

  ghost predicate Eval(e: Expr, a: Assignment) {
    match e
    case Leaf(c) => c in a
    case Operation(AND, children) => forall i | 0 <= i < |children| :: Eval(children[i], a)
    case Operation(OR, children) => exists i | 0 <= i < |children| :: Eval(children[i], a)
    case Operation(NOT, children) => |children| > 0 && !Eval(children[0], a)
    case Operation(UNKNOWN, _) => false
  }

  ghost predicate Holds(c: Condition, a: Assignment) {
    c.When? ==> Eval(c.expr, a)
  }

  lemma EvalBinary(x: Expr, y: Expr, a: Assignment)
    ensures Eval(Operation(AND, [x, y]), a) <==> Eval(x, a) && Eval(y, a)
    ensures Eval(Operation(OR, [x, y]), a) <==> Eval(x, a) || Eval(y, a)
  {
    var children := [x, y];
    assert children[0] == x && children[1] == y;
    assert Eval(Operation(AND, children), a) ==> Eval(children[0], a) && Eval(children[1], a);
    assert Eval(children[0], a) || Eval(children[1], a) ==> Eval(Operation(OR, children), a);
  }

  /** A caveat as written on a relationship, wrapped as a condition. */
  function CaveatAsExpr(caveat: Option<Caveat>): (r: Condition)
    ensures r.Always? <==> caveat.None?
    ensures forall a: Assignment :: Holds(r, a) <==> (caveat.None? || caveat.value in a)
  {
    match caveat
    case None => Always
    case Some(c) => When(Leaf(c))
  }

  function And(first: Condition, second: Condition): (r: Condition)
    ensures r.Always? <==> first.Always? && second.Always?
    ensures forall a: Assignment :: Holds(r, a) <==> Holds(first, a) && Holds(second, a)
  {
    if first.Always? then second
    else if second.Always? then first
    else if first.expr == second.expr then first
    else
      assert forall a: Assignment ::
          Eval(Operation(AND, [first.expr, second.expr]), a) <==> Eval(first.expr, a) && Eval(second.expr, a) by {
        forall a: Assignment { EvalBinary(first.expr, second.expr, a); }
      }
      When(Operation(AND, [first.expr, second.expr]))
  }

  /** A missing operand is dropped, so here "no expression" stands for false. */
  function Or(first: Condition, second: Condition): (r: Condition)
    ensures r.Always? <==> first.Always? && second.Always?
    ensures forall a: Assignment :: Holds(r, a) <==>
        if first.When? && second.When? then Holds(first, a) || Holds(second, a)
        else Holds(first, a) && Holds(second, a)
  {
    if first.Always? then second
    else if second.Always? then first
    else if first.expr == second.expr then first
    else
      assert forall a: Assignment ::
          Eval(Operation(OR, [first.expr, second.expr]), a) <==> Eval(first.expr, a) || Eval(second.expr, a) by {
        forall a: Assignment { EvalBinary(first.expr, second.expr, a); }
      }
      When(Operation(OR, [first.expr, second.expr]))
  }

  function ShortcircuitedOr(first: Condition, second: Condition): (r: Condition)
    ensures r.Always? <==> first.Always? || second.Always?
    ensures forall a: Assignment :: Holds(r, a) <==> Holds(first, a) || Holds(second, a)
  {
    if first.Always? || second.Always? then Always else Or(first, second)
  }

  /** The inversion of "always" is "always", so callers must treat that case themselves. */
  function Invert(c: Condition): (r: Condition)
    ensures r.Always? <==> c.Always?
    ensures forall a: Assignment :: Holds(r, a) <==> (c.When? ==> !Holds(c, a))
  {
    if c.Always? then Always else When(Operation(NOT, [c.expr]))
  }

  function Subtract(c: Condition, subtracted: Condition): (r: Condition)
    ensures r.Always? <==> c.Always? && subtracted.Always?
    ensures forall a: Assignment :: Holds(r, a) <==> Holds(c, a) && (subtracted.When? ==> !Holds(subtracted, a))
  {
    var inversion := Invert(subtracted);
    if c.Always? then inversion
    else if subtracted.Always? then c
    else
      assert forall a: Assignment ::
          Eval(Operation(AND, [c.expr, inversion.expr]), a) <==> Eval(c.expr, a) && Eval(inversion.expr, a) by {
        forall a: Assignment { EvalBinary(c.expr, inversion.expr, a); }
      }
      When(Operation(AND, [c.expr, inversion.expr]))
  }
}
