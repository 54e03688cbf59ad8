/**
 * The interpreter's `eval` methods, one per node class, working in place on
 * the symbol table and the output, each proved to do what the reference
 * semantics says.
 *
 * The interpreter's evaluation has no bound; here every method takes the same
 * fuel as the reference and gives `None` where the reference runs out.
 */
module Evaluator {
  import opened Wrappers
  import opened Ast
  import opened Symbols
  import opened Semantics

  /** The values `print` has written, in order. */
  class Output {
    var lines: seq<real>

    constructor ()
      ensures lines == []
    {
      lines := [];
    }
  }

  /** The interpreter's state as the reference semantics sees it. */
  function Snap(t: Table, o: Output): State
    reads t, o
  {
    State(t.symbols, o.lines)
  }

  /** The method's outcome `r`, with the state `now` it left, is the one the reference gives. */
  predicate Agrees(expected: Option<(real, State)>, r: Option<real>, now: State) {
    match r
    case None => expected.None?
    case Some(v) => expected == Some((v, now))
  }

  /** The argument values `vs`, collected so far, ahead of those the rest of the walk gives. */
  function Prepend(vs: seq<real>, rest: Option<Args>): Option<Args> {
    match rest
    case None => None
    case Some(a) => Some(Args(vs + a.vals, a.st))
  }

  /**
   * ast::eval: dispatch on the node class; numval and symref are answered
   * here. A symbol outside the table stops evaluation, as in the reference.
   */
  method Evaluate(lib: Libm, t: Table, o: Output, e: Expr, fuel: nat) returns (r: Option<real>)
    modifies t, o
    ensures SameDefs(old(t.symbols), t.symbols)
    ensures Agrees(Eval(lib, e, old(Snap(t, o)), fuel), r, Snap(t, o))
    ensures t.Valid() <==> old(t.Valid())
    decreases fuel, Size(e), 2
  {
    match e {
      case Num(x) => r := Some(x);
      case Ref(s) => r := if s < |t.symbols| then Some(t.symbols[s].value) else None;
      case Assign(_, _) => r := EvalSymasgn(lib, t, o, e, fuel);
      case Bin(_, _, _) => r := EvalBinop(lib, t, o, e, fuel);
      case Un(_, _) => r := EvalUnop(lib, t, o, e, fuel);
      case BuiltinCall(_, _) => r := EvalFncall(lib, t, o, e, fuel);
      case Call(_, _) => r := EvalUfncall(lib, t, o, e, fuel);
      case If(_, _, _) => r := EvalFlow(lib, t, o, e, fuel);
      case While(_, _) => r := EvalFlow(lib, t, o, e, fuel);
    }
    SameDefsAt(old(t.symbols), t.symbols);
  }

  /**
   * symasgn::eval: evaluate the right-hand side and store its value in the
   * symbol (a symbol outside the table stops evaluation).
   */
  method EvalSymasgn(lib: Libm, t: Table, o: Output, e: Expr, fuel: nat) returns (r: Option<real>)
    requires e.Assign?
    modifies t, o
    ensures SameDefs(old(t.symbols), t.symbols)
    ensures Agrees(Eval(lib, e, old(Snap(t, o)), fuel), r, Snap(t, o))
    decreases fuel, Size(e), 1
  {
    var v := Evaluate(lib, t, o, e.rhs, fuel);
    if v.None? || e.sym >= |t.symbols| {
      return None;
    }
    t.Store(e.sym, v.value);
    r := v;
  }

  /** binop::eval: both operands, left first, then the operator; 'L' keeps only the right value. */
  method EvalBinop(lib: Libm, t: Table, o: Output, e: Expr, fuel: nat) returns (r: Option<real>)
    requires e.Bin?
    modifies t, o
    ensures SameDefs(old(t.symbols), t.symbols)
    ensures Agrees(Eval(lib, e, old(Snap(t, o)), fuel), r, Snap(t, o))
    decreases fuel, Size(e), 1
  {
    ghost var st0 := Snap(t, o);
    var a := Evaluate(lib, t, o, e.l, fuel);
    if a.None? {
      return None;
    }
    ghost var st1 := Snap(t, o);
    var b := Evaluate(lib, t, o, e.r, fuel);
    if b.None? {
      return None;
    }
    var x, y := a.value, b.value;
    assert Eval(lib, e, st0, fuel) == Some((if e.op == Seq then y else ApplyBin(lib, e.op, x, y), Snap(t, o)));
    var v: real;
    match e.op {
      case Add => v := x + y;
      case Sub => v := x - y;
      case Mul => v := x * y;
      case Div => v := Divide(lib, x, y);
      case Seq => v := y;
      case Gt => v := if x > y then 1.0 else 0.0;
      case Lt => v := if x < y then 1.0 else 0.0;
      case Ne => v := if x != y then 1.0 else 0.0;
      case Eq => v := if x == y then 1.0 else 0.0;
      case Ge => v := if x >= y then 1.0 else 0.0;
      case Le => v := if x <= y then 1.0 else 0.0;
    }
    assert v == if e.op == Seq then y else ApplyBin(lib, e.op, x, y);
    r := Some(v);
  }

  /** unop::eval: fabs or negation of the operand. */
  method EvalUnop(lib: Libm, t: Table, o: Output, e: Expr, fuel: nat) returns (r: Option<real>)
    requires e.Un?
    modifies t, o
    ensures SameDefs(old(t.symbols), t.symbols)
    ensures Agrees(Eval(lib, e, old(Snap(t, o)), fuel), r, Snap(t, o))
    decreases fuel, Size(e), 1
  {
    var a := Evaluate(lib, t, o, e.operand, fuel);
    if a.None? {
      return None;
    }
    var x := a.value;
    match e.uop
    case Abs => r := Some(if x < 0.0 then -x else x);
    case Neg => r := Some(-x);
  }

  /** fncall::eval: a library function of the argument, or `print`, which writes it and passes it on. */
  method EvalFncall(lib: Libm, t: Table, o: Output, e: Expr, fuel: nat) returns (r: Option<real>)
    requires e.BuiltinCall?
    modifies t, o
    ensures SameDefs(old(t.symbols), t.symbols)
    ensures Agrees(Eval(lib, e, old(Snap(t, o)), fuel), r, Snap(t, o))
    decreases fuel, Size(e), 1
  {
    var a := Evaluate(lib, t, o, e.arg, fuel);
    if a.None? {
      return None;
    }
    var v := a.value;
    match e.fn
    case Sqrt => r := Some(lib.sqrt(v));
    case Exp => r := Some(lib.exp(v));
    case Log => r := Some(lib.log(v));
    case Print =>
      o.lines := o.lines + [v];
      r := Some(v);
  }

  /**
   * flow::eval. 'I': evaluate the condition, then the branch it selects, if
   * present. 'W': with a body, evaluate the body for as long as the condition
   * is non-zero; the result is the last body value, or 0.0.
   */
  method EvalFlow(lib: Libm, t: Table, o: Output, e: Expr, fuel: nat) returns (r: Option<real>)
    requires (e.If? || e.While?)
    modifies t, o
    ensures SameDefs(old(t.symbols), t.symbols)
    ensures Agrees(Eval(lib, e, old(Snap(t, o)), fuel), r, Snap(t, o))
    decreases fuel, Size(e), 1
  {
    ghost var st0 := Snap(t, o);
    if e.If? {
      var c := Evaluate(lib, t, o, e.cond, fuel);
      if c.None? {
        return None;
      }
      var branch := if c.value != 0.0 then e.thn else e.els;
      assert OptSize(branch) < Size(e);
      if branch.Some? {
        r := Evaluate(lib, t, o, branch.value, fuel);
      } else {
        r := Some(0.0);
      }
    } else {
      if e.body.None? {
        return Some(0.0);
      }
      var c, b := e.cond, e.body.value;
      assert OptSize(e.body) == Size(b) < Size(e);
      var v := 0.0;
      var f: nat := fuel;
      while true
        invariant f <= fuel
        invariant EvalLoop(lib, c, b, v, Snap(t, o), f) == Eval(lib, e, st0, fuel)
        invariant SameDefs(st0.syms, t.symbols)
        decreases f
      {
        var test := Evaluate(lib, t, o, c, f);
        if test.None? {
          return None;
        }
        if test.value == 0.0 {
          return Some(v);
        }
        var w := Evaluate(lib, t, o, b, f);
        if w.None? || f == 0 {
          return None;
        }
        v, f := w.value, f - 1;
      }
    }
  }

  /**
   * ufncall::eval. An undefined function gives 0.0 at once. Otherwise walk
   * the argument chain, evaluating exactly as many arguments as there are
   * parameters into `newval` (too few gives 0.0 before anything is bound);
   * then save each parameter's value in `oldval` and assign its argument;
   * evaluate the body; and write the saved values back in the same order.
   */
  method EvalUfncall(lib: Libm, t: Table, o: Output, e: Expr, fuel: nat) returns (r: Option<real>)
    requires e.Call?
    modifies t, o
    ensures SameDefs(old(t.symbols), t.symbols)
    ensures Agrees(Eval(lib, e, old(Snap(t, o)), fuel), r, Snap(t, o))
    decreases fuel, Size(e), 1
  {
    ghost var st0 := Snap(t, o);
    assert Eval(lib, e, st0, fuel) == EvalCall(lib, e.callee, e.args, st0, fuel);
    // a callee or a parameter outside the table stops evaluation, as in the reference
    if e.callee >= |t.symbols| {
      return None;
    }
    var sym := t.symbols[e.callee];
    if sym.func.None? {
      return Some(0.0);
    }
    var ps := sym.params;
    if !ParamsExist(t.symbols, ps) {
      return None;
    }
    var nargs := |ps|;
    var oldval := new real[nargs];
    var newval := new real[nargs];

    // evaluate the arguments; fewer than nargs means too few were given
    var got := EvalArguments(lib, t, o, e.args, newval, fuel);
    if got.None? {
      CallArgsFail(lib, e.callee, e.args, st0, fuel);
      return None;
    }
    ghost var a := Args(newval[..got.value], Snap(t, o));
    if got.value < nargs {
      CallTooFewArgs(lib, e.callee, e.args, st0, fuel, a);
      return Some(0.0);
    }
    assert newval[..got.value] == newval[..];

    // bind, run the body, put the parameters back
    r := BindAndRun(lib, t, o, sym.func.value, ps, newval, oldval, fuel);
  }

  /**
   * The rest of ufncall::eval once the arguments are in `newval`: save each
   * parameter's value in `oldval` and assign it its argument, evaluate the
   * body, and write the saved values back in the same order.
   */
  method BindAndRun(lib: Libm, t: Table, o: Output, body: Expr, ps: seq<SymId>, newval: array<real>, oldval: array<real>, fuel: nat)
    returns (r: Option<real>)
    requires ParamsExist(t.symbols, ps)
    requires newval.Length == |ps| && oldval.Length == |ps| && newval != oldval
    modifies t, o, oldval
    ensures SameDefs(old(t.symbols), t.symbols)
    ensures Agrees(Invoke(lib, body, ps, Args(newval[..], old(Snap(t, o))), fuel), r, Snap(t, o))
    decreases fuel, 0, 0
  {
    if fuel == 0 {
      return None;
    }
    ghost var a := Args(newval[..], Snap(t, o));

    // save the old values of the parameters, assign the new ones
    SaveAndAssign(t, ps, newval, oldval);
    ghost var bound := Snap(t, o);
    assert bound == a.st.(syms := Overwrite(a.st.syms, ps, a.vals));

    // evaluate the function
    var v := Evaluate(lib, t, o, body, fuel - 1);
    if v.None? {
      return None;
    }
    ghost var res := (v.value, Snap(t, o));
    assert Eval(lib, body, bound, fuel - 1) == Some(res);

    // put the parameters back
    PutBack(t, ps, oldval);
    assert oldval[..] == SaveValues(a.st.syms, ps, a.vals);
    r := v;
  }

  /** The reference call when evaluating the arguments runs out of fuel. */
  lemma CallArgsFail(lib: Libm, f: SymId, args: Expr, st: State, fuel: nat)
    requires f < |st.syms| && st.syms[f].func.Some? && ParamsExist(st.syms, st.syms[f].params)
    requires EvalArgs(lib, Some(args), |st.syms[f].params|, st, fuel).None?
    ensures EvalCall(lib, f, args, st, fuel).None?
  {
  }

  /** The reference call when the argument chain is shorter than the parameter list. */
  lemma CallTooFewArgs(lib: Libm, f: SymId, args: Expr, st: State, fuel: nat, a: Args)
    requires f < |st.syms| && st.syms[f].func.Some? && ParamsExist(st.syms, st.syms[f].params)
    requires EvalArgs(lib, Some(args), |st.syms[f].params|, st, fuel) == Some(a)
    requires |a.vals| < |st.syms[f].params|
    ensures EvalCall(lib, f, args, st, fuel) == Some((0.0, a.st))
  {
  }

  /**
   * The first loop of ufncall::eval: walk the argument chain from `args`,
   * evaluating at most `newval.Length` arguments into `newval`, in order. An
   * 'L' node gives its left child as the next argument; any other node is the
   * last one. Gives how many were evaluated: fewer than wanted when the chain
   * ran out first.
   */
  method EvalArguments(lib: Libm, t: Table, o: Output, args: Expr, newval: array<real>, fuel: nat) returns (r: Option<nat>)
    modifies t, o, newval
    ensures SameDefs(old(t.symbols), t.symbols)
    ensures r.None? ==> EvalArgs(lib, Some(args), newval.Length, old(Snap(t, o)), fuel).None?
    ensures r.Some? ==>
      && r.value <= newval.Length
      && EvalArgs(lib, Some(args), newval.Length, old(Snap(t, o)), fuel) == Some(Args(newval[..r.value], Snap(t, o)))
    decreases fuel, Size(args) + 1, 0
  {
    ghost var total := EvalArgs(lib, Some(args), newval.Length, Snap(t, o), fuel);
    var nargs := newval.Length;
    var cursor: Option<Expr> := Some(args);
    var i := 0;
    ghost var left := nargs;
    PrependNothing(total);
    while i < nargs && cursor.Some?
      invariant 0 <= i <= nargs && left == nargs - i && OptSize(cursor) <= Size(args)
      invariant total == Prepend(newval[..i], EvalArgs(lib, cursor, left, Snap(t, o), fuel))
      invariant SameDefs(old(t.symbols), t.symbols)
    {
      var v, next;
      v, next, left := NextArgument(lib, t, o, cursor.value, newval, i, left, total, fuel);
      if v.None? {
        return None;
      }
      cursor := next;
      i := i + 1;
    }
    WalkEnds(lib, cursor, left, Snap(t, o), fuel);
    PrependStop(newval[..i], Snap(t, o));
    r := Some(i);
  }

  /** A walk with no argument wanted, or no node left, collects nothing. */
  lemma WalkEnds(lib: Libm, cursor: Option<Expr>, n: nat, st: State, fuel: nat)
    requires n == 0 || cursor.None?
    ensures EvalArgs(lib, cursor, n, st, fuel) == Some(Args([], st))
  {
  }

  /**
   * One step of the argument walk at the node `x`, with `n` > 0 arguments
   * still wanted: an 'L' node gives its left child as the argument and the
   * walk goes on at its right child; any other node is itself the last
   * argument.
   */
  method NextArgument(lib: Libm, t: Table, o: Output, x: Expr, newval: array<real>, i: nat, ghost n: nat, ghost total: Option<Args>, fuel: nat)
    returns (v: Option<real>, next: Option<Expr>, ghost n': nat)
    requires n > 0 && i < newval.Length
    requires total == Prepend(newval[..i], EvalArgs(lib, Some(x), n, Snap(t, o), fuel))
    modifies t, o, newval
    ensures SameDefs(old(t.symbols), t.symbols)
    ensures v.None? ==> total.None?
    ensures v.Some? ==>
      && OptSize(next) < Size(x) && n' == n - 1
      && total == Prepend(newval[..i + 1], EvalArgs(lib, next, n', Snap(t, o), fuel))
    decreases fuel, Size(x), 3
  {
    ghost var st := Snap(t, o);
    ghost var done := newval[..i];
    var arg := if NodeType(x) == 'L' then x.l else x;
    v := Evaluate(lib, t, o, arg, fuel);
    next := if NodeType(x) == 'L' then Some(x.r) else None;
    n' := n - 1;
    if v.Some? {
      ArgStep(lib, x, n, st, fuel, v.value, Snap(t, o));
      PrependTwice(done, v.value, EvalArgs(lib, next, n', Snap(t, o), fuel));
      newval[i] := v.value;
      assert newval[..i + 1] == done + [v.value];
    } else {
      ArgStepFails(lib, x, n, st, fuel);
    }
  }

  /** Collecting `vs` and then `v` is collecting `vs + [v]`. */
  lemma PrependTwice(vs: seq<real>, v: real, rest: Option<Args>)
    ensures Prepend(vs, Prepend([v], rest)) == Prepend(vs + [v], rest)
  {
    if rest.Some? {
      assert vs + ([v] + rest.value.vals) == (vs + [v]) + rest.value.vals;
    }
  }

  /** Nothing collected yet: the walk is all that is left. */
  lemma PrependNothing(rest: Option<Args>)
    ensures Prepend([], rest) == rest
  {
    if rest.Some? {
      assert [] + rest.value.vals == rest.value.vals;
    }
  }

  /** The walk has stopped at state `st`: what was collected is all there is. */
  lemma PrependStop(vs: seq<real>, st: State)
    ensures Prepend(vs, Some(Args([], st))) == Some(Args(vs, st))
  {
    assert vs + [] == vs;
  }

  /**
   * One step of the argument walk from the node `x` with `n` > 0 arguments
   * still wanted, once the argument it gives has been evaluated to `v` in
   * state `st1`: `v` joins the values collected so far, and the walk goes on
   * from the next node with one argument fewer.
   */
  lemma ArgStep(lib: Libm, x: Expr, n: nat, st: State, fuel: nat, v: real, st1: State)
    requires n > 0
    requires Eval(lib, if NodeType(x) == 'L' then x.l else x, st, fuel) == Some((v, st1))
    ensures var next := if NodeType(x) == 'L' then Some(x.r) else None;
      && OptSize(next) < Size(x)
      && EvalArgs(lib, Some(x), n, st, fuel) == Prepend([v], EvalArgs(lib, next, n - 1, st1, fuel))
  {
    if NodeType(x) != 'L' {
      assert [v] + [] == [v];
    }
  }

  /** A step whose argument runs out of fuel ends the walk the same way. */
  lemma ArgStepFails(lib: Libm, x: Expr, n: nat, st: State, fuel: nat)
    requires n > 0
    requires Eval(lib, if NodeType(x) == 'L' then x.l else x, st, fuel).None?
    ensures EvalArgs(lib, Some(x), n, st, fuel).None?
  {
  }

  /** One more parameter bound: the binding and the saved values each grow by one step. */
  lemma OverwriteStep(syms: seq<Symbol>, ps: seq<SymId>, xs: seq<real>, i: nat)
    requires |ps| == |xs| && ParamsExist(syms, ps) && i < |ps|
    ensures ParamsExist(syms, ps[..i]) && ParamsExist(syms, ps[..i + 1])
    ensures Overwrite(syms, ps[..i + 1], xs[..i + 1]) == SetValue(Overwrite(syms, ps[..i], xs[..i]), ps[i], xs[i])
    ensures SaveValues(syms, ps[..i + 1], xs[..i + 1])
         == SaveValues(syms, ps[..i], xs[..i]) + [Overwrite(syms, ps[..i], xs[..i])[ps[i]].value]
  {
    assert ps[..i + 1][..i] == ps[..i] && xs[..i + 1][..i] == xs[..i];
  }

  /**
   * The second loop of ufncall::eval: for each parameter in order, save its
   * value in `oldval` and assign it the argument value from `newval`.
   */
  method SaveAndAssign(t: Table, ps: seq<SymId>, newval: array<real>, oldval: array<real>)
    requires ParamsExist(t.symbols, ps)
    requires newval.Length == |ps| && oldval.Length == |ps| && newval != oldval
    modifies t, oldval
    ensures t.symbols == Overwrite(old(t.symbols), ps, newval[..])
    ensures oldval[..] == SaveValues(old(t.symbols), ps, newval[..])
  {
    ghost var syms := t.symbols;
    ghost var xs := newval[..];
    var i := 0;
    while i < |ps|
      invariant 0 <= i <= |ps| && newval[..] == xs
      invariant ParamsExist(syms, ps[..i])
      invariant t.symbols == Overwrite(syms, ps[..i], xs[..i])
      invariant oldval[..i] == SaveValues(syms, ps[..i], xs[..i])
    {
      OverwriteStep(syms, ps, xs, i);
      oldval[i] := t.symbols[ps[i]].value;
      assert oldval[..i + 1] == oldval[..i] + [oldval[i]];
      t.Store(ps[i], newval[i]);
      i := i + 1;
    }
    assert ps[..i] == ps && xs[..i] == xs && oldval[..i] == oldval[..];
  }

  /** The last loop of ufncall::eval: write the saved values back, in the same order. */
  method PutBack(t: Table, ps: seq<SymId>, oldval: array<real>)
    requires ParamsExist(t.symbols, ps) && oldval.Length == |ps|
    modifies t
    ensures t.symbols == Overwrite(old(t.symbols), ps, oldval[..])
  {
    ghost var syms := t.symbols;
    var i := 0;
    while i < |ps|
      invariant 0 <= i <= |ps| && ParamsExist(syms, ps[..i])
      invariant t.symbols == Overwrite(syms, ps[..i], oldval[..i])
    {
      OverwriteStep(syms, ps, oldval[..], i);
      assert oldval[..][..i] == oldval[..i] && oldval[..][..i + 1] == oldval[..i + 1];
      t.Store(ps[i], oldval[i]);
      i := i + 1;
    }
    assert ps[..i] == ps && oldval[..i] == oldval[..];
  }
}
