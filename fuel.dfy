/**
 * The fuel bound only cuts evaluation short: an evaluation that finishes
 * with some fuel finishes with the same value and state given any more.
 * So every finished evaluation has one outcome, the one the unbounded
 * interpreter produces, and `None` only ever means "not finished yet".
 */
module Fuel {
  import opened Wrappers
  import opened Ast
  import opened Symbols
  import opened Semantics

  /** Evaluation that finishes with `fuel` gives the same outcome with any `fuel'` >= `fuel`. */
  lemma {:induction false} EvalMoreFuel(lib: Libm, e: Expr, st: State, fuel: nat, fuel': nat)
    requires fuel <= fuel' && Eval(lib, e, st, fuel).Some?
    ensures Eval(lib, e, st, fuel') == Eval(lib, e, st, fuel)
    decreases fuel, Size(e), 2
  {
    match e
    case Num(_) =>
    case Ref(_) =>
    case Assign(_, rhs) =>
      EvalMoreFuel(lib, rhs, st, fuel, fuel');
    case Bin(_, l, r) =>
      EvalMoreFuel(lib, l, st, fuel, fuel');
      EvalMoreFuel(lib, r, Eval(lib, l, st, fuel).value.1, fuel, fuel');
    case Un(_, x) =>
      EvalMoreFuel(lib, x, st, fuel, fuel');
    case BuiltinCall(_, x) =>
      EvalMoreFuel(lib, x, st, fuel, fuel');
    case Call(f, args) =>
      CallMoreFuel(lib, f, args, st, fuel, fuel');
    case If(c, t, el) =>
      EvalMoreFuel(lib, c, st, fuel, fuel');
      var a := Eval(lib, c, st, fuel).value;
      BranchMoreFuel(lib, if a.0 != 0.0 then t else el, a.1, fuel, fuel');
    case While(c, b) =>
      if b.Some? {
        assert OptSize(b) == Size(b.value);
        LoopMoreFuel(lib, c, b.value, 0.0, st, fuel, fuel');
      }
  }

  lemma {:induction false} BranchMoreFuel(lib: Libm, b: Option<Expr>, st: State, fuel: nat, fuel': nat)
    requires fuel <= fuel' && EvalBranch(lib, b, st, fuel).Some?
    ensures EvalBranch(lib, b, st, fuel') == EvalBranch(lib, b, st, fuel)
    decreases fuel, OptSize(b), 3
  {
    if b.Some? {
      EvalMoreFuel(lib, b.value, st, fuel, fuel');
    }
  }

  lemma {:induction false} LoopMoreFuel(lib: Libm, c: Expr, b: Expr, v: real, st: State, fuel: nat, fuel': nat)
    requires fuel <= fuel' && EvalLoop(lib, c, b, v, st, fuel).Some?
    ensures EvalLoop(lib, c, b, v, st, fuel') == EvalLoop(lib, c, b, v, st, fuel)
    decreases fuel, Size(c) + Size(b) + 1, 1
  {
    EvalMoreFuel(lib, c, st, fuel, fuel');
    var a := Eval(lib, c, st, fuel).value;
    if a.0 != 0.0 {
      EvalMoreFuel(lib, b, a.1, fuel, fuel');
      var w := Eval(lib, b, a.1, fuel).value;
      LoopMoreFuel(lib, c, b, w.0, w.1, fuel - 1, fuel' - 1);
    }
  }

  lemma {:induction false} ArgsMoreFuel(lib: Libm, cursor: Option<Expr>, n: nat, st: State, fuel: nat, fuel': nat)
    requires fuel <= fuel' && EvalArgs(lib, cursor, n, st, fuel).Some?
    ensures EvalArgs(lib, cursor, n, st, fuel') == EvalArgs(lib, cursor, n, st, fuel)
    decreases fuel, OptSize(cursor), 4
  {
    if n > 0 && cursor.Some? {
      var x := cursor.value;
      assert OptSize(cursor) == Size(x);
      if NodeType(x) == 'L' {
        EvalMoreFuel(lib, x.l, st, fuel, fuel');
        ArgsMoreFuel(lib, Some(x.r), n - 1, Eval(lib, x.l, st, fuel).value.1, fuel, fuel');
      } else {
        EvalMoreFuel(lib, x, st, fuel, fuel');
      }
    }
  }

  lemma {:induction false} CallMoreFuel(lib: Libm, f: SymId, args: Expr, st: State, fuel: nat, fuel': nat)
    requires fuel <= fuel' && EvalCall(lib, f, args, st, fuel).Some?
    ensures EvalCall(lib, f, args, st, fuel') == EvalCall(lib, f, args, st, fuel)
    decreases fuel, Size(args) + 1, 1
  {
    var sym := st.syms[f];
    if sym.func.Some? {
      ArgsMoreFuel(lib, Some(args), |sym.params|, st, fuel, fuel');
      var a := EvalArgs(lib, Some(args), |sym.params|, st, fuel).value;
      if |a.vals| == |sym.params| {
        InvokeMoreFuel(lib, sym.func.value, sym.params, a, fuel, fuel');
      }
    }
  }

  lemma {:induction false} InvokeMoreFuel(lib: Libm, body: Expr, ps: seq<SymId>, a: Args, fuel: nat, fuel': nat)
    requires |ps| == |a.vals| && ParamsExist(a.st.syms, ps)
    requires fuel <= fuel' && Invoke(lib, body, ps, a, fuel).Some?
    ensures Invoke(lib, body, ps, a, fuel') == Invoke(lib, body, ps, a, fuel)
    decreases fuel, 0, 0
  {
    var bound := a.st.(syms := Overwrite(a.st.syms, ps, a.vals));
    EvalMoreFuel(lib, body, bound, fuel - 1, fuel' - 1);
  }

  /** Any two fuel bounds under which evaluation finishes give the same value and state. */
  lemma EvalDeterministic(lib: Libm, e: Expr, st: State, fuel1: nat, fuel2: nat)
    requires Eval(lib, e, st, fuel1).Some? && Eval(lib, e, st, fuel2).Some?
    ensures Eval(lib, e, st, fuel1) == Eval(lib, e, st, fuel2)
  {
    if fuel1 <= fuel2 {
      EvalMoreFuel(lib, e, st, fuel1, fuel2);
    } else {
      EvalMoreFuel(lib, e, st, fuel2, fuel1);
    }
  }
}
