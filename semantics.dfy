/**
 * What evaluating a tree means, as functions: the reference the imperative
 * evaluator is proved against.
 *
 * Evaluation may run forever (a `while` whose condition stays non-zero, a
 * user function that calls itself without end), so it takes a fuel bound:
 * every loop iteration and every user-function body entered costs one unit,
 * and `None` means the fuel ran out before evaluation finished.
 */
module Semantics {
  import opened Wrappers
  import opened Ast
  import opened Symbols

  /**
   * The floating-point behaviour the model leaves uninterpreted: the library
   * functions the builtins call, and what dividing `x` by zero gives (an IEEE
   * infinity or NaN).
   */
  datatype Libm = Libm(sqrt: real -> real, exp: real -> real, log: real -> real, divZero: real -> real)

  /** Everything evaluation can change: the symbol table and the values `print` has written. */
  datatype State = State(syms: seq<Symbol>, out: seq<real>)

  /** The argument values collected by the argument walk, and the state after evaluating them. */
  datatype Args = Args(vals: seq<real>, st: State)

  /** Division; a zero divisor gives the uninterpreted `lib.divZero(x)`. */
  function Divide(lib: Libm, x: real, y: real): (q: real)
    ensures y != 0.0 ==> q * y == x
  {
    if y == 0.0 then lib.divZero(x) else x / y
  }

  /** binop::eval once both operands are known; `Seq` is handled by the evaluator itself. */
  function ApplyBin(lib: Libm, op: BinOp, a: real, b: real): (v: real)
    requires op != Seq
    ensures op.IsComparison() ==> v == 1.0 || v == 0.0
  {
    match op
    case Add => a + b
    case Sub => a - b
    case Mul => a * b
    case Div => Divide(lib, a, b)
    case Gt => if a > b then 1.0 else 0.0
    case Lt => if a < b then 1.0 else 0.0
    case Ne => if a != b then 1.0 else 0.0
    case Eq => if a == b then 1.0 else 0.0
    case Ge => if a >= b then 1.0 else 0.0
    case Le => if a <= b then 1.0 else 0.0
  }

  /** unop::eval once the operand is known: fabs, or negation. */
  function ApplyUn(op: UnOp, a: real): (v: real)
    ensures op == Abs ==> v >= 0.0 && (v == a || v == -a)
    ensures op == Neg ==> v + a == 0.0
  {
    match op
    case Abs => if a < 0.0 then -a else a
    case Neg => -a
  }

  /** fncall::eval once the argument is known; `print` passes its argument through. */
  function ApplyBuiltin(lib: Libm, fn: Builtin, a: real): (v: real)
    ensures fn == Print ==> v == a
  {
    match fn
    case Sqrt => lib.sqrt(a)
    case Exp => lib.exp(a)
    case Log => lib.log(a)
    case Print => a
  }

  predicate ParamsExist(syms: seq<Symbol>, ps: seq<SymId>) {
    forall k :: 0 <= k < |ps| ==> ps[k] < |syms|
  }

  /** Assigns `xs[k]` to symbol `ps[k]` for k = 0, 1, ... in that order (a later write to the same symbol wins). */
  function Overwrite(syms: seq<Symbol>, ps: seq<SymId>, xs: seq<real>): (r: seq<Symbol>)
    requires |ps| == |xs| && ParamsExist(syms, ps)
    ensures SameDefs(syms, r)
    decreases |ps|
  {
    if ps == [] then syms
    else SetValue(Overwrite(syms, ps[..|ps| - 1], xs[..|xs| - 1]), ps[|ps| - 1], xs[|xs| - 1])
  }

  /**
   * The values the save-and-assign loop of ufncall::eval saves: entry k is the
   * value of `ps[k]` just before it is overwritten, after the first k
   * assignments have been made.
   */
  function SaveValues(syms: seq<Symbol>, ps: seq<SymId>, xs: seq<real>): (r: seq<real>)
    requires |ps| == |xs| && ParamsExist(syms, ps)
    ensures |r| == |ps|
    decreases |ps|
  {
    if ps == [] then []
    else
      var n := |ps| - 1;
      SaveValues(syms, ps[..n], xs[..n]) + [Overwrite(syms, ps[..n], xs[..n])[ps[n]].value]
  }

  /** The current values of the symbols `ps`, in order. */
  function ValuesOf(syms: seq<Symbol>, ps: seq<SymId>): (r: seq<real>)
    requires ParamsExist(syms, ps)
    ensures |r| == |ps| && forall k :: 0 <= k < |ps| ==> r[k] == syms[ps[k]].value
  {
    seq(|ps|, k requires 0 <= k < |ps| => syms[ps[k]].value)
  }

  /**
   * Evaluates `e` in `st`; gives its value and the state afterwards.
   *
   * Symbols are indices into the table. A tree that names an index outside
   * the table, or calls a function whose parameter list does, stops
   * evaluation with `None`; trees and definitions built from interned names
   * never do.
   */
  function Eval(lib: Libm, e: Expr, st: State, fuel: nat): (r: Option<(real, State)>)
    ensures r.Some? ==> |r.value.1.syms| == |st.syms|
    decreases fuel, Size(e), 2
  {
    match e
    case Num(x) => Some((x, st))
    case Ref(s) => if s < |st.syms| then Some((st.syms[s].value, st)) else None
    case Assign(s, rhs) =>
      var a :- Eval(lib, rhs, st, fuel);
      if s < |a.1.syms| then Some((a.0, a.1.(syms := SetValue(a.1.syms, s, a.0)))) else None
    case Bin(op, l, r) =>
      var a :- Eval(lib, l, st, fuel);
      var b :- Eval(lib, r, a.1, fuel);
      Some((if op == Seq then b.0 else ApplyBin(lib, op, a.0, b.0), b.1))
    case Un(op, x) =>
      var a :- Eval(lib, x, st, fuel);
      Some((ApplyUn(op, a.0), a.1))
    case BuiltinCall(fn, x) =>
      var a :- Eval(lib, x, st, fuel);
      Some((ApplyBuiltin(lib, fn, a.0), if fn == Print then a.1.(out := a.1.out + [a.0]) else a.1))
    case Call(f, args) => EvalCall(lib, f, args, st, fuel)
    case If(c, t, el) =>
      var a :- Eval(lib, c, st, fuel);
      if a.0 != 0.0 then EvalBranch(lib, t, a.1, fuel) else EvalBranch(lib, el, a.1, fuel)
    case While(c, b) =>
      if b.None? then Some((0.0, st))
      else
        assert OptSize(b) == Size(b.value);
        EvalLoop(lib, c, b.value, 0.0, st, fuel)
  }

  /** An optional branch of an `if`: an absent one gives 0.0 and changes nothing. */
  function EvalBranch(lib: Libm, b: Option<Expr>, st: State, fuel: nat): (r: Option<(real, State)>)
    ensures r.Some? ==> |r.value.1.syms| == |st.syms|
    decreases fuel, OptSize(b), 3
  {
    match b
    case None => Some((0.0, st))
    case Some(x) => Eval(lib, x, st, fuel)
  }

  /**
   * The `while` loop with body `b`, whose running result is `v`: test the
   * condition; on zero stop with `v`, otherwise run the body, whose value
   * becomes the running result, and go round again.
   */
  function EvalLoop(lib: Libm, c: Expr, b: Expr, v: real, st: State, fuel: nat): (r: Option<(real, State)>)
    ensures r.Some? ==> |r.value.1.syms| == |st.syms|
    decreases fuel, Size(c) + Size(b) + 1, 1
  {
    var a :- Eval(lib, c, st, fuel);
    if a.0 == 0.0 then Some((v, a.1))
    else
      var w :- Eval(lib, b, a.1, fuel);
      if fuel == 0 then None else EvalLoop(lib, c, b, w.0, w.1, fuel - 1)
  }

  /**
   * The argument walk of ufncall::eval: collect up to `n` argument values from
   * the chain at `cursor`. An 'L' node gives its left child as the next
   * argument and the walk continues into its right child; any other node is
   * the last argument. Fewer than `n` values means the chain ran out.
   */
  function EvalArgs(lib: Libm, cursor: Option<Expr>, n: nat, st: State, fuel: nat): (r: Option<Args>)
    ensures r.Some? ==> |r.value.vals| <= n && |r.value.st.syms| == |st.syms|
    decreases fuel, OptSize(cursor), 4
  {
    if n == 0 || cursor.None? then Some(Args([], st))
    else
      var x := cursor.value;
      assert OptSize(cursor) == Size(x);
      if NodeType(x) == 'L' then
        var a :- Eval(lib, x.l, st, fuel);
        var rest :- EvalArgs(lib, Some(x.r), n - 1, a.1, fuel);
        Some(Args([a.0] + rest.vals, rest.st))
      else
        // the chain ends with this argument: any of the n - 1 still wanted are missing
        var a :- Eval(lib, x, st, fuel);
        Some(Args([a.0], a.1))
  }

  /**
   * ufncall::eval. An undefined function gives 0.0 without evaluating
   * anything. Otherwise the arguments are evaluated first; too few gives 0.0
   * with no parameter bound; enough go on to `Invoke`.
   */
  function EvalCall(lib: Libm, f: SymId, args: Expr, st: State, fuel: nat): (r: Option<(real, State)>)
    ensures r.Some? ==> |r.value.1.syms| == |st.syms|
    decreases fuel, Size(args) + 1, 1
  {
    if f >= |st.syms| then None
    else
      var sym := st.syms[f];
      if sym.func.None? then Some((0.0, st))
      else if !ParamsExist(st.syms, sym.params) then None
      else
        var ps := sym.params;
        var a :- EvalArgs(lib, Some(args), |ps|, st, fuel);
        if |a.vals| < |ps| then Some((0.0, a.st))
        else Invoke(lib, sym.func.value, ps, a, fuel)
  }

  /**
   * The rest of a call once the argument values `a.vals`, one per parameter,
   * are known: each parameter's value is saved and replaced by its argument,
   * the body is evaluated, and the saved values are written back in the same
   * order. Entering the body costs one unit of fuel.
   */
  function Invoke(lib: Libm, body: Expr, ps: seq<SymId>, a: Args, fuel: nat): (r: Option<(real, State)>)
    requires |ps| == |a.vals| && ParamsExist(a.st.syms, ps)
    ensures r.Some? ==> |r.value.1.syms| == |a.st.syms|
    decreases fuel, 0, 0
  {
    if fuel == 0 then None
    else
      var bound := a.st.(syms := Overwrite(a.st.syms, ps, a.vals));
      var res :- Eval(lib, body, bound, fuel - 1);
      var saved := SaveValues(a.st.syms, ps, a.vals);
      Some((res.0, res.1.(syms := Overwrite(res.1.syms, ps, saved))))
  }
}
