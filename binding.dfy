/**
 * The user-function call protocol of ufncall::eval: how arguments are
 * collected from an 'L' chain, how parameters are bound by saving and
 * overwriting their values, and how the saved values are written back.
 */
module Binding {
  import opened Wrappers
  import opened Ast
  import opened Symbols
  import opened Semantics

  /** No symbol occurs twice in the parameter list. */
  predicate Distinct(ps: seq<SymId>) {
    forall i, j :: 0 <= i < j < |ps| ==> ps[i] != ps[j]
  }

  function Min(a: nat, b: nat): nat {
    if a <= b then a else b
  }

  /** Overwriting the parameters leaves every symbol that is not a parameter exactly as it was. */
  lemma {:induction false} OverwriteElsewhere(syms: seq<Symbol>, ps: seq<SymId>, xs: seq<real>, q: SymId)
    requires |ps| == |xs| && ParamsExist(syms, ps) && q < |syms|
    requires forall k :: 0 <= k < |ps| ==> ps[k] != q
    ensures Overwrite(syms, ps, xs)[q] == syms[q]
    decreases |ps|
  {
    if ps != [] {
      var n := |ps| - 1;
      OverwriteElsewhere(syms, ps[..n], xs[..n], q);
    }
  }

  /** With distinct parameters, parameter k ends up holding value k. */
  lemma {:induction false} OverwriteBinds(syms: seq<Symbol>, ps: seq<SymId>, xs: seq<real>, k: nat)
    requires |ps| == |xs| && ParamsExist(syms, ps) && Distinct(ps) && k < |ps|
    ensures Overwrite(syms, ps, xs)[ps[k]].value == xs[k]
    decreases |ps|
  {
    var n := |ps| - 1;
    if k < n {
      OverwriteBinds(syms, ps[..n], xs[..n], k);
      assert ps[n] != ps[k];
    }
  }

  /** With distinct parameters, the values saved are the parameters' values before binding. */
  lemma {:induction false} SaveValuesAreOldValues(syms: seq<Symbol>, ps: seq<SymId>, xs: seq<real>)
    requires |ps| == |xs| && ParamsExist(syms, ps) && Distinct(ps)
    ensures SaveValues(syms, ps, xs) == ValuesOf(syms, ps)
    decreases |ps|
  {
    if ps != [] {
      var n := |ps| - 1;
      SaveValuesAreOldValues(syms, ps[..n], xs[..n]);
      OverwriteElsewhere(syms, ps[..n], xs[..n], ps[n]);
      assert ValuesOf(syms, ps) == ValuesOf(syms, ps[..n]) + [syms[ps[n]].value];
    }
  }

  /**
   * Binding: in the state the body runs in, parameter k holds argument k
   * and every other symbol is as it was.
   */
  lemma BindIsExact(syms: seq<Symbol>, ps: seq<SymId>, xs: seq<real>)
    requires |ps| == |xs| && ParamsExist(syms, ps) && Distinct(ps)
    ensures var r := Overwrite(syms, ps, xs);
      && (forall k :: 0 <= k < |ps| ==> r[ps[k]].value == xs[k])
      && (forall q :: 0 <= q < |syms| && q !in ps ==> r[q] == syms[q])
  {
    forall k | 0 <= k < |ps| ensures Overwrite(syms, ps, xs)[ps[k]].value == xs[k] {
      OverwriteBinds(syms, ps, xs, k);
    }
    forall q | 0 <= q < |syms| && q !in ps ensures Overwrite(syms, ps, xs)[q] == syms[q] {
      OverwriteElsewhere(syms, ps, xs, q);
    }
  }

  /**
   * Restoring: writing the saved values back gives every parameter the value
   * it had before binding, and leaves every other symbol as the body left it.
   */
  lemma RestoreIsExact(before: seq<Symbol>, after: seq<Symbol>, ps: seq<SymId>, xs: seq<real>)
    requires |ps| == |xs| && ParamsExist(before, ps) && Distinct(ps) && |after| == |before|
    ensures var r := Overwrite(after, ps, SaveValues(before, ps, xs));
      && (forall k :: 0 <= k < |ps| ==> r[ps[k]].value == before[ps[k]].value)
      && (forall q :: 0 <= q < |after| && q !in ps ==> r[q] == after[q])
  {
    SaveValuesAreOldValues(before, ps, xs);
    BindIsExact(after, ps, ValuesOf(before, ps));
  }

  /** Binding one parameter is one assignment; the value saved is the one it held. */
  lemma OverwriteOne(syms: seq<Symbol>, p: SymId, x: real)
    requires p < |syms|
    ensures Overwrite(syms, [p], [x]) == SetValue(syms, p, x)
    ensures SaveValues(syms, [p], [x]) == [syms[p].value]
  {
    assert [p][..0] == [] && [x][..0] == [];
  }

  /** Binding two parameters is two assignments in order. */
  lemma OverwriteTwo(syms: seq<Symbol>, p: SymId, q: SymId, x: real, y: real)
    requires p < |syms| && q < |syms|
    ensures Overwrite(syms, [p, q], [x, y]) == SetValue(SetValue(syms, p, x), q, y)
  {
    assert [p, q][..1] == [p] && [x, y][..1] == [x];
    OverwriteOne(syms, p, x);
  }

  /** The second value saved is read after the first assignment. */
  lemma SaveValuesTwo(syms: seq<Symbol>, p: SymId, q: SymId, x: real, y: real)
    requires p < |syms| && q < |syms|
    ensures SaveValues(syms, [p, q], [x, y]) == [syms[p].value, SetValue(syms, p, x)[q].value]
  {
    assert [p, q][..1] == [p] && [x, y][..1] == [x];
    OverwriteOne(syms, p, x);
  }

  /**
   * With a parameter symbol listed twice, the forward-order restore leaves
   * the first argument in it, not the value it had before the call.
   */
  lemma RepeatedParamKeepsFirstArg(before: seq<Symbol>, after: seq<Symbol>, p: SymId, a: real, b: real)
    requires p < |before| && |after| == |before|
    ensures Overwrite(after, [p, p], SaveValues(before, [p, p], [a, b]))[p].value == a
  {
    SaveValuesTwo(before, p, p, a, b);
    var saved := SaveValues(before, [p, p], [a, b]);
    OverwriteTwo(after, p, p, saved[0], saved[1]);
    assert saved == [saved[0], saved[1]];
  }

  /**
   * The argument expressions as the walk sees them: an 'L' node contributes
   * its left child and continues into its right child; any other node is the
   * last argument.
   */
  function ArgList(cursor: Option<Expr>): seq<Expr>
    decreases OptSize(cursor)
  {
    match cursor
    case None => []
    case Some(x) =>
      assert Size(x) == OptSize(cursor);
      if NodeType(x) == 'L' then
        [x.l] + ArgList(Some(x.r))
      else [x]
  }

  /** Evaluates the expressions `xs` one after the other, left to right. */
  function EvalList(lib: Libm, xs: seq<Expr>, st: State, fuel: nat): (r: Option<Args>)
    ensures r.Some? ==> |r.value.vals| == |xs| && |r.value.st.syms| == |st.syms|
    decreases |xs|
  {
    if xs == [] then Some(Args([], st))
    else
      var a :- Eval(lib, xs[0], st, fuel);
      var rest :- EvalList(lib, xs[1..], a.1, fuel);
      Some(Args([a.0] + rest.vals, rest.st))
  }

  /**
   * The argument walk evaluates exactly the first `n` argument expressions
   * (or all of them, if there are fewer), left to right, and nothing else;
   * it comes up short exactly when the chain holds fewer than `n` arguments.
   */
  lemma {:induction false} EvalArgsIsPrefix(lib: Libm, cursor: Option<Expr>, n: nat, st: State, fuel: nat)
    ensures var xs := ArgList(cursor);
      EvalArgs(lib, cursor, n, st, fuel) == EvalList(lib, xs[..Min(n, |xs|)], st, fuel)
    ensures EvalArgs(lib, cursor, n, st, fuel).Some? ==>
      (|EvalArgs(lib, cursor, n, st, fuel).value.vals| < n <==> |ArgList(cursor)| < n)
    decreases OptSize(cursor)
  {
    var xs := ArgList(cursor);
    if n == 0 || cursor.None? {
      assert xs[..Min(n, |xs|)] == [];
    } else {
      var x := cursor.value;
      assert Size(x) == OptSize(cursor);
      if NodeType(x) == 'L' {
        var pre := xs[..Min(n, |xs|)];
        var tail := ArgList(Some(x.r));
        assert pre[0] == x.l;
        assert pre[1..] == tail[..Min(n - 1, |tail|)];
        match Eval(lib, x.l, st, fuel)
        case None =>
        case Some(a) =>
          EvalArgsIsPrefix(lib, Some(x.r), n - 1, a.1, fuel);
      } else {
        assert xs[..Min(n, |xs|)] == [x];
        assert [x][1..] == [];
        match Eval(lib, x, st, fuel)
        case None =>
        case Some(a) =>
          assert EvalList(lib, [], a.1, fuel) == Some(Args([], a.1));
          assert [a.0] + [] == [a.0];
      }
    }
  }

  /** Calling a symbol that has no body gives 0.0, evaluates no argument and changes nothing. */
  lemma CallUndefined(lib: Libm, f: SymId, args: Expr, st: State, fuel: nat)
    requires f < |st.syms| && st.syms[f].func.None?
    ensures Eval(lib, Call(f, args), st, fuel) == Some((0.0, st))
  {
  }

  /**
   * `dodef` with no statement list makes `f` undefined again: a later call
   * gives 0.0, evaluates no argument and changes nothing, whatever `f` was
   * before.
   */
  lemma CallAfterUndefine(lib: Libm, f: SymId, ps: seq<SymId>, args: Expr, st: State, fuel: nat)
    requires f < |st.syms|
    ensures var st' := st.(syms := Redefine(st.syms, f, ps, None));
      Eval(lib, Call(f, args), st', fuel) == Some((0.0, st'))
  {
    var st' := st.(syms := Redefine(st.syms, f, ps, None));
    CallUndefined(lib, f, args, st', fuel);
  }

  /**
   * Calling with fewer argument expressions than parameters gives 0.0; all the
   * arguments there are get evaluated, and no parameter is bound.
   */
  lemma CallTooFew(lib: Libm, f: SymId, args: Expr, st: State, fuel: nat)
    requires f < |st.syms| && ParamsExist(st.syms, st.syms[f].params)
    requires st.syms[f].func.Some? && |ArgList(Some(args))| < |st.syms[f].params|
    ensures match EvalList(lib, ArgList(Some(args)), st, fuel)
      case None => Eval(lib, Call(f, args), st, fuel).None?
      case Some(a) => Eval(lib, Call(f, args), st, fuel) == Some((0.0, a.st))
  {
    var xs := ArgList(Some(args));
    EvalArgsIsPrefix(lib, Some(args), |st.syms[f].params|, st, fuel);
    assert xs[..Min(|st.syms[f].params|, |xs|)] == xs;
  }

  /** A two-parameter function called with a single literal gives 0.0 and changes nothing. */
  lemma CallTwoParamsOneLiteral(lib: Libm, f: SymId, x: real, st: State, fuel: nat)
    requires f < |st.syms| && ParamsExist(st.syms, st.syms[f].params)
    requires st.syms[f].func.Some? && |st.syms[f].params| == 2
    ensures Eval(lib, Call(f, Num(x)), st, fuel) == Some((0.0, st))
  {
    assert ArgList(Some(Num(x))) == [Num(x)];
    CallTooFew(lib, f, Num(x), st, fuel);
    assert [Num(x)][1..] == [];
    assert Eval(lib, Num(x), st, fuel) == Some((x, st));
    assert EvalList(lib, [], st, fuel) == Some(Args([], st));
    assert [x] + [] == [x];
    assert EvalList(lib, [Num(x)], st, fuel) == Some(Args([x], st));
  }

  /** A call whose argument walk yields one value per parameter goes on to bind them and run the body. */
  lemma CallInvokes(lib: Libm, f: SymId, args: Expr, st: State, fuel: nat, a: Args)
    requires f < |st.syms| && ParamsExist(st.syms, st.syms[f].params) && st.syms[f].func.Some?
    requires EvalArgs(lib, Some(args), |st.syms[f].params|, st, fuel) == Some(a)
    requires |a.vals| == |st.syms[f].params|
    ensures ParamsExist(a.st.syms, st.syms[f].params)
    ensures Eval(lib, Call(f, args), st, fuel) == Invoke(lib, st.syms[f].func.value, st.syms[f].params, a, fuel)
  {
  }

  /** A body that finishes makes `Invoke` give its value, with the saved values written back. */
  lemma InvokeGives(lib: Libm, body: Expr, ps: seq<SymId>, a: Args, fuel: nat, res: (real, State))
    requires |ps| == |a.vals| && ParamsExist(a.st.syms, ps) && fuel > 0
    requires Eval(lib, body, a.st.(syms := Overwrite(a.st.syms, ps, a.vals)), fuel - 1) == Some(res)
    ensures Invoke(lib, body, ps, a, fuel)
      == Some((res.0, res.1.(syms := Overwrite(res.1.syms, ps, SaveValues(a.st.syms, ps, a.vals)))))
  {
  }

  /**
   * A successful call with distinct parameters. The first |ps| argument
   * expressions are evaluated left to right in the caller's state, before any
   * binding (giving `a`). The body runs with each parameter bound to its
   * argument and every other symbol as the arguments left it. The call's value
   * is the body's; afterwards each parameter holds the value it had before
   * binding, and every other symbol is as the body left it.
   */
  lemma CallRestoresParameters(lib: Libm, f: SymId, args: Expr, st: State, fuel: nat, a: Args, res: (real, State))
    requires f < |st.syms| && ParamsExist(st.syms, st.syms[f].params)
    requires st.syms[f].func.Some? && Distinct(st.syms[f].params)
    requires |ArgList(Some(args))| >= |st.syms[f].params|
    requires EvalList(lib, ArgList(Some(args))[..|st.syms[f].params|], st, fuel) == Some(a)
    requires fuel > 0
    requires Eval(lib, st.syms[f].func.value, a.st.(syms := Overwrite(a.st.syms, st.syms[f].params, a.vals)), fuel - 1) == Some(res)
    ensures var ps := st.syms[f].params; var inner := Overwrite(a.st.syms, ps, a.vals);
      && (forall k :: 0 <= k < |ps| ==> inner[ps[k]].value == a.vals[k])
      && (forall q :: 0 <= q < |inner| && q !in ps ==> inner[q] == a.st.syms[q])
    ensures Eval(lib, Call(f, args), st, fuel).Some?
    ensures var ps := st.syms[f].params; var r := Eval(lib, Call(f, args), st, fuel).value;
      && r.0 == res.0
      && r.1.out == res.1.out
      && |r.1.syms| == |res.1.syms|
      && (forall k :: 0 <= k < |ps| ==> r.1.syms[ps[k]].value == a.st.syms[ps[k]].value)
      && (forall q :: 0 <= q < |res.1.syms| && q !in ps ==> r.1.syms[q] == res.1.syms[q])
  {
    var ps := st.syms[f].params;
    var xs := ArgList(Some(args));
    EvalArgsIsPrefix(lib, Some(args), |ps|, st, fuel);
    assert xs[..Min(|ps|, |xs|)] == xs[..|ps|];
    assert EvalArgs(lib, Some(args), |ps|, st, fuel) == Some(a);
    CallInvokes(lib, f, args, st, fuel, a);
    InvokeGives(lib, st.syms[f].func.value, ps, a, fuel, res);
    BindIsExact(a.st.syms, ps, a.vals);
    RestoreIsExact(a.st.syms, res.1.syms, ps, a.vals);
  }
}
