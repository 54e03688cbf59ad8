/**
 * A recursive user function end to end: after
 *   let f(n) = if n < 1 then 0 else n + f(n - 1)
 * the call f(k) gives k(k+1)/2 and leaves `n`, and every other symbol, as it
 * was before the call.
 */
module SumExample {
  import opened Wrappers
  import opened Ast
  import opened Symbols
  import opened Semantics
  import opened Binding

  /** The symbols `f` and `n`, by their place in the table. */
  const F: SymId := 0
  const N: SymId := 1

  /** The body of `f`: if n < 1 then 0 else n + f(n - 1). */
  function SumBody(): Expr {
    If(Bin(Lt, Ref(N), Num(1.0)),
       Some(Num(0.0)),
       Some(Bin(Add, Ref(N), Call(F, Bin(Sub, Ref(N), Num(1.0))))))
  }

  /** The table has `f` defined with the single parameter `n` and the body above. */
  predicate DefinesSum(syms: seq<Symbol>) {
    2 <= |syms| && syms[F].func == Some(SumBody()) && syms[F].params == [N]
  }

  /** Binding `n` to `x` and writing the saved value back restores the table. */
  lemma BindAndRestore(syms: seq<Symbol>, x: real, later: seq<Symbol>)
    requires N < |syms| && N < |later|
    ensures Overwrite(syms, [N], [x]) == SetValue(syms, N, x)
    ensures Overwrite(later, [N], SaveValues(syms, [N], [x])) == SetValue(later, N, syms[N].value)
  {
    OverwriteOne(syms, N, x);
    OverwriteOne(later, N, syms[N].value);
  }

  /** The recursive call's argument, n - 1. */
  function Pred(): Expr {
    Bin(Sub, Ref(N), Num(1.0))
  }

  /**
   * Binding `n` to `x`, running a body that gives `v` and leaves the state as
   * binding made it, and restoring `n` gives `v` and the state as it was.
   */
  lemma InvokeRestores(lib: Libm, body: Expr, st: State, x: real, fuel: nat, v: real)
    requires N < |st.syms| && fuel > 0
    requires Eval(lib, body, st.(syms := SetValue(st.syms, N, x)), fuel - 1)
          == Some((v, st.(syms := SetValue(st.syms, N, x))))
    ensures Invoke(lib, body, [N], Args([x], st), fuel) == Some((v, st))
  {
    var bound := st.(syms := SetValue(st.syms, N, x));
    BindAndRestore(st.syms, x, bound.syms);
    assert SetValue(bound.syms, N, st.syms[N].value) == st.syms;
  }

  /** With `n` = m + 1, the argument walk of f(n - 1) collects the single value m. */
  lemma PredArgs(lib: Libm, st: State, m: nat, fuel: nat)
    requires N < |st.syms| && st.syms[N].value == (m + 1) as real
    ensures EvalArgs(lib, Some(Pred()), 1, st, fuel) == Some(Args([m as real], st))
  {
    assert Eval(lib, Pred(), st, fuel) == Some((m as real, st));
  }

  /**
   * When `n` is m + 1, the call f(n - 1) runs the body with `n` bound to m and
   * then puts `n` back: its value is the body's, its effect none.
   */
  lemma CallOnPred(lib: Libm, st: State, m: nat, fuel: nat, v: real)
    requires DefinesSum(st.syms) && st.syms[N].value == (m + 1) as real && fuel > 0
    requires Eval(lib, SumBody(), st.(syms := SetValue(st.syms, N, m as real)), fuel - 1)
          == Some((v, st.(syms := SetValue(st.syms, N, m as real))))
    ensures Eval(lib, Call(F, Pred()), st, fuel) == Some((v, st))
  {
    PredArgs(lib, st, m, fuel);
    CallInvokes(lib, F, Pred(), st, fuel, Args([m as real], st));
    InvokeRestores(lib, SumBody(), st, m as real, fuel, v);
  }

  /** With `n` below 1 the body takes the `then` branch and gives 0. */
  lemma BodyBase(lib: Libm, st: State, fuel: nat)
    requires DefinesSum(st.syms) && st.syms[N].value < 1.0
    ensures Eval(lib, SumBody(), st, fuel) == Some((0.0, st))
  {
    assert Eval(lib, Bin(Lt, Ref(N), Num(1.0)), st, fuel) == Some((1.0, st));
    assert EvalBranch(lib, Some(Num(0.0)), st, fuel) == Some((0.0, st));
  }

  /** With `n` at least 1 the body takes the `else` branch and adds `n` to f(n - 1). */
  lemma BodyStep(lib: Libm, st: State, fuel: nat, v: real)
    requires DefinesSum(st.syms) && st.syms[N].value >= 1.0
    requires Eval(lib, Call(F, Pred()), st, fuel) == Some((v, st))
    ensures Eval(lib, SumBody(), st, fuel) == Some((st.syms[N].value + v, st))
  {
    var rest := Bin(Add, Ref(N), Call(F, Pred()));
    assert Eval(lib, Bin(Lt, Ref(N), Num(1.0)), st, fuel) == Some((0.0, st));
    assert Eval(lib, Ref(N), st, fuel) == Some((st.syms[N].value, st));
    assert Eval(lib, rest, st, fuel) == Some((st.syms[N].value + v, st));
    assert EvalBranch(lib, Some(rest), st, fuel) == Eval(lib, rest, st, fuel);
  }

  /** 0 + 1 + ... + k, by the recursion the function itself follows. */
  function Tri(k: nat): real {
    if k == 0 then 0.0 else k as real + Tri(k - 1)
  }

  lemma {:induction false} TriClosedForm(k: nat)
    ensures Tri(k) == (k * (k + 1)) as real / 2.0
  {
    if k > 0 {
      var m := k - 1;
      TriClosedForm(m);
      assert k * (k + 1) == m * (m + 1) + 2 * k;
      assert (k * (k + 1)) as real == (m * (m + 1)) as real + 2.0 * k as real;
    }
  }

  /** With `n` = k, the body gives 0 + 1 + ... + k and changes nothing, given fuel for k nested calls. */
  lemma {:induction false} SumBodyValue(lib: Libm, st: State, k: nat, fuel: nat)
    requires DefinesSum(st.syms)
    requires st.syms[N].value == k as real && fuel >= k
    ensures Eval(lib, SumBody(), st, fuel) == Some((Tri(k), st))
    decreases k
  {
    if k == 0 {
      BodyBase(lib, st, fuel);
    } else {
      var m := k - 1;
      var bound := st.(syms := SetValue(st.syms, N, m as real));
      SumBodyValue(lib, bound, m, fuel - 1);
      CallOnPred(lib, st, m, fuel, Tri(m));
      BodyStep(lib, st, fuel, Tri(m));
    }
  }

  /** The call f(k) gives k(k+1)/2 and leaves the whole state as it found it. */
  lemma CallSum(lib: Libm, st: State, k: nat, fuel: nat)
    requires DefinesSum(st.syms) && fuel > k
    ensures Eval(lib, Call(F, Num(k as real)), st, fuel) == Some(((k * (k + 1)) as real / 2.0, st))
  {
    assert EvalArgs(lib, Some(Num(k as real)), 1, st, fuel) == Some(Args([k as real], st));
    CallInvokes(lib, F, Num(k as real), st, fuel, Args([k as real], st));
    var bound := st.(syms := SetValue(st.syms, N, k as real));
    SumBodyValue(lib, bound, k, fuel - 1);
    InvokeRestores(lib, SumBody(), st, k as real, fuel, Tri(k));
    TriClosedForm(k);
  }

  /** f(5) = 15, and `n` keeps the value it had before the call. */
  lemma SumOfFive(lib: Libm, st: State, fuel: nat)
    requires DefinesSum(st.syms) && fuel > 5
    ensures Eval(lib, Call(F, Num(5.0)), st, fuel) == Some((15.0, st))
  {
    CallSum(lib, st, 5, fuel);
  }
}
