/**
 * A whole session run through the imperative interpreter: the names `f` and
 * `n` are looked up (and so created) in an empty table, the definition
 *   let f(n) = if n < 1 then 0 else n + f(n - 1)
 * is installed, and f(5) is evaluated.
 */
module Session {
  import opened Wrappers
  import opened Ast
  import opened Symbols
  import opened Semantics
  import opened Evaluator
  import opened SumExample

  /**
   * f(5) evaluates to 15 given fuel for its six nested calls, and `n`, bound
   * and restored by every call and looked up again afterwards, still holds
   * the 0.0 it was created with.
   */
  method SumSession(lib: Libm, fuel: nat) returns (r: Option<real>, n: real)
    requires fuel > 5
    ensures r == Some(15.0)
    ensures n == 0.0
  {
    var t := new Table();
    var o := new Output();
    var f := t.Lookup("f");
    assert t.symbols == [NewSymbol("f")];
    var p := t.Lookup("n");
    assert "f"[0] != "n"[0];
    assert t.symbols == [NewSymbol("f"), NewSymbol("n")] && f == F && p == N;
    t.Define(f, [p], Some(SumBody()));
    ghost var st := Snap(t, o);
    assert DefinesSum(st.syms) && st.syms[N].value == 0.0;
    SumOfFive(lib, st, fuel);
    r := Evaluate(lib, t, o, Call(f, Num(5.0)), fuel);
    // the next statement that names `n` looks it up again
    ghost var before := t.symbols;
    SameDefsAt(st.syms, before);
    var q := t.Lookup("n");
    InternUnique(before, "n", N);
    n := t.symbols[q].value;
  }
}
