/**
 * What each node kind promises about evaluation: assignment, comparisons,
 * the 'L' sequence node, `if` and `while`.
 */
module Properties {
  import opened Wrappers
  import opened Ast
  import opened Symbols
  import opened Semantics

  /**
   * Assignment stores the right-hand side's value in the symbol and yields
   * that same value; every other symbol keeps the value the right-hand side
   * left it with.
   */
  lemma AssignStores(lib: Libm, s: SymId, rhs: Expr, st: State, fuel: nat)
    requires s < |st.syms|
    ensures Eval(lib, rhs, st, fuel).None? ==> Eval(lib, Assign(s, rhs), st, fuel).None?
    ensures Eval(lib, rhs, st, fuel).Some? ==>
      var (v, mid) := Eval(lib, rhs, st, fuel).value;
      var r := Eval(lib, Assign(s, rhs), st, fuel);
      && r.Some? && r.value.0 == v
      && r.value.1.syms[s].value == v
      && r.value.1.out == mid.out
      && |r.value.1.syms| == |mid.syms|
      && forall q :: 0 <= q < |mid.syms| && q != s ==> r.value.1.syms[q] == mid.syms[q]
  {
  }

  /** The relation a comparison node stands for, stated with `<` alone. */
  predicate Related(op: BinOp, a: real, b: real) {
    if op == Gt then b < a
    else if op == Lt then a < b
    else if op == Ne then a < b || b < a
    else if op == Eq then !(a < b) && !(b < a)
    else if op == Ge then !(a < b)
    else if op == Le then !(b < a)
    else false
  }

  /**
   * A comparison yields 1.0 or 0.0, and 1.0 exactly when its relation holds
   * between the left operand's value and the right operand's value.
   */
  lemma CompareIsBoolean(lib: Libm, op: BinOp, l: Expr, r: Expr, st: State, fuel: nat)
    requires op.IsComparison()
    requires Eval(lib, Bin(op, l, r), st, fuel).Some?
    ensures Eval(lib, l, st, fuel).Some?
    ensures var a := Eval(lib, l, st, fuel).value;
      var b := Eval(lib, r, a.1, fuel);
      var v := Eval(lib, Bin(op, l, r), st, fuel).value.0;
      && b.Some?
      && (v == 1.0 || v == 0.0)
      && (v == 1.0 <==> Related(op, a.0, b.value.0))
  {
  }

  /**
   * An 'L' node evaluates its left child and then its right child in the state
   * the left child leaves, and gives the right child's outcome.
   */
  lemma SeqRunsLeftThenRight(lib: Libm, l: Expr, r: Expr, st: State, fuel: nat)
    ensures Eval(lib, l, st, fuel).None? ==> Eval(lib, Bin(Seq, l, r), st, fuel).None?
    ensures Eval(lib, l, st, fuel).Some? ==>
      Eval(lib, Bin(Seq, l, r), st, fuel) == Eval(lib, r, Eval(lib, l, st, fuel).value.1, fuel)
  {
  }

  /**
   * An 'L' node evaluates its left child only for its effects: two left
   * children that leave the same state give the same outcome, and a
   * side-effect-free left child makes the node equivalent to its right child.
   */
  lemma SeqDiscardsLeft(lib: Libm, l1: Expr, l2: Expr, r: Expr, st: State, fuel: nat)
    requires Eval(lib, l1, st, fuel).Some? && Eval(lib, l2, st, fuel).Some?
    requires Eval(lib, l1, st, fuel).value.1 == Eval(lib, l2, st, fuel).value.1
    ensures Eval(lib, Bin(Seq, l1, r), st, fuel) == Eval(lib, Bin(Seq, l2, r), st, fuel)
    ensures Eval(lib, l1, st, fuel).value.1 == st ==> Eval(lib, Bin(Seq, l1, r), st, fuel) == Eval(lib, r, st, fuel)
  {
    SeqRunsLeftThenRight(lib, l1, r, st, fuel);
    SeqRunsLeftThenRight(lib, l2, r, st, fuel);
  }

  /**
   * An `if` evaluates its condition and then exactly one branch: a present
   * taken branch runs in the state the condition leaves and gives the
   * outcome, the branch not taken can be replaced by anything without
   * changing the outcome, and an absent taken branch gives 0.0 with only the
   * condition's effects.
   */
  lemma IfTakesOneBranch(lib: Libm, c: Expr, t1: Option<Expr>, t2: Option<Expr>, e1: Option<Expr>, e2: Option<Expr>, st: State, fuel: nat)
    requires Eval(lib, c, st, fuel).Some?
    ensures var (x, mid) := Eval(lib, c, st, fuel).value;
      && (x != 0.0 ==> Eval(lib, If(c, t1, e1), st, fuel) == Eval(lib, If(c, t1, e2), st, fuel))
      && (x == 0.0 ==> Eval(lib, If(c, t1, e1), st, fuel) == Eval(lib, If(c, t2, e1), st, fuel))
      && (x != 0.0 && t1.Some? ==> Eval(lib, If(c, t1, e1), st, fuel) == Eval(lib, t1.value, mid, fuel))
      && (x == 0.0 && e1.Some? ==> Eval(lib, If(c, t1, e1), st, fuel) == Eval(lib, e1.value, mid, fuel))
      && (x != 0.0 && t1.None? ==> Eval(lib, If(c, t1, e1), st, fuel) == Some((0.0, mid)))
      && (x == 0.0 && e1.None? ==> Eval(lib, If(c, t1, e1), st, fuel) == Some((0.0, mid)))
  {
  }

  /** A `while` without a body is a no-op giving 0.0: not even the condition is evaluated. */
  lemma WhileWithoutBody(lib: Libm, c: Expr, st: State, fuel: nat)
    ensures Eval(lib, While(c, None), st, fuel) == Some((0.0, st))
  {
  }

  /** A `while` whose condition is zero at the start gives 0.0 and never runs its body. */
  lemma WhileInitiallyFalse(lib: Libm, c: Expr, b1: Expr, b2: Expr, st: State, fuel: nat)
    requires Eval(lib, c, st, fuel).Some? && Eval(lib, c, st, fuel).value.0 == 0.0
    ensures Eval(lib, While(c, Some(b1)), st, fuel) == Some((0.0, Eval(lib, c, st, fuel).value.1))
    ensures Eval(lib, While(c, Some(b1)), st, fuel) == Eval(lib, While(c, Some(b2)), st, fuel)
  {
    WhileIsLoop(lib, c, b1, st, fuel);
    WhileIsLoop(lib, c, b2, st, fuel);
    LoopStops(lib, c, b1, 0.0, st, fuel);
    LoopStops(lib, c, b2, 0.0, st, fuel);
  }

  /** A `while` with a body is its loop started with running result 0.0. */
  lemma WhileIsLoop(lib: Libm, c: Expr, b: Expr, st: State, fuel: nat)
    ensures Eval(lib, While(c, Some(b)), st, fuel) == EvalLoop(lib, c, b, 0.0, st, fuel)
  {
  }

  /** A loop whose condition tests zero stops there, keeping its running result. */
  lemma LoopStops(lib: Libm, c: Expr, b: Expr, v: real, st: State, fuel: nat)
    requires Eval(lib, c, st, fuel).Some? && Eval(lib, c, st, fuel).value.0 == 0.0
    ensures EvalLoop(lib, c, b, v, st, fuel) == Some((v, Eval(lib, c, st, fuel).value.1))
  {
  }

  /**
   * Evaluating the body from state `s` gives `w`, and the condition,
   * evaluated next, is zero and leaves `fin`: a last loop iteration.
   */
  ghost predicate LastIteration(lib: Libm, c: Expr, b: Expr, s: State, f: nat, w: real, fin: State) {
    && var after := Eval(lib, b, s, f + 1);
    && after.Some? && after.value.0 == w
    && Eval(lib, c, after.value.1, f) == Some((0.0, fin))
  }

  /**
   * Follows `EvalLoop` from state `st` and gives the state the last body
   * evaluation of this run started from, with the fuel left after it, or
   * `None` when the run never enters the body.
   */
  ghost function LastBodyStart(lib: Libm, c: Expr, b: Expr, st: State, fuel: nat): Option<(State, nat)>
    decreases fuel
  {
    match Eval(lib, c, st, fuel)
    case None => None
    case Some(a) =>
      if a.0 == 0.0 || fuel == 0 then None
      else match Eval(lib, b, a.1, fuel)
        case None => None
        case Some(w) =>
          match LastBodyStart(lib, c, b, w.1, fuel - 1)
          case Some(later) => Some(later)
          case None => Some((a.1, fuel - 1))
  }

  /**
   * A loop that finishes either stops at its first test, keeping the running
   * result `v`, or yields the value of this run's last body evaluation, the
   * one after which the condition was zero.
   */
  lemma {:induction false} LoopYieldsLastBody(lib: Libm, c: Expr, b: Expr, v: real, st: State, fuel: nat)
    requires EvalLoop(lib, c, b, v, st, fuel).Some?
    ensures var (w, fin) := EvalLoop(lib, c, b, v, st, fuel).value;
      var last := LastBodyStart(lib, c, b, st, fuel);
      && (last.None? ==> Eval(lib, c, st, fuel) == Some((0.0, fin)) && w == v)
      && (last.Some? ==> LastIteration(lib, c, b, last.value.0, last.value.1, w, fin))
    decreases fuel
  {
    var (w, fin) := EvalLoop(lib, c, b, v, st, fuel).value;
    var a := Eval(lib, c, st, fuel).value;
    if a.0 != 0.0 {
      var body := Eval(lib, b, a.1, fuel).value;
      assert fuel > 0;
      assert EvalLoop(lib, c, b, body.0, body.1, fuel - 1) == Some((w, fin));
      LoopYieldsLastBody(lib, c, b, body.0, body.1, fuel - 1);
      if LastBodyStart(lib, c, b, body.1, fuel - 1).None? {
        assert LastIteration(lib, c, b, a.1, fuel - 1, w, fin);
      }
    }
  }

  /**
   * A `while` with a body that finishes gives 0.0 when its condition is zero
   * at the start, and otherwise the value of this run's last body
   * evaluation, after which the condition was zero.
   */
  lemma WhileYieldsLastBody(lib: Libm, c: Expr, b: Expr, st: State, fuel: nat)
    requires Eval(lib, While(c, Some(b)), st, fuel).Some?
    ensures var (w, fin) := Eval(lib, While(c, Some(b)), st, fuel).value;
      var last := LastBodyStart(lib, c, b, st, fuel);
      && (last.None? ==> Eval(lib, c, st, fuel) == Some((0.0, fin)) && w == 0.0)
      && (last.Some? ==> LastIteration(lib, c, b, last.value.0, last.value.1, w, fin))
  {
    LoopYieldsLastBody(lib, c, b, 0.0, st, fuel);
  }

  /**
   * Evaluation changes symbol values only: every name, function body and
   * parameter list is as it was.
   */
  lemma {:induction false} EvalKeepsDefs(lib: Libm, e: Expr, st: State, fuel: nat)
    requires Eval(lib, e, st, fuel).Some?
    ensures SameDefs(st.syms, Eval(lib, e, st, fuel).value.1.syms)
    decreases fuel, Size(e), 2
  {
    match e
    case Num(_) =>
    case Ref(_) =>
    case Assign(s, rhs) =>
      var a := Eval(lib, rhs, st, fuel).value;
      EvalKeepsDefs(lib, rhs, st, fuel);
    case Bin(op, l, r) =>
      var a := Eval(lib, l, st, fuel).value;
      EvalKeepsDefs(lib, l, st, fuel);
      EvalKeepsDefs(lib, r, a.1, fuel);
    case Un(_, x) =>
      EvalKeepsDefs(lib, x, st, fuel);
    case BuiltinCall(_, x) =>
      EvalKeepsDefs(lib, x, st, fuel);
    case Call(f, args) =>
      CallKeepsDefs(lib, f, args, st, fuel);
    case If(c, t, el) =>
      var a := Eval(lib, c, st, fuel).value;
      EvalKeepsDefs(lib, c, st, fuel);
      BranchKeepsDefs(lib, if a.0 != 0.0 then t else el, a.1, fuel);
    case While(c, b) =>
      if b.Some? {
        assert OptSize(b) == Size(b.value);
        LoopKeepsDefs(lib, c, b.value, 0.0, st, fuel);
      }
  }

  /** So evaluation keeps the table's names distinct, and cannot make them distinct either. */
  lemma EvalKeepsNames(lib: Libm, e: Expr, st: State, fuel: nat)
    requires Eval(lib, e, st, fuel).Some?
    ensures NamesDistinct(st.syms) <==> NamesDistinct(Eval(lib, e, st, fuel).value.1.syms)
  {
    EvalKeepsDefs(lib, e, st, fuel);
    SameDefsAt(st.syms, Eval(lib, e, st, fuel).value.1.syms);
  }

  lemma {:induction false} BranchKeepsDefs(lib: Libm, b: Option<Expr>, st: State, fuel: nat)
    requires EvalBranch(lib, b, st, fuel).Some?
    ensures SameDefs(st.syms, EvalBranch(lib, b, st, fuel).value.1.syms)
    decreases fuel, OptSize(b), 3
  {
    if b.Some? {
      EvalKeepsDefs(lib, b.value, st, fuel);
    }
  }

  lemma {:induction false} LoopKeepsDefs(lib: Libm, c: Expr, b: Expr, v: real, st: State, fuel: nat)
    requires EvalLoop(lib, c, b, v, st, fuel).Some?
    ensures SameDefs(st.syms, EvalLoop(lib, c, b, v, st, fuel).value.1.syms)
    decreases fuel, Size(c) + Size(b) + 1, 1
  {
    var fin := EvalLoop(lib, c, b, v, st, fuel).value.1;
    var a := Eval(lib, c, st, fuel).value;
    EvalKeepsDefs(lib, c, st, fuel);
    if a.0 != 0.0 {
      var w := Eval(lib, b, a.1, fuel).value;
      EvalKeepsDefs(lib, b, a.1, fuel);
      LoopKeepsDefs(lib, c, b, w.0, w.1, fuel - 1);
    }
  }

  lemma {:induction false} ArgsKeepDefs(lib: Libm, cursor: Option<Expr>, n: nat, st: State, fuel: nat)
    requires EvalArgs(lib, cursor, n, st, fuel).Some?
    ensures SameDefs(st.syms, EvalArgs(lib, cursor, n, st, fuel).value.st.syms)
    decreases fuel, OptSize(cursor), 4
  {
    if n > 0 && cursor.Some? {
      var x := cursor.value;
      assert OptSize(cursor) == Size(x);
      if NodeType(x) == 'L' {
        var a := Eval(lib, x.l, st, fuel).value;
        EvalKeepsDefs(lib, x.l, st, fuel);
        ArgsKeepDefs(lib, Some(x.r), n - 1, a.1, fuel);
      } else {
        EvalKeepsDefs(lib, x, st, fuel);
      }
    }
  }

  lemma {:induction false} CallKeepsDefs(lib: Libm, f: SymId, args: Expr, st: State, fuel: nat)
    requires EvalCall(lib, f, args, st, fuel).Some?
    ensures SameDefs(st.syms, EvalCall(lib, f, args, st, fuel).value.1.syms)
    decreases fuel, Size(args) + 1, 1
  {
    var sym := st.syms[f];
    if sym.func.Some? {
      var a := EvalArgs(lib, Some(args), |sym.params|, st, fuel).value;
      ArgsKeepDefs(lib, Some(args), |sym.params|, st, fuel);
      if |a.vals| == |sym.params| {
        InvokeKeepsDefs(lib, sym.func.value, sym.params, a, fuel);
      }
    }
  }

  lemma {:induction false} InvokeKeepsDefs(lib: Libm, body: Expr, ps: seq<SymId>, a: Args, fuel: nat)
    requires |ps| == |a.vals| && ParamsExist(a.st.syms, ps)
    requires Invoke(lib, body, ps, a, fuel).Some?
    ensures SameDefs(a.st.syms, Invoke(lib, body, ps, a, fuel).value.1.syms)
    decreases fuel, 0, 0
  {
    var bound := a.st.(syms := Overwrite(a.st.syms, ps, a.vals));
    var res := Eval(lib, body, bound, fuel - 1).value;
    EvalKeepsDefs(lib, body, bound, fuel - 1);
  }
}
