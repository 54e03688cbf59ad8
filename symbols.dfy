/**
 * Symbols and the process-wide symbol table.
 *
 * The interpreter keeps every symbol on one singly linked list threaded through
 * `next` from the static `head`, newest first. Here the table is the sequence
 * of symbols in creation order, and a symbol's identity is its index: the list
 * seen from `head` is this sequence read from the end.
 */
module Symbols {
  import opened Wrappers
  import opened Ast

  /**
   * A named storage cell, optionally bound to a function body and its formal
   * parameters. An empty `params` stands for a null parameter list.
   */
  datatype Symbol = Symbol(name: string, value: real, func: Option<Expr>, params: seq<SymId>)

  /** The symbol a fresh table entry starts as: value 0.0, no body, no parameters. */
  function NewSymbol(name: string): (r: Symbol)
    ensures r.name == name && r.value == 0.0
    ensures r.func.None? && r.params == []
  {
    Symbol(name, 0.0, None, [])
  }

  /** No two symbols of the table share a name. */
  predicate NamesDistinct(syms: seq<Symbol>) {
    forall i, j :: 0 <= i < j < |syms| ==> syms[i].name != syms[j].name
  }

  /** What creation and `dodef` decide about a symbol: everything but its value. */
  datatype Def = Def(name: string, func: Option<Expr>, params: seq<SymId>)

  /** The definitions of the table's symbols, in table order. */
  function Defs(syms: seq<Symbol>): seq<Def> {
    seq(|syms|, i requires 0 <= i < |syms| => Def(syms[i].name, syms[i].func, syms[i].params))
  }

  /** `b` differs from `a` at most in the symbols' values: same names, bodies and parameter lists. */
  predicate SameDefs(a: seq<Symbol>, b: seq<Symbol>) {
    Defs(a) == Defs(b)
  }

  /** Tables with the same definitions have the same size, names, bodies and parameter lists. */
  lemma SameDefsAt(a: seq<Symbol>, b: seq<Symbol>)
    requires SameDefs(a, b)
    ensures |a| == |b|
    ensures forall i :: 0 <= i < |a| ==> a[i].name == b[i].name && a[i].func == b[i].func && a[i].params == b[i].params
    ensures NamesDistinct(a) <==> NamesDistinct(b)
  {
    assert |a| == |Defs(a)| == |Defs(b)| == |b|;
    forall i | 0 <= i < |a|
      ensures a[i].name == b[i].name && a[i].func == b[i].func && a[i].params == b[i].params
    {
      assert Defs(a)[i] == Defs(b)[i];
    }
  }

  /** Overwrites the value of symbol `p`, and nothing else. */
  function SetValue(syms: seq<Symbol>, p: SymId, x: real): (r: seq<Symbol>)
    requires p < |syms|
    ensures SameDefs(syms, r)
  {
    syms[p := syms[p].(value := x)]
  }

  /**
   * The symbol named `name`, searching from the most recently created one,
   * which is the order in which the list from `head` is walked.
   */
  function FindName(syms: seq<Symbol>, name: string): (r: Option<SymId>)
    ensures r.Some? ==> r.value < |syms| && syms[r.value].name == name
    ensures r.Some? ==> forall j :: r.value < j < |syms| ==> syms[j].name != name
    ensures r.None? <==> forall j :: 0 <= j < |syms| ==> syms[j].name != name
    decreases |syms|
  {
    if |syms| == 0 then None
    else if syms[|syms| - 1].name == name then Some(|syms| - 1)
    else FindName(syms[..|syms| - 1], name)
  }

  /**
   * Lookup-or-create: the existing symbol named `name`, or a new one appended
   * to the table (pushed on the head of the list). Gives the symbol and the
   * new table.
   */
  function Intern(syms: seq<Symbol>, name: string): (r: (SymId, seq<Symbol>))
    ensures r.0 < |r.1| && r.1[r.0].name == name
    ensures (exists j :: 0 <= j < |syms| && syms[j].name == name) ==> r.1 == syms
    ensures (forall j :: 0 <= j < |syms| ==> syms[j].name != name) ==>
              r.1 == syms + [Symbol(name, 0.0, None, [])] && r.0 == |syms|
    ensures NamesDistinct(syms) ==> NamesDistinct(r.1)
  {
    match FindName(syms, name)
    case Some(i) => (i, syms)
    case None => (|syms|, syms + [NewSymbol(name)])
  }

  /** Looking a name up twice gives the same symbol and adds nothing the second time. */
  lemma InternIdempotent(syms: seq<Symbol>, name: string)
    ensures Intern(Intern(syms, name).1, name) == Intern(syms, name)
  {
    var (id, syms') := Intern(syms, name);
    if FindName(syms, name).None? {
      assert FindName(syms', name) == Some(id);
    }
  }

  /** In a table without duplicate names, the symbol found is the only one with that name. */
  lemma InternUnique(syms: seq<Symbol>, name: string, j: nat)
    requires NamesDistinct(syms)
    requires j < |Intern(syms, name).1| && Intern(syms, name).1[j].name == name
    ensures j == Intern(syms, name).0
  {
  }

  /**
   * dodef: `f` gets the parameter list `params` and the body `body`; its old
   * list and body are discarded, and no other part of the table changes.
   * An absent body (a null statement list) leaves `f` undefined again.
   */
  function Redefine(syms: seq<Symbol>, f: SymId, params: seq<SymId>, body: Option<Expr>): (r: seq<Symbol>)
    requires f < |syms|
    ensures |r| == |syms| && r[f].func == body && r[f].params == params
    ensures r[f].name == syms[f].name && r[f].value == syms[f].value
    ensures forall i :: 0 <= i < |syms| && i != f ==> r[i] == syms[i]
  {
    syms[f := syms[f].(func := body, params := params)]
  }

  /** A second definition of the same symbol leaves no trace of the first. */
  lemma RedefineOverrides(syms: seq<Symbol>, f: SymId, p1: seq<SymId>, b1: Option<Expr>, p2: seq<SymId>, b2: Option<Expr>)
    requires f < |syms|
    ensures Redefine(Redefine(syms, f, p1, b1), f, p2, b2) == Redefine(syms, f, p2, b2)
  {
  }

  /** The process-wide symbol table: the list from `head`, stored oldest first. */
  class Table {
    var symbols: seq<Symbol>

    ghost predicate Valid()
      reads this
    {
      NamesDistinct(symbols)
    }

    /** The empty table: `head` is null at start-up. */
    constructor ()
      ensures Valid() && symbols == []
    {
      symbols := [];
    }

    /** symbol::symbol: a new symbol with value 0.0 and no function, pushed on the head of the list. */
    method Create(name: string) returns (id: SymId)
      requires Valid() && FindName(symbols, name).None?
      modifies this
      ensures Valid()
      ensures symbols == old(symbols) + [Symbol(name, 0.0, None, [])] && id == old(|symbols|)
    {
      symbols := symbols + [NewSymbol(name)];
      id := |symbols| - 1;
    }

    /** symbol::lookup: walk the list from the head; return the match or create the symbol. */
    method Lookup(name: string) returns (id: SymId)
      requires Valid()
      modifies this
      ensures Valid()
      ensures (id, symbols) == Intern(old(symbols), name)
    {
      var i := |symbols|;
      while i > 0
        invariant 0 <= i <= |symbols|
        invariant forall j :: i <= j < |symbols| ==> symbols[j].name != name
      {
        if symbols[i - 1].name == name {
          return i - 1;
        }
        i := i - 1;
      }
      id := Create(name);
    }

    /**
     * Writes the value of symbol `p` in place, as assignment and parameter
     * binding do; names, bodies and parameter lists are untouched.
     */
    method Store(p: SymId, x: real)
      requires p < |symbols|
      modifies this
      ensures symbols == SetValue(old(symbols), p, x)
    {
      symbols := symbols[p := symbols[p].(value := x)];
    }

    /** dodef: replace the symbol's parameter list and body, discarding the old ones. */
    method Define(f: SymId, params: seq<SymId>, body: Option<Expr>)
      requires Valid() && f < |symbols|
      modifies this
      ensures Valid()
      ensures symbols == Redefine(old(symbols), f, params, body)
    {
      symbols := symbols[f := symbols[f].(func := body, params := params)];
    }
  }
}
