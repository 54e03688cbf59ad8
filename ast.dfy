/**
 * The syntax tree of the calculator language: one variant per node class of
 * the interpreter (numval, symref, symasgn, binop, unop, fncall, ufncall and
 * the two kinds of flow node), with the integer `nodetype` tags the C++ classes
 * attaches to them.
 */
module Ast {
  import opened Wrappers

  /** A symbol is referred to by its position in the symbol table, in creation order. */
  type SymId = nat

  /** The operators of a `binop` node; `Seq` is the 'L' list/sequence node. */
  datatype BinOp = Add | Sub | Mul | Div | Seq | Gt | Lt | Ne | Eq | Ge | Le {
    predicate IsComparison() {
      Gt? || Lt? || Ne? || Eq? || Ge? || Le?
    }
  }

  /** The operators of a `unop` node: absolute value ('|') and negation ('M'). */
  datatype UnOp = Abs | Neg

  /** The builtin functions of a `fncall` node (enum bifs). */
  datatype Builtin = Sqrt | Exp | Log | Print

  datatype Expr =
    | Num(number: real)                                     // numval
    | Ref(sym: SymId)                                       // symref
    | Assign(sym: SymId, rhs: Expr)                         // symasgn
    | Bin(op: BinOp, l: Expr, r: Expr)                      // binop
    | Un(uop: UnOp, operand: Expr)                          // unop
    | BuiltinCall(fn: Builtin, arg: Expr)                   // fncall
    | Call(callee: SymId, args: Expr)                       // ufncall
    | If(cond: Expr, thn: Option<Expr>, els: Option<Expr>)  // flow 'I'
    | While(cond: Expr, body: Option<Expr>)                 // flow 'W'

  /** The nodetype tag of a binop node. */
  function BinCode(op: BinOp): (c: char)
    ensures c in "+-*/L123456"
  {
    match op
    case Add => '+'
    case Sub => '-'
    case Mul => '*'
    case Div => '/'
    case Seq => 'L'
    case Gt => '1'
    case Lt => '2'
    case Ne => '3'
    case Eq => '4'
    case Ge => '5'
    case Le => '6'
  }

  /** The binop operator a nodetype tag stands for, if any. */
  function BinOpOf(c: char): (r: Option<BinOp>)
    ensures r.Some? <==> c in "+-*/L123456"
    ensures r.Some? ==> BinCode(r.value) == c
  {
    match c
    case '+' => Some(Add)
    case '-' => Some(Sub)
    case '*' => Some(Mul)
    case '/' => Some(Div)
    case 'L' => Some(Seq)
    case '1' => Some(Gt)
    case '2' => Some(Lt)
    case '3' => Some(Ne)
    case '4' => Some(Eq)
    case '5' => Some(Ge)
    case '6' => Some(Le)
    case _ => None
  }

  /** Tags and operators are in one-to-one correspondence, in both directions. */
  lemma BinCodeRoundTrip(op: BinOp, c: char)
    ensures BinOpOf(BinCode(op)) == Some(op)
    ensures BinOpOf(c) == Some(op) ==> BinCode(op) == c
  {
  }

  /** The nodetype tag of a unop node. */
  function UnCode(op: UnOp): (c: char)
    ensures c == '|' || c == 'M'
  {
    match op
    case Abs => '|'
    case Neg => 'M'
  }

  /** The unary operator a nodetype tag stands for, if any: the cases of unop::eval. */
  function UnOpOf(c: char): (r: Option<UnOp>)
    ensures r.Some? <==> c == '|' || c == 'M'
    ensures r.Some? ==> UnCode(r.value) == c
  {
    match c
    case '|' => Some(Abs)
    case 'M' => Some(Neg)
    case _ => None
  }

  /** The two unary tags are distinct and decode back to their operator. */
  lemma UnCodeRoundTrip(op: UnOp, op': UnOp)
    ensures UnOpOf(UnCode(op)) == Some(op)
    ensures UnCode(op) == UnCode(op') ==> op == op'
  {
  }

  /** The numeric code of a builtin: B_sqrt = 1, B_exp, B_log, B_print. */
  function BuiltinCode(b: Builtin): (code: int)
    ensures 1 <= code <= 4
  {
    match b
    case Sqrt => 1
    case Exp => 2
    case Log => 3
    case Print => 4
  }

  /** The builtin a numeric code stands for, if any. */
  function BuiltinOf(code: int): (r: Option<Builtin>)
    ensures r.Some? <==> 1 <= code <= 4
  {
    if code == 1 then Some(Sqrt)
    else if code == 2 then Some(Exp)
    else if code == 3 then Some(Log)
    else if code == 4 then Some(Print)
    else None
  }

  /** The four builtin codes are distinct and decode back to their builtin. */
  lemma BuiltinCodeRoundTrip(b: Builtin, b': Builtin)
    ensures BuiltinOf(BuiltinCode(b)) == Some(b)
    ensures BuiltinCode(b) == BuiltinCode(b') ==> b == b'
  {
  }

  /** The nodetype tag every node carries. */
  function NodeType(e: Expr): (c: char)
    ensures c == 'L' <==> e.Bin? && e.op == Seq
    ensures e.Bin? ==> BinOpOf(c) == Some(e.op)
  {
    match e
    case Num(_) => 'K'
    case Ref(_) => 'N'
    case Assign(_, _) => '='
    case Bin(op, _, _) => BinCode(op)
    case Un(op, _) => UnCode(op)
    case BuiltinCall(_, _) => 'F'
    case Call(_, _) => 'C'
    case If(_, _, _) => 'I'
    case While(_, _) => 'W'
  }

  /** The number of nodes of a tree; used to show that evaluation of subtrees terminates. */
  function Size(e: Expr): (n: nat)
    ensures n >= 1
  {
    match e
    case Num(_) => 1
    case Ref(_) => 1
    case Assign(_, rhs) => 1 + Size(rhs)
    case Bin(_, l, r) => 1 + Size(l) + Size(r)
    case Un(_, x) => 1 + Size(x)
    case BuiltinCall(_, x) => 1 + Size(x)
    case Call(_, args) => 1 + Size(args)
    case If(c, t, el) => 1 + Size(c) + OptSize(t) + OptSize(el)
    case While(c, b) => 1 + Size(c) + OptSize(b)
  }

  function OptSize(o: Option<Expr>): nat {
    match o
    case None => 0
    case Some(e) => Size(e)
  }
}
