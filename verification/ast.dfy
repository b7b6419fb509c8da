/** The part of the parser's syntax tree that the bytecode generator reads.
    The parser itself lies outside this model. Node kinds, operators and
    parameter kinds the generator rejects with an error are each collapsed
    into one constructor; the three shapes it rejects with a failed
    assertion have a constructor of their own. */
module Ast {
  import opened Base

  /** An interned identifier. */
  type Ident = nat

  /** The identifier reserved for the top-level function. */
  const MAIN: Ident := 0

  datatype BinOp = Add | Sub | Mul | Div | Eq | Ne | Ge | Gt | Le | Lt | OtherOp

  datatype Param = Param(name: Ident) | OtherParam

  datatype Node =
    | Nil
    | Bool(b: bool)
    | SelfValue
    | Integer(i: Int64)
    | Float(f: F64)
    /** Unary minus, the only unary operator the generator accepts. */
    | Neg(operand: Node)
    | BinOp(op: BinOp, lhs: Node, rhs: Node)
    /** A multiple assignment with exactly one target and one value. */
    | MulAssign(target: Node, value: Node)
    | LocalVar(name: Ident)
    | Ident(name: Ident)
    /** A call of a function, or of a method on `self`, with plain arguments. */
    | FuncCall(callee: Ident, args: seq<Node>)
    | If(cond: Node, thenNode: Node, elseNode: Node)
    | While(cond: Node, body: Node)
    | Return(value: Node)
    | CompStmt(nodes: seq<Node>)
    | Begin(body: Node)
    | MethodDef(name: Ident, params: seq<Param>, body: Node)
    /** A call whose argument list has keyword arguments, a hash splat, a
        block or `...` delegation (`foo(1) { }`, `foo(k: 1)`). */
    | OtherArgsCall
    /** A unary operator other than minus (`!x`, `~x`, `+x`). */
    | OtherUnOp
    /** A multiple assignment with more than one target or value (`a, b = 1, 2`). */
    | MultiAssign
    /** `begin ... rescue ... end` with neither `else` nor `ensure`. A
        `begin` with `else` or `ensure` is `Unsupported`. */
    | BeginRescue
    /** Any other node kind, which the generator reports as unimplemented. */
    | Unsupported

  function Size(n: Node): (s: nat)
    ensures s >= 1
  {
    match n
    case Neg(a) => 1 + Size(a)
    case BinOp(_, a, b) => 1 + Size(a) + Size(b)
    case MulAssign(a, b) => 1 + Size(a) + Size(b)
    case FuncCall(_, args) => 1 + SizeSeq(args)
    case If(a, b, c) => 1 + Size(a) + Size(b) + Size(c)
    case While(a, b) => 1 + Size(a) + Size(b)
    case Return(a) => 1 + Size(a)
    case CompStmt(nodes) => 2 + SizeSeq(nodes)
    case Begin(a) => 1 + Size(a)
    case MethodDef(_, _, a) => 1 + Size(a)
    case _ => 1
  }

  function SizeSeq(s: seq<Node>): nat
  {
    if s == [] then 0 else SizeSeq(s[..|s| - 1]) + Size(s[|s| - 1])
  }

  /** No `return` is compiled inline: a method body is compiled as a
      function of its own, so a `return` inside it does not count. */
  predicate ReturnFree(n: Node)
  {
    match n
    case Neg(a) => ReturnFree(a)
    case BinOp(_, a, b) => ReturnFree(a) && ReturnFree(b)
    case MulAssign(a, b) => ReturnFree(a) && ReturnFree(b)
    case FuncCall(_, args) => ReturnFreeSeq(args)
    case If(a, b, c) => ReturnFree(a) && ReturnFree(b) && ReturnFree(c)
    case While(a, b) => ReturnFree(a) && ReturnFree(b)
    case Return(_) => false
    case CompStmt(nodes) => ReturnFreeSeq(nodes)
    case Begin(a) => ReturnFree(a)
    case _ => true
  }

  predicate ReturnFreeSeq(s: seq<Node>)
  {
    if s == [] then true else ReturnFreeSeq(s[..|s| - 1]) && ReturnFree(s[|s| - 1])
  }

  /** Extending a prefix by one element adds that element's size and
      requires it to be return-free. */
  lemma PrefixStep(s: seq<Node>, k: nat)
    requires k < |s|
    ensures SizeSeq(s[..k + 1]) == SizeSeq(s[..k]) + Size(s[k])
    ensures ReturnFreeSeq(s[..k + 1]) == (ReturnFreeSeq(s[..k]) && ReturnFree(s[k]))
  {
    assert s[..k + 1][..k] == s[..k];
  }

  /** A prefix is no larger than the whole sequence, and inherits its
      return-freedom. */
  lemma {:induction false} PrefixBound(s: seq<Node>, k: nat)
    requires k <= |s|
    ensures SizeSeq(s[..k]) <= SizeSeq(s)
    ensures ReturnFreeSeq(s) ==> ReturnFreeSeq(s[..k])
    decreases |s| - k
  {
    if k == |s| {
      assert s[..k] == s;
    } else {
      PrefixBound(s, k + 1);
      PrefixStep(s, k);
    }
  }

  /** Every element is no larger than the sequence, and an element of a
      return-free sequence is return-free. */
  lemma ElementBound(s: seq<Node>, k: nat)
    requires k < |s|
    ensures Size(s[k]) <= SizeSeq(s)
    ensures ReturnFreeSeq(s) ==> ReturnFree(s[k])
  {
    PrefixBound(s, k + 1);
    PrefixStep(s, k);
  }
}
