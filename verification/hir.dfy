/** The high-level IR builder (src/hir.rs): it lowers an arithmetic
    expression tree into SSA instructions, one fresh register per
    instruction, inferring for each register whether it holds an integer or
    a float and inserting an explicit int-to-float conversion wherever an
    integer meets a float. */
module Hir {
  import opened Base

  datatype Type = Integer | Float

  /** The expression tree the builder consumes (the parser's own node type
      is not part of this model). */
  datatype Expr =
    | Integer(i: Int32)
    | Float(f: F64)
    | Neg(e: Expr)
    | Add(lhs: Expr, rhs: Expr)
    | Sub(lhs: Expr, rhs: Expr)
    | Mul(lhs: Expr, rhs: Expr)
    | Div(lhs: Expr, rhs: Expr)

  datatype Const = Integer(i: Int32) | Float(f: F64)

  /** An instruction operand: an SSA register or an immediate. */
  datatype Operand = Reg(r: nat) | Const(c: Const)

  datatype Unop = Unop(ret: nat, src: Operand)
  datatype Binop = Binop(ret: nat, lhs: nat, rhs: nat)
  datatype Binop2 = Binop2(ret: nat, lhs: Operand, rhs: Operand)

  datatype Inst =
    | Integer(ret: nat, i: Int32)
    | Float(ret: nat, f: F64)
    | IntAsFloat(u: Unop)
    | INeg(u: Unop)
    | FNeg(u: Unop)
    | IAdd(b2: Binop2)
    | ISub(b2: Binop2)
    | IMul(b: Binop)
    | IDiv(b: Binop)
    | FAdd(b2: Binop2)
    | FSub(b2: Binop2)
    | FMul(b2: Binop2)
    | FDiv(b2: Binop2)
    | Ret(reg: nat)

  /** The four arithmetic operators, used to pick among the `new_*`
      constructors that differ only in the operator. */
  datatype Arith = OpAdd | OpSub | OpMul | OpDiv

  /** `Const::as_i`: the payload of an integer constant; `None` stands for
      the `unreachable!()` on a float constant. */
  function AsI(c: Const): (r: Option<Int32>)
    ensures r.Some? <==> c.Integer?
    ensures r.Some? ==> c == Const.Integer(r.value)
  {
    match c
    case Integer(n) => Some(n)
    case Float(_) => None
  }

  /** `Const::as_f`, the float counterpart of `AsI`. */
  function AsF(c: Const): (r: Option<F64>)
    ensures r.Some? <==> c.Float?
    ensures r.Some? ==> c == Const.Float(r.value)
  {
    match c
    case Float(f) => Some(f)
    case Integer(_) => None
  }

  /** Rust's `-f` on an f64 flips the sign bit and nothing else. */
  function FloatNeg(f: F64): F64
  {
    F64(f.bits ^ 0x8000_0000_0000_0000)
  }

  // ---------------------------------------------------------------------
  // Well-formed SSA
  // ---------------------------------------------------------------------

  function ConstType(c: Const): Type
  {
    match c
    case Integer(_) => Type.Integer
    case Float(_) => Type.Float
  }

  /** An operand of instruction k is a constant of type ty or a register
      defined before k whose recorded type is ty. */
  predicate OperandOk(op: Operand, k: nat, tys: seq<Type>, ty: Type)
  {
    match op
    case Reg(r) => r < k && r < |tys| && tys[r] == ty
    case Const(c) => ConstType(c) == ty
  }

  /** The register an instruction defines, if any. */
  function Def(inst: Inst): Option<nat>
  {
    match inst
    case Integer(ret, _) => Some(ret)
    case Float(ret, _) => Some(ret)
    case IntAsFloat(u) => Some(u.ret)
    case INeg(u) => Some(u.ret)
    case FNeg(u) => Some(u.ret)
    case IAdd(b2) => Some(b2.ret)
    case ISub(b2) => Some(b2.ret)
    case FAdd(b2) => Some(b2.ret)
    case FSub(b2) => Some(b2.ret)
    case FMul(b2) => Some(b2.ret)
    case FDiv(b2) => Some(b2.ret)
    case IMul(b) => Some(b.ret)
    case IDiv(b) => Some(b.ret)
    case Ret(_) => None
  }

  /** The registers an operand reads: none for a constant. */
  function RegsOf(op: Operand): seq<nat>
  {
    if op.Reg? then [op.r] else []
  }

  /** The registers an instruction reads, in operand order. */
  function Uses(inst: Inst): seq<nat>
  {
    match inst
    case Integer(_, _) => []
    case Float(_, _) => []
    case IntAsFloat(u) => RegsOf(u.src)
    case INeg(u) => RegsOf(u.src)
    case FNeg(u) => RegsOf(u.src)
    case IAdd(b2) => RegsOf(b2.lhs) + RegsOf(b2.rhs)
    case ISub(b2) => RegsOf(b2.lhs) + RegsOf(b2.rhs)
    case FAdd(b2) => RegsOf(b2.lhs) + RegsOf(b2.rhs)
    case FSub(b2) => RegsOf(b2.lhs) + RegsOf(b2.rhs)
    case FMul(b2) => RegsOf(b2.lhs) + RegsOf(b2.rhs)
    case FDiv(b2) => RegsOf(b2.lhs) + RegsOf(b2.rhs)
    case IMul(b) => [b.lhs, b.rhs]
    case IDiv(b) => [b.lhs, b.rhs]
    case Ret(r) => [r]
  }

  /** The type an instruction's operands have: integers for the integer
      operations and the conversion, floats for the float operations. */
  function OperandType(inst: Inst): Type
  {
    match inst
    case FNeg(_) => Type.Float
    case FAdd(_) => Type.Float
    case FSub(_) => Type.Float
    case FMul(_) => Type.Float
    case FDiv(_) => Type.Float
    case _ => Type.Integer
  }

  /** The type each kind of instruction gives its result. */
  function ResultType(inst: Inst): Option<Type>
  {
    match inst
    case Integer(_, _) => Some(Type.Integer)
    case INeg(_) => Some(Type.Integer)
    case IAdd(_) => Some(Type.Integer)
    case ISub(_) => Some(Type.Integer)
    case IMul(_) => Some(Type.Integer)
    case IDiv(_) => Some(Type.Integer)
    case Float(_, _) => Some(Type.Float)
    case IntAsFloat(_) => Some(Type.Float)
    case FNeg(_) => Some(Type.Float)
    case FAdd(_) => Some(Type.Float)
    case FSub(_) => Some(Type.Float)
    case FMul(_) => Some(Type.Float)
    case FDiv(_) => Some(Type.Float)
    case Ret(_) => None
  }

  /** Instruction k defines register k with the type its kind gives, and
      reads only earlier registers, never mixing integers and floats: the
      integer operations read integers, the float operations read floats,
      and the conversion reads an integer. */
  predicate InstOk(inst: Inst, k: nat, tys: seq<Type>)
  {
    k < |tys| && Def(inst) == Some(k) && ResultType(inst) == Some(tys[k]) &&
    match inst
    case Integer(_, _) => true
    case Float(_, _) => true
    case IntAsFloat(u) => OperandOk(u.src, k, tys, Type.Integer)
    case INeg(u) => OperandOk(u.src, k, tys, Type.Integer)
    case FNeg(u) => OperandOk(u.src, k, tys, Type.Float)
    case IAdd(b2) => OperandOk(b2.lhs, k, tys, Type.Integer) && OperandOk(b2.rhs, k, tys, Type.Integer)
    case ISub(b2) => OperandOk(b2.lhs, k, tys, Type.Integer) && OperandOk(b2.rhs, k, tys, Type.Integer)
    case IMul(b) => OperandOk(Reg(b.lhs), k, tys, Type.Integer) && OperandOk(Reg(b.rhs), k, tys, Type.Integer)
    case IDiv(b) => OperandOk(Reg(b.lhs), k, tys, Type.Integer) && OperandOk(Reg(b.rhs), k, tys, Type.Integer)
    case FAdd(b2) => OperandOk(b2.lhs, k, tys, Type.Float) && OperandOk(b2.rhs, k, tys, Type.Float)
    case FSub(b2) => OperandOk(b2.lhs, k, tys, Type.Float) && OperandOk(b2.rhs, k, tys, Type.Float)
    case FMul(b2) => OperandOk(b2.lhs, k, tys, Type.Float) && OperandOk(b2.rhs, k, tys, Type.Float)
    case FDiv(b2) => OperandOk(b2.lhs, k, tys, Type.Float) && OperandOk(b2.rhs, k, tys, Type.Float)
    case Ret(_) => false
  }

  /** The body of an HIR function under construction: one instruction per
      register, each well formed. */
  predicate WellFormed(insts: seq<Inst>, tys: seq<Type>)
  {
    |insts| == |tys| && forall k :: 0 <= k < |insts| ==> InstOk(insts[k], k, tys)
  }

  /** A finished HIR function: a well-formed body followed by one `Ret` of
      a register the body defines. */
  predicate Complete(insts: seq<Inst>, tys: seq<Type>)
  {
    |insts| == |tys| + 1 && WellFormed(insts[..|tys|], tys) &&
    insts[|tys|].Ret? && insts[|tys|].reg < |tys|
  }

  lemma InstOkAppend(inst: Inst, k: nat, tys: seq<Type>, t: Type)
    requires InstOk(inst, k, tys)
    ensures InstOk(inst, k, tys + [t])
  {
    assert forall j :: 0 <= j < |tys| ==> (tys + [t])[j] == tys[j];
  }

  /** Appending a well-formed instruction for the next register keeps the
      body well formed. */
  lemma WellFormedAppend(insts: seq<Inst>, tys: seq<Type>, inst: Inst, t: Type)
    requires WellFormed(insts, tys)
    requires InstOk(inst, |tys|, tys + [t])
    ensures WellFormed(insts + [inst], tys + [t])
  {
    forall k | 0 <= k < |insts|
      ensures InstOk((insts + [inst])[k], k, tys + [t])
    {
      InstOkAppend(insts[k], k, tys, t);
    }
  }

  /** Each register is defined by exactly one instruction, and every
      register an instruction reads is defined by an earlier one and has
      the type the instruction's kind expects. */
  lemma DefinitionsPrecedeUses(insts: seq<Inst>, tys: seq<Type>, j: nat, k: nat)
    requires WellFormed(insts, tys)
    requires j < |insts| && k < |insts|
    ensures Def(insts[j]) == Def(insts[k]) ==> j == k
    ensures forall r :: r in Uses(insts[k]) ==> r < k && tys[r] == OperandType(insts[k])
  {
    assert InstOk(insts[j], j, tys);
    var inst := insts[k];
    assert InstOk(inst, k, tys);
    forall r | r in Uses(inst)
      ensures r < k && tys[r] == OperandType(inst)
    {
      match inst
      case IntAsFloat(u) => assert OperandOk(u.src, k, tys, Type.Integer);
      case INeg(u) => assert OperandOk(u.src, k, tys, Type.Integer);
      case FNeg(u) => assert OperandOk(u.src, k, tys, Type.Float);
      case IAdd(b2) => assert r in RegsOf(b2.lhs) || r in RegsOf(b2.rhs);
      case ISub(b2) => assert r in RegsOf(b2.lhs) || r in RegsOf(b2.rhs);
      case FAdd(b2) => assert r in RegsOf(b2.lhs) || r in RegsOf(b2.rhs);
      case FSub(b2) => assert r in RegsOf(b2.lhs) || r in RegsOf(b2.rhs);
      case FMul(b2) => assert r in RegsOf(b2.lhs) || r in RegsOf(b2.rhs);
      case FDiv(b2) => assert r in RegsOf(b2.lhs) || r in RegsOf(b2.rhs);
      case IMul(b) => assert r == b.lhs || r == b.rhs;
      case IDiv(b) => assert r == b.lhs || r == b.rhs;
    }
  }

  // ---------------------------------------------------------------------
  // Reference facts about expressions
  // ---------------------------------------------------------------------

  /** Whether a float literal occurs anywhere in e. */
  predicate HasFloat(e: Expr)
  {
    match e
    case Integer(_) => false
    case Float(_) => true
    case Neg(x) => HasFloat(x)
    case Add(l, r) => HasFloat(l) || HasFloat(r)
    case Sub(l, r) => HasFloat(l) || HasFloat(r)
    case Mul(l, r) => HasFloat(l) || HasFloat(r)
    case Div(l, r) => HasFloat(l) || HasFloat(r)
  }

  function TypeOf(e: Expr): Type
  {
    if HasFloat(e) then Type.Float else Type.Integer
  }

  /** Whether e negates the i32 literal -2^31, whose folding `-i`
      overflows i32 (a panic in a debug build). */
  predicate NegatesI32Min(e: Expr)
  {
    match e
    case Integer(_) => false
    case Float(_) => false
    case Neg(x) => x == Expr.Integer(I32_MIN) || NegatesI32Min(x)
    case Add(l, r) => NegatesI32Min(l) || NegatesI32Min(r)
    case Sub(l, r) => NegatesI32Min(l) || NegatesI32Min(r)
    case Mul(l, r) => NegatesI32Min(l) || NegatesI32Min(r)
    case Div(l, r) => NegatesI32Min(l) || NegatesI32Min(r)
  }

  function Size(e: Expr): nat
  {
    match e
    case Integer(_) => 1
    case Float(_) => 1
    case Neg(x) => 1 + Size(x)
    case Add(l, r) => 1 + Size(l) + Size(r)
    case Sub(l, r) => 1 + Size(l) + Size(r)
    case Mul(l, r) => 1 + Size(l) + Size(r)
    case Div(l, r) => 1 + Size(l) + Size(r)
  }

  function MkIArith2(op: Arith, b2: Binop2): Inst
    requires op == OpAdd || op == OpSub
  {
    if op == OpAdd then IAdd(b2) else ISub(b2)
  }

  function MkIArith(op: Arith, b: Binop): Inst
    requires op == OpMul || op == OpDiv
  {
    if op == OpMul then IMul(b) else IDiv(b)
  }

  function MkFArith(op: Arith, b2: Binop2): Inst
  {
    match op
    case OpAdd => FAdd(b2)
    case OpSub => FSub(b2)
    case OpMul => FMul(b2)
    case OpDiv => FDiv(b2)
  }

  // ---------------------------------------------------------------------
  // The builder
  // ---------------------------------------------------------------------

  class HirContext {
    var insts: seq<Inst>
    /** The recorded type of each SSA register (`reginfo`). */
    var regTypes: seq<Type>

    predicate Valid()
      reads this
    {
      WellFormed(insts, regTypes)
    }

    constructor ()
      ensures insts == [] && regTypes == []
      ensures Valid()
    {
      insts := [];
      regTypes := [];
    }

    /** `register_num`: the number of SSA registers defined so far. */
    function RegisterNum(): (n: nat)
      reads this
      ensures n == |regTypes|
      ensures Valid() ==> n == |insts|
    {
      |regTypes|
    }

    /** `add_assign`: the new register is the old register count; the
        instruction and its type are appended, and a well-formed
        instruction for that register keeps the body well formed. */
    method AddAssign(inst: Inst, ty: Type) returns (ret: nat)
      modifies this
      ensures ret == old(|regTypes|)
      ensures regTypes == old(regTypes) + [ty]
      ensures insts == old(insts) + [inst]
      ensures old(Valid()) && InstOk(inst, ret, regTypes) ==> Valid()
    {
      ret := |regTypes|;
      if WellFormed(insts, regTypes) && InstOk(inst, ret, regTypes + [ty]) {
        WellFormedAppend(insts, regTypes, inst, ty);
      }
      regTypes := regTypes + [ty];
      insts := insts + [inst];
    }

    method NewInteger(i: Int32) returns (ret: nat)
      modifies this
      ensures ret == old(|regTypes|)
      ensures regTypes == old(regTypes) + [Type.Integer]
      ensures insts == old(insts) + [Inst.Integer(ret, i)]
      ensures old(Valid()) ==> Valid()
    {
      ret := AddAssign(Inst.Integer(|regTypes|, i), Type.Integer);
    }

    method NewFloat(f: F64) returns (ret: nat)
      modifies this
      ensures ret == old(|regTypes|)
      ensures regTypes == old(regTypes) + [Type.Float]
      ensures insts == old(insts) + [Inst.Float(ret, f)]
      ensures old(Valid()) ==> Valid()
    {
      ret := AddAssign(Inst.Float(|regTypes|, f), Type.Float);
    }

    /** `new_as_float`: convert an integer register. */
    method NewAsFloat(src: nat) returns (ret: nat)
      modifies this
      ensures ret == old(|regTypes|)
      ensures regTypes == old(regTypes) + [Type.Float]
      ensures insts == old(insts) + [IntAsFloat(Unop(ret, Reg(src)))]
      ensures old(Valid()) && OperandOk(Reg(src), ret, old(regTypes), Type.Integer) ==> Valid()
    {
      ret := AddAssign(IntAsFloat(Unop(|regTypes|, Reg(src))), Type.Float);
    }

    /** `new_as_float_imm`: convert an integer immediate. */
    method NewAsFloatImm(src: Int32) returns (ret: nat)
      modifies this
      ensures ret == old(|regTypes|)
      ensures regTypes == old(regTypes) + [Type.Float]
      ensures insts == old(insts) + [IntAsFloat(Unop(ret, Const(Const.Integer(src))))]
      ensures old(Valid()) ==> Valid()
    {
      ret := AddAssign(IntAsFloat(Unop(|regTypes|, Const(Const.Integer(src)))), Type.Float);
    }

    method NewINeg(src: nat) returns (ret: nat)
      modifies this
      ensures ret == old(|regTypes|)
      ensures regTypes == old(regTypes) + [Type.Integer]
      ensures insts == old(insts) + [INeg(Unop(ret, Reg(src)))]
      ensures old(Valid()) && OperandOk(Reg(src), ret, old(regTypes), Type.Integer) ==> Valid()
    {
      ret := AddAssign(INeg(Unop(|regTypes|, Reg(src))), Type.Integer);
    }

    method NewFNeg(src: nat) returns (ret: nat)
      modifies this
      ensures ret == old(|regTypes|)
      ensures regTypes == old(regTypes) + [Type.Float]
      ensures insts == old(insts) + [FNeg(Unop(ret, Reg(src)))]
      ensures old(Valid()) && OperandOk(Reg(src), ret, old(regTypes), Type.Float) ==> Valid()
    {
      ret := AddAssign(FNeg(Unop(|regTypes|, Reg(src))), Type.Float);
    }

    /** `new_iadd` and `new_isub`: integer add/sub on registers or
        immediates. */
    method NewIArith2(op: Arith, lhs: Operand, rhs: Operand) returns (ret: nat)
      requires op == OpAdd || op == OpSub
      modifies this
      ensures ret == old(|regTypes|)
      ensures regTypes == old(regTypes) + [Type.Integer]
      ensures insts == old(insts) + [MkIArith2(op, Binop2(ret, lhs, rhs))]
      ensures (old(Valid()) && OperandOk(lhs, ret, old(regTypes), Type.Integer)
               && OperandOk(rhs, ret, old(regTypes), Type.Integer)) ==> Valid()
    {
      ghost var tys := regTypes + [Type.Integer];
      assert OperandOk(lhs, |regTypes|, regTypes, Type.Integer) ==> OperandOk(lhs, |regTypes|, tys, Type.Integer);
      assert OperandOk(rhs, |regTypes|, regTypes, Type.Integer) ==> OperandOk(rhs, |regTypes|, tys, Type.Integer);
      ret := AddAssign(MkIArith2(op, Binop2(|regTypes|, lhs, rhs)), Type.Integer);
    }

    /** `new_imul` and `new_idiv`: integer mul/div, registers only. */
    method NewIArith(op: Arith, lhs: nat, rhs: nat) returns (ret: nat)
      requires op == OpMul || op == OpDiv
      modifies this
      ensures ret == old(|regTypes|)
      ensures regTypes == old(regTypes) + [Type.Integer]
      ensures insts == old(insts) + [MkIArith(op, Binop(ret, lhs, rhs))]
      ensures (old(Valid()) && OperandOk(Reg(lhs), ret, old(regTypes), Type.Integer)
               && OperandOk(Reg(rhs), ret, old(regTypes), Type.Integer)) ==> Valid()
    {
      ret := AddAssign(MkIArith(op, Binop(|regTypes|, lhs, rhs)), Type.Integer);
    }

    /** `new_fadd`, `new_fsub`, `new_fmul`, `new_fdiv`. */
    method NewFArith(op: Arith, lhs: Operand, rhs: Operand) returns (ret: nat)
      modifies this
      ensures ret == old(|regTypes|)
      ensures regTypes == old(regTypes) + [Type.Float]
      ensures insts == old(insts) + [MkFArith(op, Binop2(ret, lhs, rhs))]
      ensures (old(Valid()) && OperandOk(lhs, ret, old(regTypes), Type.Float)
               && OperandOk(rhs, ret, old(regTypes), Type.Float)) ==> Valid()
    {
      ghost var tys := regTypes + [Type.Float];
      assert OperandOk(lhs, |regTypes|, regTypes, Type.Float) ==> OperandOk(lhs, |regTypes|, tys, Type.Float);
      assert OperandOk(rhs, |regTypes|, regTypes, Type.Float) ==> OperandOk(rhs, |regTypes|, tys, Type.Float);
      ret := AddAssign(MkFArith(op, Binop2(|regTypes|, lhs, rhs)), Type.Float);
    }

    /** `new_ret`: appends the return without defining a register. */
    method NewRet(lhs: nat)
      modifies this
      ensures regTypes == old(regTypes)
      ensures insts == old(insts) + [Ret(lhs)]
    {
      insts := insts + [Ret(lhs)];
    }

    /** `gen`: lower e, returning the register that holds its value.
        `None` is the panic on negating the i32 literal -2^31. On success
        the body stays well formed and only grows, the result is the last
        register defined, and its type is Float exactly when e contains a
        float literal. A negated literal folds into one constant. */
    method Gen(e: Expr) returns (r: Option<nat>)
      requires Valid()
      modifies this
      decreases Size(e), 2
      ensures r.Some? <==> !NegatesI32Min(e)
      ensures r.Some? ==> Valid() && old(insts) <= insts && old(regTypes) <= regTypes
      ensures r.Some? ==> r.value == |regTypes| - 1 && old(|regTypes|) <= r.value
      ensures r.Some? ==> regTypes[r.value] == TypeOf(e)
      ensures r.Some? && e.Neg? && e.e.Integer? ==>
                insts == old(insts) + [Inst.Integer(r.value, -e.e.i)]
      ensures r.Some? && e.Neg? && e.e.Float? ==>
                insts == old(insts) + [Inst.Float(r.value, FloatNeg(e.e.f))]
    {
      match e
      case Integer(i) =>
        var x := NewInteger(i);
        r := Some(x);
      case Float(f) =>
        var x := NewFloat(f);
        r := Some(x);
      case Neg(inner) =>
        if inner.Integer? {
          if inner.i == I32_MIN {
            return None;
          }
          var x := NewInteger(-inner.i);
          assert !HasFloat(e);
          return Some(x);
        } else if inner.Float? {
          var x := NewFloat(FloatNeg(inner.f));
          assert HasFloat(e);
          return Some(x);
        }
        var src := Gen(inner);
        if src.None? {
          return None;
        }
        var x;
        match regTypes[src.value] {
          case Integer =>
            x := NewINeg(src.value);
          case Float =>
            x := NewFNeg(src.value);
        }
        r := Some(x);
      case Add(lhs, rhs) =>
        r := GenAddSub(OpAdd, lhs, rhs);
      case Sub(lhs, rhs) =>
        r := GenAddSub(OpSub, lhs, rhs);
      case Mul(lhs, rhs) =>
        r := GenMulDiv(OpMul, lhs, rhs);
      case Div(lhs, rhs) =>
        r := GenMulDiv(OpDiv, lhs, rhs);
    }

    /** The `Add` and `Sub` arms of `gen`: a literal operand becomes an
        immediate (an integer literal beside a float is converted with
        `new_as_float_imm`); otherwise both sides are lowered and an integer
        side meeting a float side is converted with `new_as_float`. */
    method GenAddSub(op: Arith, lhs: Expr, rhs: Expr) returns (r: Option<nat>)
      requires op == OpAdd || op == OpSub
      requires Valid()
      modifies this
      decreases Size(lhs) + Size(rhs) + 1, 1
      ensures r.Some? <==> !NegatesI32Min(lhs) && !NegatesI32Min(rhs)
      ensures r.Some? ==> Valid() && old(insts) <= insts && old(regTypes) <= regTypes
      ensures r.Some? ==> r.value == |regTypes| - 1 && old(|regTypes|) <= r.value
      ensures r.Some? ==> regTypes[r.value] == (if HasFloat(lhs) || HasFloat(rhs) then Type.Float else Type.Integer)
    {
      if lhs.Integer? {
        r := GenIntLhs(op, lhs.i, rhs);
      } else if lhs.Float? {
        r := GenFloatLhs(op, lhs.f, rhs);
      } else {
        var l := Gen(lhs);
        if l.None? {
          return None;
        }
        var rr := Gen(rhs);
        if rr.None? {
          return None;
        }
        var x := GenMixed(op, l.value, rr.value);
        r := Some(x);
      }
    }

    /** `Add`/`Sub` with an integer literal on the left: the literal is an
        immediate; beside a float it is converted with `new_as_float_imm`. */
    method GenIntLhs(op: Arith, a: Int32, rhs: Expr) returns (r: Option<nat>)
      requires op == OpAdd || op == OpSub
      requires Valid()
      modifies this
      decreases Size(rhs) + 2, 0
      ensures r.Some? <==> !NegatesI32Min(rhs)
      ensures r.Some? ==> Valid() && old(insts) <= insts && old(regTypes) <= regTypes
      ensures r.Some? ==> r.value == |regTypes| - 1 && old(|regTypes|) <= r.value
      ensures r.Some? ==> regTypes[r.value] == TypeOf(rhs)
    {
      var x: nat;
      match rhs {
        case Float(b) =>
          var l := NewAsFloatImm(a);
          x := NewFArith(op, Reg(l), Const(Const.Float(b)));
        case Integer(b) =>
          x := NewIArith2(op, Const(Const.Integer(a)), Const(Const.Integer(b)));
        case _ =>
          var rr := Gen(rhs);
          if rr.None? {
            return None;
          }
          x := GenIntReg(op, a, rr.value);
      }
      r := Some(x);
    }

    /** An integer literal on the left of a value already in a register:
        the operation takes the register's type. */
    method GenIntReg(op: Arith, a: Int32, rr: nat) returns (x: nat)
      requires op == OpAdd || op == OpSub
      requires Valid() && rr < |regTypes|
      modifies this
      ensures Valid() && old(insts) <= insts && old(regTypes) <= regTypes
      ensures x == |regTypes| - 1 && old(|regTypes|) <= x
      ensures regTypes[x] == old(regTypes[rr])
    {
      match regTypes[rr] {
        case Integer =>
          x := NewIArith2(op, Const(Const.Integer(a)), Reg(rr));
        case Float =>
          var l := NewAsFloatImm(a);
          x := NewFArith(op, Reg(l), Reg(rr));
      }
    }

    /** `Add`/`Sub` with a float literal on the left: the literal is an
        immediate and an integer right side is converted. */
    method GenFloatLhs(op: Arith, a: F64, rhs: Expr) returns (r: Option<nat>)
      requires Valid()
      modifies this
      decreases Size(rhs) + 2, 0
      ensures r.Some? <==> !NegatesI32Min(rhs)
      ensures r.Some? ==> Valid() && old(insts) <= insts && old(regTypes) <= regTypes
      ensures r.Some? ==> r.value == |regTypes| - 1 && old(|regTypes|) <= r.value
      ensures r.Some? ==> regTypes[r.value] == Type.Float
    {
      var x: nat;
      match rhs {
        case Integer(b) =>
          var rr := NewAsFloatImm(b);
          x := NewFArith(op, Const(Const.Float(a)), Reg(rr));
        case Float(b) =>
          x := NewFArith(op, Const(Const.Float(a)), Const(Const.Float(b)));
        case _ =>
          var rr := Gen(rhs);
          if rr.None? {
            return None;
          }
          x := GenFloatReg(op, a, rr.value);
      }
      r := Some(x);
    }

    /** A float literal on the left of a value already in a register: an
        integer register is converted first. */
    method GenFloatReg(op: Arith, a: F64, rr: nat) returns (x: nat)
      requires Valid() && rr < |regTypes|
      modifies this
      ensures Valid() && old(insts) <= insts && old(regTypes) <= regTypes
      ensures x == |regTypes| - 1 && old(|regTypes|) <= x
      ensures regTypes[x] == Type.Float
    {
      match regTypes[rr] {
        case Integer =>
          var conv := NewAsFloat(rr);
          x := NewFArith(op, Const(Const.Float(a)), Reg(conv));
        case Float =>
          x := NewFArith(op, Const(Const.Float(a)), Reg(rr));
      }
    }

    /** The general arm shared by all four operators: both sides are in
        registers; integer pairs use the integer operation and any other
        pair converts its integer side first. */
    method GenMixed(op: Arith, l: nat, rr: nat) returns (x: nat)
      requires Valid() && l < rr < |regTypes|
      modifies this
      ensures Valid() && old(insts) <= insts && old(regTypes) <= regTypes
      ensures x == |regTypes| - 1 && old(|regTypes|) <= x
      ensures regTypes[x] == (if old(regTypes[l]) == Type.Float || old(regTypes[rr]) == Type.Float
                              then Type.Float else Type.Integer)
    {
      match (regTypes[l], regTypes[rr])
      case (Integer, Integer) =>
        if op == OpAdd || op == OpSub {
          x := NewIArith2(op, Reg(l), Reg(rr));
        } else {
          x := NewIArith(op, l, rr);
        }
      case (Integer, Float) =>
        var conv := NewAsFloat(l);
        x := NewFArith(op, Reg(conv), Reg(rr));
      case (Float, Integer) =>
        var conv := NewAsFloat(rr);
        x := NewFArith(op, Reg(l), Reg(conv));
      case (Float, Float) =>
        x := NewFArith(op, Reg(l), Reg(rr));
    }

    /** The `Mul` and `Div` arms of `gen`: both sides are always lowered to
        registers first. */
    method GenMulDiv(op: Arith, lhs: Expr, rhs: Expr) returns (r: Option<nat>)
      requires op == OpMul || op == OpDiv
      requires Valid()
      modifies this
      decreases Size(lhs) + Size(rhs) + 1, 1
      ensures r.Some? <==> !NegatesI32Min(lhs) && !NegatesI32Min(rhs)
      ensures r.Some? ==> Valid() && old(insts) <= insts && old(regTypes) <= regTypes
      ensures r.Some? ==> r.value == |regTypes| - 1 && old(|regTypes|) <= r.value
      ensures r.Some? ==> regTypes[r.value] == (if HasFloat(lhs) || HasFloat(rhs) then Type.Float else Type.Integer)
    {
      var l := Gen(lhs);
      if l.None? {
        return None;
      }
      var rr := Gen(rhs);
      if rr.None? {
        return None;
      }
      var x := GenMixed(op, l.value, rr.value);
      r := Some(x);
    }

    /** `from_ast`: lower e and append exactly one `Ret` of its register,
        returning that register and its type; the `Ret` defines no
        register, so the result is a complete function. */
    method FromAst(e: Expr) returns (res: Option<(nat, Type)>)
      requires Valid()
      modifies this
      ensures res.Some? <==> !NegatesI32Min(e)
      ensures res.Some? ==> Complete(insts, regTypes) && old(regTypes) <= regTypes
      ensures res.Some? ==> old(insts) <= insts && insts[|insts| - 1] == Ret(res.value.0)
      ensures res.Some? ==> res.value.0 == |regTypes| - 1 && res.value.1 == TypeOf(e)
    {
      var r := Gen(e);
      if r.None? {
        return None;
      }
      var ty := regTypes[r.value];
      ghost var body := insts;
      NewRet(r.value);
      assert insts[..|regTypes|] == body;
      res := Some((r.value, ty));
    }
  }
}
