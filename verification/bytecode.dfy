/** The two instruction sets of the bytecode generator
    (src/executor/bytecodegen.rs): the label-based `BcIr` it produces while
    walking the syntax tree, and the register-indexed `BcOp` it finally
    emits, with the register numbering that connects them. */
module Bytecode {
  import opened Base
  import Ast

  /** A register as the generator names it: `self`, a local variable, or a
      temporary on the evaluation stack. */
  datatype BcReg = SelfReg | Local(l: nat) | Temp(t: nat)

  /** A literal-pool entry. */
  datatype Literal = Fixnum(i: Int64) | FloatLit(f: F64) | BoolLit(b: bool)

  /** Branches name labels; labels are resolved to instruction indices by
      `ir_to_bytecode`. */
  datatype BcIr =
    | Br(dest: nat)
    | CondBr(cond: BcReg, dest: nat)
    | CondNotBr(cond: BcReg, dest: nat)
    | Integer(reg: BcReg, i: Int32)
    | Const(reg: BcReg, id: nat)
    | Nil(reg: BcReg)
    | Neg(dst: BcReg, src: BcReg)
    | Add(dst: BcReg, lhs: BcReg, rhs: BcReg)
    | Addri(dst: BcReg, lhs: BcReg, imm: Int16)
    | Sub(dst: BcReg, lhs: BcReg, rhs: BcReg)
    | Subri(dst: BcReg, lhs: BcReg, imm: Int16)
    | Mul(dst: BcReg, lhs: BcReg, rhs: BcReg)
    | Div(dst: BcReg, lhs: BcReg, rhs: BcReg)
    | Cmp(kind: CmpKind, dst: BcReg, lhs: BcReg, rhs: BcReg)
    | Cmpri(kind: CmpKind, dst: BcReg, lhs: BcReg, imm: Int16)
    | Ret(reg: BcReg)
    | Mov(dst: BcReg, src: BcReg)
    /** A call: arguments in `len` consecutive temporaries from `arg`. */
    | FnCall(callee: Ast.Ident, ret: Option<BcReg>, arg: nat, len: nat)
    | MethodDef(name: Ast.Ident, func: nat)

  /** The emitted bytecode: registers are frame slot indices, branch
      targets are instruction indices. */
  datatype BcOp =
    | Br(dest: nat)
    | CondBr(cond: nat, dest: nat)
    | CondNotBr(cond: nat, dest: nat)
    | Integer(reg: nat, i: Int32)
    | Const(reg: nat, id: nat)
    | Nil(reg: nat)
    | Neg(dst: nat, src: nat)
    | Add(dst: nat, lhs: nat, rhs: nat)
    | Addri(dst: nat, lhs: nat, imm: Int16)
    | Sub(dst: nat, lhs: nat, rhs: nat)
    | Subri(dst: nat, lhs: nat, imm: Int16)
    | Mul(dst: nat, lhs: nat, rhs: nat)
    | Div(dst: nat, lhs: nat, rhs: nat)
    | Eq(dst: nat, lhs: nat, rhs: nat)
    | Ne(dst: nat, lhs: nat, rhs: nat)
    | Gt(dst: nat, lhs: nat, rhs: nat)
    | Ge(dst: nat, lhs: nat, rhs: nat)
    | Lt(dst: nat, lhs: nat, rhs: nat)
    | Le(dst: nat, lhs: nat, rhs: nat)
    | Eqri(dst: nat, lhs: nat, imm: Int16)
    | Neri(dst: nat, lhs: nat, imm: Int16)
    | Gtri(dst: nat, lhs: nat, imm: Int16)
    | Geri(dst: nat, lhs: nat, imm: Int16)
    | Ltri(dst: nat, lhs: nat, imm: Int16)
    | Leri(dst: nat, lhs: nat, imm: Int16)
    | Ret(reg: nat)
    | Mov(dst: nat, src: nat)
    /** `ret` is `u16::MAX` when the result is discarded. */
    | FnCall(callee: Ast.Ident, ret: nat, arg: nat, len: nat)
    | MethodDef(name: Ast.Ident, func: nat)

  // ---------------------------------------------------------------------
  // Register numbering
  // ---------------------------------------------------------------------

  /** `get_index`: slot 0 is `self`, then the locals, then the
      temporaries. */
  function GetIndex(r: BcReg, nlocals: nat): (idx: nat)
    ensures idx == 0 <==> r.SelfReg?
    ensures r.Local? && r.l < nlocals ==> 1 <= idx < 1 + nlocals
    ensures r.Temp? ==> 1 + nlocals <= idx
  {
    match r
    case SelfReg => 0
    case Temp(i) => 1 + nlocals + i
    case Local(i) => 1 + i
  }

  /** `total_reg_num`: the frame's slot count. */
  function TotalRegNum(nlocals: nat, regNum: nat): nat
  {
    1 + nlocals + regNum
  }

  /** A register that names an existing local or temporary. */
  predicate RegOk(r: BcReg, nlocals: nat, regNum: nat)
  {
    match r
    case SelfReg => true
    case Local(i) => i < nlocals
    case Temp(i) => i < regNum
  }

  /** Distinct registers that name existing slots get distinct indices, and
      every such index lies inside the frame. */
  lemma GetIndexInjective(a: BcReg, b: BcReg, nlocals: nat, regNum: nat)
    requires RegOk(a, nlocals, regNum) && RegOk(b, nlocals, regNum)
    ensures GetIndex(a, nlocals) == GetIndex(b, nlocals) ==> a == b
    ensures GetIndex(a, nlocals) < TotalRegNum(nlocals, regNum)
  {
  }

  // ---------------------------------------------------------------------
  // Well-formed IR
  // ---------------------------------------------------------------------

  /** Label and literal references lie within their tables. */
  predicate RefsOk(inst: BcIr, nlabels: nat, nliterals: nat)
  {
    match inst
    case Br(d) => d < nlabels
    case CondBr(_, d) => d < nlabels
    case CondNotBr(_, d) => d < nlabels
    case Const(_, id) => id < nliterals
    case _ => true
  }

  /** Every register operand names an existing slot, and a call's argument
      window lies within the temporaries. */
  predicate RegsOk(inst: BcIr, nlocals: nat, regNum: nat)
  {
    match inst
    case Br(_) => true
    case CondBr(c, _) => RegOk(c, nlocals, regNum)
    case CondNotBr(c, _) => RegOk(c, nlocals, regNum)
    case Integer(r, _) => RegOk(r, nlocals, regNum)
    case Const(r, _) => RegOk(r, nlocals, regNum)
    case Nil(r) => RegOk(r, nlocals, regNum)
    case Neg(d, s) => RegOk(d, nlocals, regNum) && RegOk(s, nlocals, regNum)
    case Add(d, l, r) => RegOk(d, nlocals, regNum) && RegOk(l, nlocals, regNum) && RegOk(r, nlocals, regNum)
    case Addri(d, l, _) => RegOk(d, nlocals, regNum) && RegOk(l, nlocals, regNum)
    case Sub(d, l, r) => RegOk(d, nlocals, regNum) && RegOk(l, nlocals, regNum) && RegOk(r, nlocals, regNum)
    case Subri(d, l, _) => RegOk(d, nlocals, regNum) && RegOk(l, nlocals, regNum)
    case Mul(d, l, r) => RegOk(d, nlocals, regNum) && RegOk(l, nlocals, regNum) && RegOk(r, nlocals, regNum)
    case Div(d, l, r) => RegOk(d, nlocals, regNum) && RegOk(l, nlocals, regNum) && RegOk(r, nlocals, regNum)
    case Cmp(_, d, l, r) => RegOk(d, nlocals, regNum) && RegOk(l, nlocals, regNum) && RegOk(r, nlocals, regNum)
    case Cmpri(_, d, l, _) => RegOk(d, nlocals, regNum) && RegOk(l, nlocals, regNum)
    case Ret(r) => RegOk(r, nlocals, regNum)
    case Mov(d, s) => RegOk(d, nlocals, regNum) && RegOk(s, nlocals, regNum)
    case FnCall(_, ret, arg, len) => (ret.Some? ==> RegOk(ret.value, nlocals, regNum)) && arg + len <= regNum
    case MethodDef(_, _) => true
  }

  // ---------------------------------------------------------------------
  // ir_to_bytecode
  // ---------------------------------------------------------------------

  /** A label's position; an unknown or unbound label is a panic. */
  function Target(labels: seq<Option<nat>>, l: nat): Option<nat>
  {
    if l < |labels| then labels[l] else None
  }

  function CmpOp(kind: CmpKind, dst: nat, lhs: nat, rhs: nat): BcOp
  {
    match kind
    case Eq => BcOp.Eq(dst, lhs, rhs)
    case Ne => BcOp.Ne(dst, lhs, rhs)
    case Gt => BcOp.Gt(dst, lhs, rhs)
    case Ge => BcOp.Ge(dst, lhs, rhs)
    case Lt => BcOp.Lt(dst, lhs, rhs)
    case Le => BcOp.Le(dst, lhs, rhs)
  }

  function CmpriOp(kind: CmpKind, dst: nat, lhs: nat, imm: Int16): BcOp
  {
    match kind
    case Eq => BcOp.Eqri(dst, lhs, imm)
    case Ne => BcOp.Neri(dst, lhs, imm)
    case Gt => BcOp.Gtri(dst, lhs, imm)
    case Ge => BcOp.Geri(dst, lhs, imm)
    case Lt => BcOp.Ltri(dst, lhs, imm)
    case Le => BcOp.Leri(dst, lhs, imm)
  }

  /** The bytecode for one IR instruction. */
  function Lower(inst: BcIr, labels: seq<Option<nat>>, n: nat): Option<BcOp>
  {
    match inst
    case Br(l) =>
      var d :- Target(labels, l);
      Some(BcOp.Br(d))
    case CondBr(r, l) =>
      var d :- Target(labels, l);
      Some(BcOp.CondBr(GetIndex(r, n), d))
    case CondNotBr(r, l) =>
      var d :- Target(labels, l);
      Some(BcOp.CondNotBr(GetIndex(r, n), d))
    case Integer(r, i) => Some(BcOp.Integer(GetIndex(r, n), i))
    case Const(r, id) => Some(BcOp.Const(GetIndex(r, n), id))
    case Nil(r) => Some(BcOp.Nil(GetIndex(r, n)))
    case Neg(d, s) => Some(BcOp.Neg(GetIndex(d, n), GetIndex(s, n)))
    case Add(d, l, r) => Some(BcOp.Add(GetIndex(d, n), GetIndex(l, n), GetIndex(r, n)))
    case Addri(d, l, i) => Some(BcOp.Addri(GetIndex(d, n), GetIndex(l, n), i))
    case Sub(d, l, r) => Some(BcOp.Sub(GetIndex(d, n), GetIndex(l, n), GetIndex(r, n)))
    case Subri(d, l, i) => Some(BcOp.Subri(GetIndex(d, n), GetIndex(l, n), i))
    case Mul(d, l, r) => Some(BcOp.Mul(GetIndex(d, n), GetIndex(l, n), GetIndex(r, n)))
    case Div(d, l, r) => Some(BcOp.Div(GetIndex(d, n), GetIndex(l, n), GetIndex(r, n)))
    case Cmp(k, d, l, r) => Some(CmpOp(k, GetIndex(d, n), GetIndex(l, n), GetIndex(r, n)))
    case Cmpri(k, d, l, i) => Some(CmpriOp(k, GetIndex(d, n), GetIndex(l, n), i))
    case Ret(r) => Some(BcOp.Ret(GetIndex(r, n)))
    case Mov(d, s) => Some(BcOp.Mov(GetIndex(d, n), GetIndex(s, n)))
    case FnCall(id, ret, arg, len) =>
      Some(BcOp.FnCall(id, if ret.Some? then GetIndex(ret.value, n) else U16_MAX, GetIndex(Temp(arg), n), len))
    case MethodDef(name, func) => Some(BcOp.MethodDef(name, func))
  }

  /** `ir_to_bytecode`: one instruction per IR instruction, in order; the
      whole translation panics as soon as one label is unbound. */
  function ToBytecode(ir: seq<BcIr>, labels: seq<Option<nat>>, n: nat): (bc: Option<seq<BcOp>>)
    ensures bc.Some? <==> forall i :: 0 <= i < |ir| ==> Lower(ir[i], labels, n).Some?
    ensures bc.Some? ==> |bc.value| == |ir|
    ensures bc.Some? ==> forall i :: 0 <= i < |ir| ==> bc.value[i] == Lower(ir[i], labels, n).value
  {
    if ir == [] then Some([])
    else
      var init := ToBytecode(ir[..|ir| - 1], labels, n);
      var last := Lower(ir[|ir| - 1], labels, n);
      assert forall i :: 0 <= i < |ir| - 1 ==> ir[..|ir| - 1][i] == ir[i];
      if init.None? || last.None? then None
      else Some(init.value + [last.value])
  }

  /** The slot indices an instruction touches all lie inside a frame of
      `total` slots (a discarded call result is `u16::MAX`, not a slot). */
  predicate IndicesBelow(op: BcOp, total: nat)
  {
    match op
    case Br(_) => true
    case CondBr(c, _) => c < total
    case CondNotBr(c, _) => c < total
    case Integer(r, _) => r < total
    case Const(r, _) => r < total
    case Nil(r) => r < total
    case Neg(d, s) => d < total && s < total
    case Add(d, l, r) => d < total && l < total && r < total
    case Addri(d, l, _) => d < total && l < total
    case Sub(d, l, r) => d < total && l < total && r < total
    case Subri(d, l, _) => d < total && l < total
    case Mul(d, l, r) => d < total && l < total && r < total
    case Div(d, l, r) => d < total && l < total && r < total
    case Eq(d, l, r) => d < total && l < total && r < total
    case Ne(d, l, r) => d < total && l < total && r < total
    case Gt(d, l, r) => d < total && l < total && r < total
    case Ge(d, l, r) => d < total && l < total && r < total
    case Lt(d, l, r) => d < total && l < total && r < total
    case Le(d, l, r) => d < total && l < total && r < total
    case Eqri(d, l, _) => d < total && l < total
    case Neri(d, l, _) => d < total && l < total
    case Gtri(d, l, _) => d < total && l < total
    case Geri(d, l, _) => d < total && l < total
    case Ltri(d, l, _) => d < total && l < total
    case Leri(d, l, _) => d < total && l < total
    case Ret(r) => r < total
    case Mov(d, s) => d < total && s < total
    case FnCall(_, ret, arg, len) => (ret == U16_MAX || ret < total) && arg + len <= total
    case MethodDef(_, _) => true
  }

  /** With every label bound to a position and every reference in range,
      `ir_to_bytecode` cannot panic; branches land on those positions; with
      every register in range, every slot index lies inside the frame. */
  lemma ToBytecodeSucceeds(ir: seq<BcIr>, labels: seq<Option<nat>>, nlocals: nat, regNum: nat, nliterals: nat)
    requires forall l :: 0 <= l < |labels| ==> labels[l].Some?
    requires forall i :: 0 <= i < |ir| ==> RefsOk(ir[i], |labels|, nliterals)
    ensures ToBytecode(ir, labels, nlocals).Some?
    ensures forall i :: 0 <= i < |ir| && ir[i].Br? ==>
      ToBytecode(ir, labels, nlocals).value[i] == BcOp.Br(labels[ir[i].dest].value)
    ensures (forall i :: 0 <= i < |ir| ==> RegsOk(ir[i], nlocals, regNum)) ==>
      forall i :: 0 <= i < |ir| ==> IndicesBelow(ToBytecode(ir, labels, nlocals).value[i], TotalRegNum(nlocals, regNum))
  {
    forall i | 0 <= i < |ir|
      ensures Lower(ir[i], labels, nlocals).Some?
    {
      assert RefsOk(ir[i], |labels|, nliterals);
    }
    if forall i :: 0 <= i < |ir| ==> RegsOk(ir[i], nlocals, regNum) {
      forall i | 0 <= i < |ir|
        ensures IndicesBelow(Lower(ir[i], labels, nlocals).value, TotalRegNum(nlocals, regNum))
      {
        LowerIndicesBelow(ir[i], labels, nlocals, regNum);
      }
    }
  }

  lemma LowerIndicesBelow(inst: BcIr, labels: seq<Option<nat>>, nlocals: nat, regNum: nat)
    requires RegsOk(inst, nlocals, regNum) && Lower(inst, labels, nlocals).Some?
    ensures IndicesBelow(Lower(inst, labels, nlocals).value, TotalRegNum(nlocals, regNum))
  {
    match inst {
      case Cmp(k, d, l, r) =>
        GetIndexInjective(d, d, nlocals, regNum);
        GetIndexInjective(l, l, nlocals, regNum);
        GetIndexInjective(r, r, nlocals, regNum);
      case Cmpri(k, d, l, i) =>
        GetIndexInjective(d, d, nlocals, regNum);
        GetIndexInjective(l, l, nlocals, regNum);
      case FnCall(_, ret, arg, len) =>
        if ret.Some? {
          GetIndexInjective(ret.value, ret.value, nlocals, regNum);
        }
      case _ =>
    }
  }

  /** A branch lands inside the function or just past its end. */
  predicate BranchWithin(op: BcOp, n: nat)
  {
    match op
    case Br(d) => d <= n
    case CondBr(_, d) => d <= n
    case CondNotBr(_, d) => d <= n
    case _ => true
  }

  /** Labels bound to positions inside the IR give branch targets inside
      the bytecode, which has one instruction per IR instruction. */
  lemma BranchTargetsInRange(ir: seq<BcIr>, labels: seq<Option<nat>>, n: nat)
    requires forall l :: 0 <= l < |labels| && labels[l].Some? ==> labels[l].value <= |ir|
    requires ToBytecode(ir, labels, n).Some?
    ensures forall i :: 0 <= i < |ir| ==> BranchWithin(ToBytecode(ir, labels, n).value[i], |ir|)
  {
    var bc := ToBytecode(ir, labels, n).value;
    forall i | 0 <= i < |ir|
      ensures BranchWithin(bc[i], |ir|)
    {
      assert bc[i] == Lower(ir[i], labels, n).value;
    }
  }

  /** A call whose result is discarded encodes `u16::MAX` as its result
      slot; a kept result is encoded by its slot index. */
  lemma FnCallEncoding(id: Ast.Ident, ret: Option<BcReg>, arg: nat, len: nat, labels: seq<Option<nat>>, n: nat)
    ensures var op := Lower(BcIr.FnCall(id, ret, arg, len), labels, n).value;
      op.FnCall? && op.callee == id && op.arg == 1 + n + arg && op.len == len &&
      (ret.None? ==> op.ret == U16_MAX) && (ret.Some? ==> op.ret == GetIndex(ret.value, n))
  {
  }
}
