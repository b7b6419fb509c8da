/** Lowering of HIR to two-address machine IR (src/mcir.rs). Every SSA
    register is given a virtual general (integer) or float register, reusing
    the lowest-numbered free one. A binary operation writes its result over
    its left operand's register and frees the right operand's register. */
module McIr {
  import opened Base
  import Hir

  datatype McReg = GReg(g: nat) | FReg(f: nat)

  datatype GeneralOperand = Reg(r: nat) | Integer(i: Int32)
  datatype FloatOperand = Reg(r: nat) | Float(f: F64)

  datatype McInst =
    | Integer(dst: nat, i: Int32)
    | Float(dst: nat, f: F64)
    | IntAsFloat(dst: nat, src: GeneralOperand)
    | INeg(dst: nat)
    | FNeg(dst: nat)
    | IAdd(dst: nat, gsrc: GeneralOperand)
    | ISub(dst: nat, gsrc: GeneralOperand)
    | IMul(dst: nat, rsrc: nat)
    | IDiv(dst: nat, rsrc: nat)
    | FAdd(dst: nat, fsrc: FloatOperand)
    | FSub(dst: nat, fsrc: FloatOperand)
    | FMul(dst: nat, fsrc: FloatOperand)
    | FDiv(dst: nat, fsrc: FloatOperand)
    | IRet(dst: nat)
    | FRet(dst: nat)

  /** `GRegInfo` / `FRegInfo`: the SSA register a virtual register holds,
      or `None` when it is free. */
  datatype RegInfo = RegInfo(ssareg: Option<nat>)
  {
    /** `apply`: the register now holds `ssa`. */
    function Apply(ssa: nat): (r: RegInfo)
      ensures r.ssareg == Some(ssa)
    {
      RegInfo(Some(ssa))
    }

    /** `invalidate`: the register becomes free. */
    function Invalidate(): (r: RegInfo)
      ensures r.ssareg.None?
    {
      RegInfo(None)
    }
  }

  /** The whole lowering state; `None` results below stand for a panic
      (an out-of-range index, `unwrap` of `None`, `as_g`/`as_f`/`as_i`/`as_f`
      on the wrong kind). */
  datatype McState = McState(
    insts: seq<McInst>,
    gRegInfo: seq<RegInfo>,
    fRegInfo: seq<RegInfo>,
    ssaMap: seq<Option<McReg>>)

  /** The lowest index at or after `from` whose register is free, or
      |info| when there is none. */
  function FirstFreeFrom(info: seq<RegInfo>, from: nat): (i: nat)
    requires from <= |info|
    decreases |info| - from
    ensures from <= i <= |info|
    ensures forall j :: from <= j < i ==> info[j].ssareg.Some?
    ensures i < |info| ==> info[i].ssareg.None?
  {
    if from == |info| then |info|
    else if info[from].ssareg.None? then from
    else FirstFreeFrom(info, from + 1)
  }

  /** First-fit choice: every register below the result is taken, and the
      result is free or one past the end. */
  function FirstFree(info: seq<RegInfo>): (i: nat)
    ensures i <= |info|
    ensures forall j :: 0 <= j < i ==> info[j].ssareg.Some?
    ensures i < |info| ==> info[i].ssareg.None?
  {
    FirstFreeFrom(info, 0)
  }

  /** The register table after giving register i to ssa: reuse when i is
      in range, append otherwise. */
  function Take(info: seq<RegInfo>, i: nat, ssa: nat): (r: seq<RegInfo>)
    requires i <= |info|
    ensures |r| == if i < |info| then |info| else |info| + 1
    ensures r[i] == RegInfo(Some(ssa))
    ensures forall j :: 0 <= j < |info| && j != i ==> r[j] == info[j]
  {
    if i < |info| then info[i := info[i].Apply(ssa)] else info + [RegInfo(Some(ssa))]
  }

  /** `alloc_greg`: the first free general register (or a new one) now
      holds `ssa`, and the map sends `ssa` to it. */
  function AllocG(st: McState, ssa: nat): Option<(McState, nat)>
  {
    var i := FirstFree(st.gRegInfo);
    if ssa < |st.ssaMap| then
      Some((st.(gRegInfo := Take(st.gRegInfo, i, ssa), ssaMap := st.ssaMap[ssa := Some(GReg(i))]), i))
    else None
  }

  /** `alloc_freg`, the float counterpart. */
  function AllocF(st: McState, ssa: nat): Option<(McState, nat)>
  {
    var i := FirstFree(st.fRegInfo);
    if ssa < |st.ssaMap| then
      Some((st.(fRegInfo := Take(st.fRegInfo, i, ssa), ssaMap := st.ssaMap[ssa := Some(FReg(i))]), i))
    else None
  }

  /** `ssa_map[s].unwrap().as_g()`. */
  function LookupG(st: McState, s: nat): Option<nat>
  {
    if s < |st.ssaMap| && st.ssaMap[s].Some? && st.ssaMap[s].value.GReg?
    then Some(st.ssaMap[s].value.g) else None
  }

  /** `ssa_map[s].unwrap().as_f()`. */
  function LookupF(st: McState, s: nat): Option<nat>
  {
    if s < |st.ssaMap| && st.ssaMap[s].Some? && st.ssaMap[s].value.FReg?
    then Some(st.ssaMap[s].value.f) else None
  }

  function SetMap(st: McState, s: nat, r: McReg): Option<McState>
  {
    if s < |st.ssaMap| then Some(st.(ssaMap := st.ssaMap[s := Some(r)])) else None
  }

  function InvalidateG(st: McState, g: nat): Option<McState>
  {
    if g < |st.gRegInfo| then Some(st.(gRegInfo := st.gRegInfo[g := st.gRegInfo[g].Invalidate()])) else None
  }

  function InvalidateF(st: McState, f: nat): Option<McState>
  {
    if f < |st.fRegInfo| then Some(st.(fRegInfo := st.fRegInfo[f := st.fRegInfo[f].Invalidate()])) else None
  }

  function Emit(st: McState, inst: McInst): McState
  {
    st.(insts := st.insts + [inst])
  }

  function MkIArith2(op: Hir.Arith, dst: nat, src: GeneralOperand): McInst
  {
    if op == Hir.OpAdd then IAdd(dst, src) else ISub(dst, src)
  }

  function MkIArith(op: Hir.Arith, dst: nat, src: nat): McInst
  {
    if op == Hir.OpMul then IMul(dst, src) else IDiv(dst, src)
  }

  function MkFArith(op: Hir.Arith, dst: nat, src: FloatOperand): McInst
  {
    match op
    case OpAdd => FAdd(dst, src)
    case OpSub => FSub(dst, src)
    case OpMul => FMul(dst, src)
    case OpDiv => FDiv(dst, src)
  }

  /** `IAdd`/`ISub`: the four operand shapes. A register lhs is reused for
      the result; a constant lhs is loaded into a fresh register first. A
      register rhs is freed. */
  function StepIArith2(st: McState, op: Hir.Arith, b: Hir.Binop2): Option<McState>
  {
    match (b.lhs, b.rhs)
    case (Reg(l), Reg(r)) =>
      var lg :- LookupG(st, l);
      var rg :- LookupG(st, r);
      var st1 :- SetMap(st, b.ret, GReg(lg));
      var st2 :- InvalidateG(st1, rg);
      Some(Emit(st2, MkIArith2(op, lg, GeneralOperand.Reg(rg))))
    case (Reg(l), Const(c)) =>
      var lg :- LookupG(st, l);
      var st1 :- SetMap(st, b.ret, GReg(lg));
      var n :- Hir.AsI(c);
      Some(Emit(st1, MkIArith2(op, lg, GeneralOperand.Integer(n))))
    case (Const(c), Reg(r)) =>
      var n :- Hir.AsI(c);
      var a :- AllocG(st, b.ret);
      var st2 := Emit(a.0, McInst.Integer(a.1, n));
      var rg :- LookupG(st2, r);
      var st3 :- InvalidateG(st2, rg);
      Some(Emit(st3, MkIArith2(op, a.1, GeneralOperand.Reg(rg))))
    case (Const(c), Const(d)) =>
      var n :- Hir.AsI(c);
      var a :- AllocG(st, b.ret);
      var st2 := Emit(a.0, McInst.Integer(a.1, n));
      var m :- Hir.AsI(d);
      Some(Emit(st2, MkIArith2(op, a.1, GeneralOperand.Integer(m))))
  }

  /** The `float_ops!` arms for `FAdd`, `FSub`, `FMul`, `FDiv`. */
  function StepFArith(st: McState, op: Hir.Arith, b: Hir.Binop2): Option<McState>
  {
    match (b.lhs, b.rhs)
    case (Reg(l), Reg(r)) =>
      var lf :- LookupF(st, l);
      var rf :- LookupF(st, r);
      var st1 :- SetMap(st, b.ret, FReg(lf));
      var st2 :- InvalidateF(st1, rf);
      Some(Emit(st2, MkFArith(op, lf, FloatOperand.Reg(rf))))
    case (Reg(l), Const(c)) =>
      var lf :- LookupF(st, l);
      var st1 :- SetMap(st, b.ret, FReg(lf));
      var x :- Hir.AsF(c);
      Some(Emit(st1, MkFArith(op, lf, FloatOperand.Float(x))))
    case (Const(c), Reg(r)) =>
      var x :- Hir.AsF(c);
      var a :- AllocF(st, b.ret);
      var st2 := Emit(a.0, McInst.Float(a.1, x));
      var rf :- LookupF(st2, r);
      var st3 :- InvalidateF(st2, rf);
      Some(Emit(st3, MkFArith(op, a.1, FloatOperand.Reg(rf))))
    case (Const(c), Const(d)) =>
      var x :- Hir.AsF(c);
      var a :- AllocF(st, b.ret);
      var st2 := Emit(a.0, McInst.Float(a.1, x));
      var y :- Hir.AsF(d);
      Some(Emit(st2, MkFArith(op, a.1, FloatOperand.Float(y))))
  }

  /** `IMul`/`IDiv`: register operands only. */
  function StepIArith(st: McState, op: Hir.Arith, b: Hir.Binop): Option<McState>
  {
    var lg :- LookupG(st, b.lhs);
    var rg :- LookupG(st, b.rhs);
    var st1 :- SetMap(st, b.ret, GReg(lg));
    var st2 :- InvalidateG(st1, rg);
    Some(Emit(st2, MkIArith(op, lg, rg)))
  }

  /** `IntAsFloat`: a float register is allocated for the result first;
      a register source is then freed. */
  function StepIntAsFloat(st: McState, u: Hir.Unop): Option<McState>
  {
    var a :- AllocF(st, u.ret);
    match u.src
    case Const(c) =>
      var n :- Hir.AsI(c);
      Some(Emit(a.0, IntAsFloat(a.1, GeneralOperand.Integer(n))))
    case Reg(r) =>
      var rg :- LookupG(a.0, r);
      var st2 :- InvalidateG(a.0, rg);
      Some(Emit(st2, IntAsFloat(a.1, GeneralOperand.Reg(rg))))
  }

  /** `Ret`: the register's HIR type picks `IRet` or `FRet`. */
  function StepRet(st: McState, s: nat, tys: seq<Hir.Type>): Option<McState>
  {
    if s >= |tys| then None
    else match tys[s]
      case Integer =>
        var g :- LookupG(st, s);
        Some(Emit(st, IRet(g)))
      case Float =>
        var f :- LookupF(st, s);
        Some(Emit(st, FRet(f)))
  }

  /** One iteration of the `from_hir` loop, as written: `INeg` and `FNeg`
      fall into the `_ => {}` arm and change nothing. */
  function Step(st: McState, inst: Hir.Inst, tys: seq<Hir.Type>): Option<McState>
  {
    match inst
    case Integer(ssa, i) =>
      var a :- AllocG(st, ssa);
      Some(Emit(a.0, McInst.Integer(a.1, i)))
    case Float(ssa, f) =>
      var a :- AllocF(st, ssa);
      Some(Emit(a.0, McInst.Float(a.1, f)))
    case IntAsFloat(u) => StepIntAsFloat(st, u)
    case IAdd(b2) => StepIArith2(st, Hir.OpAdd, b2)
    case ISub(b2) => StepIArith2(st, Hir.OpSub, b2)
    case IMul(b) => StepIArith(st, Hir.OpMul, b)
    case IDiv(b) => StepIArith(st, Hir.OpDiv, b)
    case FAdd(b2) => StepFArith(st, Hir.OpAdd, b2)
    case FSub(b2) => StepFArith(st, Hir.OpSub, b2)
    case FMul(b2) => StepFArith(st, Hir.OpMul, b2)
    case FDiv(b2) => StepFArith(st, Hir.OpDiv, b2)
    case Ret(s) => StepRet(st, s, tys)
    case INeg(_) => Some(st)
    case FNeg(_) => Some(st)
  }

  /** The lowering of a whole instruction list, left to right. */
  function Run(st: McState, insts: seq<Hir.Inst>, tys: seq<Hir.Type>): Option<McState>
    decreases |insts|
  {
    if insts == [] then Some(st)
    else
      var prev :- Run(st, insts[..|insts| - 1], tys);
      Step(prev, insts[|insts| - 1], tys)
  }

  /** The state `from_hir` starts from: the context's own instructions and
      registers, and an SSA map of `register_num` empty entries. */
  function Start(insts: seq<McInst>, g: seq<RegInfo>, f: seq<RegInfo>, registerNum: nat): (st: McState)
    ensures |st.ssaMap| == registerNum
    ensures forall s :: 0 <= s < registerNum ==> st.ssaMap[s].None?
  {
    McState(insts, g, f, seq(registerNum, _ => None))
  }

  /** The effect of allocation: the chosen register is the lowest free one
      (or one past the end), it now records `ssa` as its owner, the map sends
      `ssa` to it, the table grows by at most one, and nothing else changes. */
  lemma AllocGEffect(st: McState, ssa: nat)
    ensures AllocG(st, ssa).Some? <==> ssa < |st.ssaMap|
    ensures AllocG(st, ssa).Some? ==>
      var (st', g) := AllocG(st, ssa).value;
      (forall j :: 0 <= j < g ==> st.gRegInfo[j].ssareg.Some?) &&
      (g < |st.gRegInfo| ==> st.gRegInfo[g].ssareg.None?) &&
      g < |st'.gRegInfo| && st'.gRegInfo[g].ssareg == Some(ssa) &&
      st'.ssaMap[ssa] == Some(GReg(g)) &&
      |st.gRegInfo| <= |st'.gRegInfo| <= |st.gRegInfo| + 1 &&
      (forall j :: 0 <= j < |st.gRegInfo| && j != g ==> st'.gRegInfo[j] == st.gRegInfo[j]) &&
      (forall s :: 0 <= s < |st.ssaMap| && s != ssa ==> st'.ssaMap[s] == st.ssaMap[s]) &&
      |st'.ssaMap| == |st.ssaMap| && st'.insts == st.insts && st'.fRegInfo == st.fRegInfo
  {
  }

  /** `alloc_freg` follows the same first-fit and append rule. */
  lemma AllocFEffect(st: McState, ssa: nat)
    ensures AllocF(st, ssa).Some? <==> ssa < |st.ssaMap|
    ensures AllocF(st, ssa).Some? ==>
      var (st', f) := AllocF(st, ssa).value;
      (forall j :: 0 <= j < f ==> st.fRegInfo[j].ssareg.Some?) &&
      (f < |st.fRegInfo| ==> st.fRegInfo[f].ssareg.None?) &&
      f < |st'.fRegInfo| && st'.fRegInfo[f].ssareg == Some(ssa) &&
      st'.ssaMap[ssa] == Some(FReg(f)) &&
      |st.fRegInfo| <= |st'.fRegInfo| <= |st.fRegInfo| + 1 &&
      (forall j :: 0 <= j < |st.fRegInfo| && j != f ==> st'.fRegInfo[j] == st.fRegInfo[j]) &&
      (forall s :: 0 <= s < |st.ssaMap| && s != ssa ==> st'.ssaMap[s] == st.ssaMap[s]) &&
      |st'.ssaMap| == |st.ssaMap| && st'.insts == st.insts && st'.gRegInfo == st.gRegInfo
  {
  }

  /** Two-address form for a register-register integer operation: the
      result takes the lhs machine register, the rhs machine register is
      freed, and exactly one instruction is emitted. */
  lemma RegRegIntEffect(st: McState, op: Hir.Arith, b: Hir.Binop2)
    requires b.lhs.Reg? && b.rhs.Reg?
    requires StepIArith2(st, op, b).Some?
    ensures var st' := StepIArith2(st, op, b).value;
      var lg := st.ssaMap[b.lhs.r].value.g;
      var rg := st.ssaMap[b.rhs.r].value.g;
      st'.ssaMap[b.ret] == Some(GReg(lg)) &&
      st'.gRegInfo[rg].ssareg.None? &&
      st'.insts == st.insts + [MkIArith2(op, lg, GeneralOperand.Reg(rg))]
  {
  }

  /** The same for `IMul` and `IDiv`. */
  lemma RegRegMulDivEffect(st: McState, op: Hir.Arith, b: Hir.Binop)
    requires StepIArith(st, op, b).Some?
    ensures var st' := StepIArith(st, op, b).value;
      var lg := st.ssaMap[b.lhs].value.g;
      var rg := st.ssaMap[b.rhs].value.g;
      st'.ssaMap[b.ret] == Some(GReg(lg)) &&
      st'.gRegInfo[rg].ssareg.None? &&
      st'.insts == st.insts + [MkIArith(op, lg, rg)]
  {
  }

  /** The same for the float operations. */
  lemma RegRegFloatEffect(st: McState, op: Hir.Arith, b: Hir.Binop2)
    requires b.lhs.Reg? && b.rhs.Reg?
    requires StepFArith(st, op, b).Some?
    ensures var st' := StepFArith(st, op, b).value;
      var lf := st.ssaMap[b.lhs.r].value.f;
      var rf := st.ssaMap[b.rhs.r].value.f;
      st'.ssaMap[b.ret] == Some(FReg(lf)) &&
      st'.fRegInfo[rf].ssareg.None? &&
      st'.insts == st.insts + [MkFArith(op, lf, FloatOperand.Reg(rf))]
  {
  }

  /** With a constant lhs, the result gets the first free register, which
      is loaded with the constant before the operation is emitted. */
  lemma ConstLhsIntEffect(st: McState, op: Hir.Arith, b: Hir.Binop2)
    requires b.lhs.Const?
    requires StepIArith2(st, op, b).Some?
    ensures var st' := StepIArith2(st, op, b).value;
      var g := FirstFree(st.gRegInfo);
      |st'.insts| == |st.insts| + 2 && st'.insts[..|st.insts|] == st.insts &&
      st'.insts[|st.insts|] == McInst.Integer(g, b.lhs.c.i) &&
      st'.insts[|st.insts| + 1].dst == g &&
      st'.ssaMap[b.ret] == Some(GReg(g))
  {
    var g := FirstFree(st.gRegInfo);
    var a := AllocG(st, b.ret).value;
    assert a.1 == g;
    if b.rhs.Reg? {
      var rg := LookupG(Emit(a.0, McInst.Integer(g, b.lhs.c.i)), b.rhs.r).value;
      var st3 := InvalidateG(Emit(a.0, McInst.Integer(g, b.lhs.c.i)), rg).value;
      assert StepIArith2(st, op, b).value == Emit(st3, MkIArith2(op, g, GeneralOperand.Reg(rg)));
    }
  }

  /** The float counterpart of `ConstLhsIntEffect`. */
  lemma ConstLhsFloatEffect(st: McState, op: Hir.Arith, b: Hir.Binop2)
    requires b.lhs.Const?
    requires StepFArith(st, op, b).Some?
    ensures var st' := StepFArith(st, op, b).value;
      var f := FirstFree(st.fRegInfo);
      |st'.insts| == |st.insts| + 2 && st'.insts[..|st.insts|] == st.insts &&
      st'.insts[|st.insts|] == McInst.Float(f, b.lhs.c.f) &&
      st'.insts[|st.insts| + 1].dst == f &&
      st'.ssaMap[b.ret] == Some(FReg(f))
  {
    var f := FirstFree(st.fRegInfo);
    var a := AllocF(st, b.ret).value;
    assert a.1 == f;
    if b.rhs.Reg? {
      var rf := LookupF(Emit(a.0, McInst.Float(f, b.lhs.c.f)), b.rhs.r).value;
      var st3 := InvalidateF(Emit(a.0, McInst.Float(f, b.lhs.c.f)), rf).value;
      assert StepFArith(st, op, b).value == Emit(st3, MkFArith(op, f, FloatOperand.Reg(rf)));
    }
  }

  /** `Ret` returns through the register file its HIR type names. */
  lemma RetEffect(st: McState, s: nat, tys: seq<Hir.Type>)
    requires StepRet(st, s, tys).Some?
    ensures var st' := StepRet(st, s, tys).value;
      s < |tys| && |st'.insts| == |st.insts| + 1 && st'.insts[..|st.insts|] == st.insts &&
      (tys[s] == Hir.Type.Integer ==> st'.insts[|st.insts|] == IRet(st.ssaMap[s].value.g)) &&
      (tys[s] == Hir.Type.Float ==> st'.insts[|st.insts|] == FRet(st.ssaMap[s].value.f)) &&
      st'.ssaMap == st.ssaMap && st'.gRegInfo == st.gRegInfo && st'.fRegInfo == st.fRegInfo
  {
  }

  // ---------------------------------------------------------------------
  // Lowering never panics on well-formed HIR, once negation is handled
  // ---------------------------------------------------------------------

  /** Corrected step: `INeg`/`FNeg` are lowered like the other one-operand
      instructions instead of falling into the catch-all arm. The result
      takes the source's register (or a fresh one loaded with the constant),
      which is negated in place. */
  function StepFixed(st: McState, inst: Hir.Inst, tys: seq<Hir.Type>): Option<McState>
  {
    match inst
    case INeg(u) =>
      (match u.src
       case Reg(r) =>
         var g :- LookupG(st, r);
         var st1 :- SetMap(st, u.ret, GReg(g));
         Some(Emit(st1, INeg(g)))
       case Const(c) =>
         var n :- Hir.AsI(c);
         var a :- AllocG(st, u.ret);
         Some(Emit(Emit(a.0, McInst.Integer(a.1, n)), INeg(a.1))))
    case FNeg(u) =>
      (match u.src
       case Reg(r) =>
         var f :- LookupF(st, r);
         var st1 :- SetMap(st, u.ret, FReg(f));
         Some(Emit(st1, FNeg(f)))
       case Const(c) =>
         var x :- Hir.AsF(c);
         var a :- AllocF(st, u.ret);
         Some(Emit(Emit(a.0, McInst.Float(a.1, x)), FNeg(a.1))))
    case _ => Step(st, inst, tys)
  }

  function RunFixed(st: McState, insts: seq<Hir.Inst>, tys: seq<Hir.Type>): Option<McState>
    decreases |insts|
  {
    if insts == [] then Some(st)
    else
      var prev :- RunFixed(st, insts[..|insts| - 1], tys);
      StepFixed(prev, insts[|insts| - 1], tys)
  }

  predicate NoNeg(insts: seq<Hir.Inst>)
  {
    forall i :: 0 <= i < |insts| ==> !insts[i].INeg? && !insts[i].FNeg?
  }

  /** After lowering registers 0..k-1: each is mapped to an existing
      machine register of the file its type names. */
  predicate Mapped(st: McState, tys: seq<Hir.Type>, k: nat)
  {
    k <= |tys| && |st.ssaMap| == |tys| &&
    forall s :: 0 <= s < k ==>
      st.ssaMap[s].Some? &&
      (tys[s] == Hir.Type.Integer ==> st.ssaMap[s].value.GReg? && st.ssaMap[s].value.g < |st.gRegInfo|) &&
      (tys[s] == Hir.Type.Float ==> st.ssaMap[s].value.FReg? && st.ssaMap[s].value.f < |st.fRegInfo|)
  }

  /** Register tables never shrink and the map keeps its size, so mapped
      entries stay valid while other entries change. */
  lemma MappedGrow(st: McState, st': McState, tys: seq<Hir.Type>, k: nat, ret: nat, r: McReg)
    requires Mapped(st, tys, k) && k < |tys| && ret == k
    requires |st'.ssaMap| == |tys| && |st.gRegInfo| <= |st'.gRegInfo| && |st.fRegInfo| <= |st'.fRegInfo|
    requires forall s :: 0 <= s < k ==> st'.ssaMap[s] == st.ssaMap[s]
    requires st'.ssaMap[ret] == Some(r)
    requires tys[k] == Hir.Type.Integer ==> r.GReg? && r.g < |st'.gRegInfo|
    requires tys[k] == Hir.Type.Float ==> r.FReg? && r.f < |st'.fRegInfo|
    ensures Mapped(st', tys, k + 1)
  {
  }

  /** A register operand of the right type is mapped to the right file. */
  lemma OperandMapped(st: McState, tys: seq<Hir.Type>, k: nat, op: Hir.Operand, ty: Hir.Type)
    requires Mapped(st, tys, k) && Hir.OperandOk(op, k, tys, ty)
    ensures op.Reg? && ty == Hir.Type.Integer ==> LookupG(st, op.r).Some? && LookupG(st, op.r).value < |st.gRegInfo|
    ensures op.Reg? && ty == Hir.Type.Float ==> LookupF(st, op.r).Some? && LookupF(st, op.r).value < |st.fRegInfo|
    ensures op.Const? && ty == Hir.Type.Integer ==> Hir.AsI(op.c).Some?
    ensures op.Const? && ty == Hir.Type.Float ==> Hir.AsF(op.c).Some?
  {
  }

  lemma StepIArith2Mapped(st: McState, op: Hir.Arith, b: Hir.Binop2, tys: seq<Hir.Type>, k: nat)
    requires Mapped(st, tys, k) && k < |tys| && b.ret == k && tys[k] == Hir.Type.Integer
    requires Hir.OperandOk(b.lhs, k, tys, Hir.Type.Integer) && Hir.OperandOk(b.rhs, k, tys, Hir.Type.Integer)
    ensures StepIArith2(st, op, b).Some? && Mapped(StepIArith2(st, op, b).value, tys, k + 1)
  {
    OperandMapped(st, tys, k, b.lhs, Hir.Type.Integer);
    OperandMapped(st, tys, k, b.rhs, Hir.Type.Integer);
    var st' := StepIArith2(st, op, b).value;
    match b.lhs {
      case Reg(l) =>
        MappedGrow(st, st', tys, k, k, GReg(LookupG(st, l).value));
      case Const(c) =>
        AllocGEffect(st, k);
        var a := AllocG(st, k).value;
        assert Mapped(Emit(a.0, McInst.Integer(a.1, c.i)), tys, k) by {
          forall s | 0 <= s < k ensures a.0.ssaMap[s] == st.ssaMap[s] { }
        }
        if b.rhs.Reg? {
          OperandMapped(Emit(a.0, McInst.Integer(a.1, c.i)), tys, k, b.rhs, Hir.Type.Integer);
        }
        MappedGrow(st, st', tys, k, k, GReg(a.1));
    }
  }

  lemma StepFArithMapped(st: McState, op: Hir.Arith, b: Hir.Binop2, tys: seq<Hir.Type>, k: nat)
    requires Mapped(st, tys, k) && k < |tys| && b.ret == k && tys[k] == Hir.Type.Float
    requires Hir.OperandOk(b.lhs, k, tys, Hir.Type.Float) && Hir.OperandOk(b.rhs, k, tys, Hir.Type.Float)
    ensures StepFArith(st, op, b).Some? && Mapped(StepFArith(st, op, b).value, tys, k + 1)
  {
    OperandMapped(st, tys, k, b.lhs, Hir.Type.Float);
    OperandMapped(st, tys, k, b.rhs, Hir.Type.Float);
    var st' := StepFArith(st, op, b).value;
    match b.lhs {
      case Reg(l) =>
        MappedGrow(st, st', tys, k, k, FReg(LookupF(st, l).value));
      case Const(c) =>
        AllocFEffect(st, k);
        var a := AllocF(st, k).value;
        assert Mapped(Emit(a.0, McInst.Float(a.1, c.f)), tys, k) by {
          forall s | 0 <= s < k ensures a.0.ssaMap[s] == st.ssaMap[s] { }
        }
        if b.rhs.Reg? {
          OperandMapped(Emit(a.0, McInst.Float(a.1, c.f)), tys, k, b.rhs, Hir.Type.Float);
        }
        MappedGrow(st, st', tys, k, k, FReg(a.1));
    }
  }

  lemma StepIntAsFloatMapped(st: McState, u: Hir.Unop, tys: seq<Hir.Type>, k: nat)
    requires Mapped(st, tys, k) && k < |tys| && u.ret == k && tys[k] == Hir.Type.Float
    requires Hir.OperandOk(u.src, k, tys, Hir.Type.Integer)
    ensures StepIntAsFloat(st, u).Some? && Mapped(StepIntAsFloat(st, u).value, tys, k + 1)
  {
    AllocFEffect(st, k);
    var a := AllocF(st, k).value;
    assert Mapped(a.0, tys, k) by {
      forall s | 0 <= s < k ensures a.0.ssaMap[s] == st.ssaMap[s] { }
    }
    OperandMapped(a.0, tys, k, u.src, Hir.Type.Integer);
    MappedGrow(st, StepIntAsFloat(st, u).value, tys, k, k, FReg(a.1));
  }

  lemma StepNegMapped(st: McState, inst: Hir.Inst, tys: seq<Hir.Type>, k: nat)
    requires inst.INeg? || inst.FNeg?
    requires Mapped(st, tys, k) && Hir.InstOk(inst, k, tys)
    ensures StepFixed(st, inst, tys).Some? && Mapped(StepFixed(st, inst, tys).value, tys, k + 1)
  {
    var u := if inst.INeg? then inst.u else inst.u;
    var ty := if inst.INeg? then Hir.Type.Integer else Hir.Type.Float;
    assert u.ret == k && tys[k] == ty;
    OperandMapped(st, tys, k, u.src, ty);
    var st' := StepFixed(st, inst, tys).value;
    match u.src {
      case Reg(r) =>
        if inst.INeg? {
          MappedGrow(st, st', tys, k, k, GReg(LookupG(st, r).value));
        } else {
          MappedGrow(st, st', tys, k, k, FReg(LookupF(st, r).value));
        }
      case Const(c) =>
        if inst.INeg? {
          AllocGEffect(st, k);
          MappedGrow(st, st', tys, k, k, GReg(AllocG(st, k).value.1));
        } else {
          AllocFEffect(st, k);
          MappedGrow(st, st', tys, k, k, FReg(AllocF(st, k).value.1));
        }
    }
  }

  /** One corrected step over a well-formed instruction succeeds and maps
      its register. */
  lemma StepFixedMapped(st: McState, inst: Hir.Inst, tys: seq<Hir.Type>, k: nat)
    requires Mapped(st, tys, k) && Hir.InstOk(inst, k, tys)
    ensures StepFixed(st, inst, tys).Some? && Mapped(StepFixed(st, inst, tys).value, tys, k + 1)
  {
    match inst {
      case Integer(ssa, i) =>
        AllocGEffect(st, k);
        MappedGrow(st, StepFixed(st, inst, tys).value, tys, k, k, GReg(AllocG(st, k).value.1));
      case Float(ssa, f) =>
        AllocFEffect(st, k);
        MappedGrow(st, StepFixed(st, inst, tys).value, tys, k, k, FReg(AllocF(st, k).value.1));
      case IntAsFloat(u) => StepIntAsFloatMapped(st, u, tys, k);
      case INeg(_) => StepNegMapped(st, inst, tys, k);
      case FNeg(_) => StepNegMapped(st, inst, tys, k);
      case IAdd(b2) => StepIArith2Mapped(st, Hir.OpAdd, b2, tys, k);
      case ISub(b2) => StepIArith2Mapped(st, Hir.OpSub, b2, tys, k);
      case IMul(b) =>
        OperandMapped(st, tys, k, Hir.Reg(b.lhs), Hir.Type.Integer);
        OperandMapped(st, tys, k, Hir.Reg(b.rhs), Hir.Type.Integer);
        MappedGrow(st, StepFixed(st, inst, tys).value, tys, k, k, GReg(LookupG(st, b.lhs).value));
      case IDiv(b) =>
        OperandMapped(st, tys, k, Hir.Reg(b.lhs), Hir.Type.Integer);
        OperandMapped(st, tys, k, Hir.Reg(b.rhs), Hir.Type.Integer);
        MappedGrow(st, StepFixed(st, inst, tys).value, tys, k, k, GReg(LookupG(st, b.lhs).value));
      case FAdd(b2) => StepFArithMapped(st, Hir.OpAdd, b2, tys, k);
      case FSub(b2) => StepFArithMapped(st, Hir.OpSub, b2, tys, k);
      case FMul(b2) => StepFArithMapped(st, Hir.OpMul, b2, tys, k);
      case FDiv(b2) => StepFArithMapped(st, Hir.OpDiv, b2, tys, k);
    }
  }

  lemma {:induction false} RunFixedPrefix(st: McState, insts: seq<Hir.Inst>, tys: seq<Hir.Type>, k: nat)
    requires Mapped(st, tys, 0) && k <= |insts| && Hir.WellFormed(insts, tys)
    ensures RunFixed(st, insts[..k], tys).Some? && Mapped(RunFixed(st, insts[..k], tys).value, tys, k)
  {
    if k == 0 {
      assert insts[..0] == [];
    } else {
      RunFixedPrefix(st, insts, tys, k - 1);
      assert insts[..k][..k - 1] == insts[..k - 1];
      StepFixedMapped(RunFixed(st, insts[..k - 1], tys).value, insts[k - 1], tys, k - 1);
    }
  }

  lemma RunFixedLast(st0: McState, insts: seq<Hir.Inst>, tys: seq<Hir.Type>, st: McState, s: nat)
    requires |insts| > 0 && insts[|insts| - 1] == Hir.Ret(s)
    requires RunFixed(st0, insts[..|insts| - 1], tys) == Some(st)
    ensures RunFixed(st0, insts, tys) == StepRet(st, s, tys)
  {
  }

  /** The corrected lowering of any complete, well-formed HIR function
      succeeds from `from_hir`'s starting state and ends with one return
      instruction through the file the result's type names. */
  lemma RunFixedSucceeds(insts: seq<Hir.Inst>, tys: seq<Hir.Type>, mc: seq<McInst>, g: seq<RegInfo>, f: seq<RegInfo>)
    requires Hir.Complete(insts, tys)
    ensures var r := RunFixed(Start(mc, g, f, |tys|), insts, tys);
      r.Some? && |r.value.insts| > 0 &&
      (tys[insts[|tys|].reg] == Hir.Type.Integer <==> r.value.insts[|r.value.insts| - 1].IRet?) &&
      (tys[insts[|tys|].reg] == Hir.Type.Float <==> r.value.insts[|r.value.insts| - 1].FRet?)
  {
    var st0 := Start(mc, g, f, |tys|);
    var body := insts[..|tys|];
    var s := insts[|tys|].reg;
    assert Hir.WellFormed(body, tys) && s < |tys|;
    RunFixedPrefix(st0, body, tys, |tys|);
    assert body[..|tys|] == body;
    var st := RunFixed(st0, body, tys).value;
    assert Mapped(st, tys, |tys|);
    OperandMapped(st, tys, |tys|, Hir.Reg(s), tys[s]);
    assert StepRet(st, s, tys).Some?;
    RunFixedLast(st0, insts, tys, st, s);
    RetEffect(st, s, tys);
  }

  /** Without `INeg`/`FNeg`, the lowering as written is the corrected one. */
  lemma {:induction false} RunAgreesWithoutNeg(st: McState, insts: seq<Hir.Inst>, tys: seq<Hir.Type>)
    requires NoNeg(insts)
    ensures Run(st, insts, tys) == RunFixed(st, insts, tys)
    decreases |insts|
  {
    if insts != [] {
      var init := insts[..|insts| - 1];
      assert NoNeg(init) by {
        forall i | 0 <= i < |init| ensures !init[i].INeg? && !init[i].FNeg? {
          assert init[i] == insts[i];
        }
      }
      RunAgreesWithoutNeg(st, init, tys);
      assert !insts[|insts| - 1].INeg? && !insts[|insts| - 1].FNeg?;
    }
  }

  /** `from_hir` as written does not panic on a complete, well-formed HIR
      function that contains no negation. */
  lemma RunSucceedsWithoutNeg(insts: seq<Hir.Inst>, tys: seq<Hir.Type>, mc: seq<McInst>, g: seq<RegInfo>, f: seq<RegInfo>)
    requires Hir.Complete(insts, tys) && NoNeg(insts)
    ensures Run(Start(mc, g, f, |tys|), insts, tys).Some?
  {
    RunFixedSucceeds(insts, tys, mc, g, f);
    RunAgreesWithoutNeg(Start(mc, g, f, |tys|), insts, tys);
  }

  /** The HIR of `-(1 + 2)`: `gen` folds only a negated literal, so the
      sum is computed and then negated. */
  function NegOfSum(): seq<Hir.Inst>
  {
    [Hir.IAdd(Hir.Binop2(0, Hir.Const(Hir.Const.Integer(1)), Hir.Const(Hir.Const.Integer(2)))),
     Hir.INeg(Hir.Unop(1, Hir.Reg(0))),
     Hir.Ret(1)]
  }

  /** The state after the addition, common to both lowerings. */
  function AfterSum(): McState
  {
    McState([McInst.Integer(0, 1), IAdd(0, GeneralOperand.Integer(2))], [RegInfo(Some(0))], [], [Some(GReg(0)), None])
  }

  lemma NegOfSumFirstStep()
    ensures Step(Start([], [], [], 2), NegOfSum()[0], [Hir.Type.Integer, Hir.Type.Integer]) == Some(AfterSum())
  {
    var st0 := Start([], [], [], 2);
    assert st0 == McState([], [], [], [None, None]);
    assert FirstFree([]) == 0;
    assert Take([], 0, 0) == [RegInfo(Some(0))];
    var st0' := McState([], [RegInfo(Some(0))], [], [Some(GReg(0)), None]);
    assert st0.ssaMap[0 := Some(GReg(0))] == [Some(GReg(0)), None];
    assert AllocG(st0, 0) == Some((st0', 0));
    assert Hir.AsI(Hir.Const.Integer(1)) == Some(1) && Hir.AsI(Hir.Const.Integer(2)) == Some(2);
    var b := Hir.Binop2(0, Hir.Const(Hir.Const.Integer(1)), Hir.Const(Hir.Const.Integer(2)));
    var st0'' := Emit(st0', McInst.Integer(0, 1));
    assert Emit(st0'', MkIArith2(Hir.OpAdd, 0, GeneralOperand.Integer(2))) == AfterSum();
    assert StepIArith2(st0, Hir.OpAdd, b) == Some(AfterSum());
  }

  lemma NegOfSumPrefix()
    ensures Run(Start([], [], [], 2), NegOfSum()[..2], [Hir.Type.Integer, Hir.Type.Integer]) == Some(AfterSum())
    ensures RunFixed(Start([], [], [], 2), NegOfSum()[..1], [Hir.Type.Integer, Hir.Type.Integer]) == Some(AfterSum())
  {
    var insts := NegOfSum();
    var tys := [Hir.Type.Integer, Hir.Type.Integer];
    var st0 := Start([], [], [], 2);
    NegOfSumFirstStep();
    assert insts[..1][..0] == [];
    assert insts[..2][..1] == insts[..1];
    assert Run(st0, insts[..1], tys) == Some(AfterSum());
  }

  /** `from_hir` as written skips the `INeg` of `-(1 + 2)`, so register 1
      is never mapped and the `unwrap` in the `Ret` arm panics. The
      corrected lowering negates the sum's register in place and returns
      through it. */
  lemma NegOfSumPanics()
    ensures Hir.Complete(NegOfSum(), [Hir.Type.Integer, Hir.Type.Integer])
    ensures Run(Start([], [], [], 2), NegOfSum(), [Hir.Type.Integer, Hir.Type.Integer]).None?
    ensures RunFixed(Start([], [], [], 2), NegOfSum(), [Hir.Type.Integer, Hir.Type.Integer]) == Some(McState(
        [McInst.Integer(0, 1), IAdd(0, GeneralOperand.Integer(2)), INeg(0), IRet(0)],
        [RegInfo(Some(0))], [], [Some(GReg(0)), Some(GReg(0))]))
  {
    var insts := NegOfSum();
    var tys := [Hir.Type.Integer, Hir.Type.Integer];
    var st0 := Start([], [], [], 2);
    NegOfSumPrefix();
    assert insts[..3][..2] == insts[..2];
    assert insts[..3] == insts;
    var st1 := AfterSum();
    assert LookupG(st1, 1).None?;
    var st2 := Emit(st1.(ssaMap := [Some(GReg(0)), Some(GReg(0))]), INeg(0));
    assert LookupG(st1, 0) == Some(0);
    assert st1.ssaMap[1 := Some(GReg(0))] == [Some(GReg(0)), Some(GReg(0))];
    assert StepFixed(st1, insts[1], tys) == Some(st2);
    assert insts[..2][..1] == insts[..1];
    assert RunFixed(st0, insts[..2], tys) == Some(st2);
    assert LookupG(st2, 1) == Some(0);
    assert StepRet(st2, 1, tys) == Some(Emit(st2, IRet(0)));
    RunFixedLast(st0, insts, tys, st2, 1);
    assert st1.insts + [INeg(0)] + [IRet(0)] ==
      [McInst.Integer(0, 1), IAdd(0, GeneralOperand.Integer(2)), INeg(0), IRet(0)];
  }

  // ---------------------------------------------------------------------
  // The machine-IR context
  // ---------------------------------------------------------------------

  class MachineIrContext {
    var insts: seq<McInst>
    var gRegInfo: seq<RegInfo>
    var fRegInfo: seq<RegInfo>
    var ssaMap: seq<Option<McReg>>

    function State(): McState
      reads this
    {
      McState(insts, gRegInfo, fRegInfo, ssaMap)
    }

    constructor ()
      ensures State() == McState([], [], [], [])
    {
      insts := [];
      gRegInfo := [];
      fRegInfo := [];
      ssaMap := [];
    }

    /** `g_reg_num`. */
    function GRegNum(): (n: nat)
      reads this
      ensures n == |State().gRegInfo|
    {
      |gRegInfo|
    }

    /** `f_reg_num`. */
    function FRegNum(): (n: nat)
      reads this
      ensures n == |State().fRegInfo|
    {
      |fRegInfo|
    }

    /** `alloc_greg`: scan for the first free register and take it, or
        append a new one; then map `ssa` to it. Panics (ok == false) when
        `ssa` is outside the SSA map. */
    method AllocGReg(ssa: nat) returns (ok: bool, reg: nat)
      modifies this
      ensures ok <==> AllocG(old(State()), ssa).Some?
      ensures ok ==> (State(), reg) == AllocG(old(State()), ssa).value
      ensures reg == FirstFree(old(gRegInfo))
      ensures reg <= old(|gRegInfo|) && old(|gRegInfo|) <= |gRegInfo| <= old(|gRegInfo|) + 1
    {
      var i := 0;
      while i < |gRegInfo|
        invariant i <= |gRegInfo| == old(|gRegInfo|)
        invariant gRegInfo == old(gRegInfo)
        invariant FirstFreeFrom(gRegInfo, i) == FirstFree(gRegInfo)
      {
        if gRegInfo[i].ssareg.None? {
          break;
        }
        i := i + 1;
      }
      reg := i;
      if i < |gRegInfo| {
        gRegInfo := gRegInfo[i := gRegInfo[i].Apply(ssa)];
      } else {
        gRegInfo := gRegInfo + [RegInfo(Some(ssa))];
      }
      if ssa < |ssaMap| {
        ssaMap := ssaMap[ssa := Some(GReg(reg))];
        ok := true;
      } else {
        ok := false;
      }
    }

    /** `alloc_freg`, the float counterpart of `AllocGReg`. */
    method AllocFReg(ssa: nat) returns (ok: bool, reg: nat)
      modifies this
      ensures ok <==> AllocF(old(State()), ssa).Some?
      ensures ok ==> (State(), reg) == AllocF(old(State()), ssa).value
      ensures reg == FirstFree(old(fRegInfo))
      ensures reg <= old(|fRegInfo|) && old(|fRegInfo|) <= |fRegInfo| <= old(|fRegInfo|) + 1
    {
      var i := 0;
      while i < |fRegInfo|
        invariant i <= |fRegInfo| == old(|fRegInfo|)
        invariant fRegInfo == old(fRegInfo)
        invariant FirstFreeFrom(fRegInfo, i) == FirstFree(fRegInfo)
      {
        if fRegInfo[i].ssareg.None? {
          break;
        }
        i := i + 1;
      }
      reg := i;
      if i < |fRegInfo| {
        fRegInfo := fRegInfo[i := fRegInfo[i].Apply(ssa)];
      } else {
        fRegInfo := fRegInfo + [RegInfo(Some(ssa))];
      }
      if ssa < |ssaMap| {
        ssaMap := ssaMap[ssa := Some(FReg(reg))];
        ok := true;
      } else {
        ok := false;
      }
    }

    method Push(inst: McInst)
      modifies this
      ensures State() == Emit(old(State()), inst)
    {
      insts := insts + [inst];
    }

    /** `ssa_map[s] = Some(r)`; out of range panics. */
    method Map(s: nat, r: McReg) returns (ok: bool)
      modifies this
      ensures ok <==> SetMap(old(State()), s, r).Some?
      ensures ok ==> State() == SetMap(old(State()), s, r).value
    {
      ok := s < |ssaMap|;
      if ok {
        ssaMap := ssaMap[s := Some(r)];
      }
    }

    /** `self[g].invalidate()` on a general register. */
    method FreeG(g: nat) returns (ok: bool)
      modifies this
      ensures ok <==> InvalidateG(old(State()), g).Some?
      ensures ok ==> State() == InvalidateG(old(State()), g).value
    {
      ok := g < |gRegInfo|;
      if ok {
        gRegInfo := gRegInfo[g := gRegInfo[g].Invalidate()];
      }
    }

    /** `self[f].invalidate()` on a float register. */
    method FreeF(f: nat) returns (ok: bool)
      modifies this
      ensures ok <==> InvalidateF(old(State()), f).Some?
      ensures ok ==> State() == InvalidateF(old(State()), f).value
    {
      ok := f < |fRegInfo|;
      if ok {
        fRegInfo := fRegInfo[f := fRegInfo[f].Invalidate()];
      }
    }

    method LowerIArith2(op: Hir.Arith, b: Hir.Binop2) returns (ok: bool)
      modifies this
      ensures ok <==> StepIArith2(old(State()), op, b).Some?
      ensures ok ==> State() == StepIArith2(old(State()), op, b).value
    {
      match (b.lhs, b.rhs) {
        case (Reg(l), Reg(r)) =>
          var lg := LookupG(State(), l);
          var rg := LookupG(State(), r);
          if lg.None? || rg.None? {
            return false;
          }
          ok := Map(b.ret, GReg(lg.value));
          if !ok {
            return;
          }
          ok := FreeG(rg.value);
          if !ok {
            return;
          }
          Push(MkIArith2(op, lg.value, GeneralOperand.Reg(rg.value)));
        case (Reg(l), Const(c)) =>
          var lg := LookupG(State(), l);
          if lg.None? {
            return false;
          }
          ok := Map(b.ret, GReg(lg.value));
          if !ok {
            return;
          }
          var n := Hir.AsI(c);
          if n.None? {
            return false;
          }
          Push(MkIArith2(op, lg.value, GeneralOperand.Integer(n.value)));
        case (Const(c), Reg(r)) =>
          var n := Hir.AsI(c);
          if n.None? {
            return false;
          }
          var reg;
          ok, reg := AllocGReg(b.ret);
          if !ok {
            return;
          }
          Push(McInst.Integer(reg, n.value));
          var rg := LookupG(State(), r);
          if rg.None? {
            return false;
          }
          ok := FreeG(rg.value);
          if !ok {
            return;
          }
          Push(MkIArith2(op, reg, GeneralOperand.Reg(rg.value)));
        case (Const(c), Const(d)) =>
          var n := Hir.AsI(c);
          if n.None? {
            return false;
          }
          var reg;
          ok, reg := AllocGReg(b.ret);
          if !ok {
            return;
          }
          Push(McInst.Integer(reg, n.value));
          var m := Hir.AsI(d);
          if m.None? {
            return false;
          }
          Push(MkIArith2(op, reg, GeneralOperand.Integer(m.value)));
      }
    }

    method LowerFArith(op: Hir.Arith, b: Hir.Binop2) returns (ok: bool)
      modifies this
      ensures ok <==> StepFArith(old(State()), op, b).Some?
      ensures ok ==> State() == StepFArith(old(State()), op, b).value
    {
      match (b.lhs, b.rhs) {
        case (Reg(l), Reg(r)) =>
          var lf := LookupF(State(), l);
          var rf := LookupF(State(), r);
          if lf.None? || rf.None? {
            return false;
          }
          ok := Map(b.ret, FReg(lf.value));
          if !ok {
            return;
          }
          ok := FreeF(rf.value);
          if !ok {
            return;
          }
          Push(MkFArith(op, lf.value, FloatOperand.Reg(rf.value)));
        case (Reg(l), Const(c)) =>
          var lf := LookupF(State(), l);
          if lf.None? {
            return false;
          }
          ok := Map(b.ret, FReg(lf.value));
          if !ok {
            return;
          }
          var x := Hir.AsF(c);
          if x.None? {
            return false;
          }
          Push(MkFArith(op, lf.value, FloatOperand.Float(x.value)));
        case (Const(c), Reg(r)) =>
          var x := Hir.AsF(c);
          if x.None? {
            return false;
          }
          var reg;
          ok, reg := AllocFReg(b.ret);
          if !ok {
            return;
          }
          Push(McInst.Float(reg, x.value));
          var rf := LookupF(State(), r);
          if rf.None? {
            return false;
          }
          ok := FreeF(rf.value);
          if !ok {
            return;
          }
          Push(MkFArith(op, reg, FloatOperand.Reg(rf.value)));
        case (Const(c), Const(d)) =>
          var x := Hir.AsF(c);
          if x.None? {
            return false;
          }
          var reg;
          ok, reg := AllocFReg(b.ret);
          if !ok {
            return;
          }
          Push(McInst.Float(reg, x.value));
          var y := Hir.AsF(d);
          if y.None? {
            return false;
          }
          Push(MkFArith(op, reg, FloatOperand.Float(y.value)));
      }
    }

    method LowerIArith(op: Hir.Arith, b: Hir.Binop) returns (ok: bool)
      modifies this
      ensures ok <==> StepIArith(old(State()), op, b).Some?
      ensures ok ==> State() == StepIArith(old(State()), op, b).value
    {
      var lg := LookupG(State(), b.lhs);
      var rg := LookupG(State(), b.rhs);
      if lg.None? || rg.None? {
        return false;
      }
      ok := Map(b.ret, GReg(lg.value));
      if !ok {
        return;
      }
      ok := FreeG(rg.value);
      if !ok {
        return;
      }
      Push(MkIArith(op, lg.value, rg.value));
    }

    method LowerIntAsFloat(u: Hir.Unop) returns (ok: bool)
      modifies this
      ensures ok <==> StepIntAsFloat(old(State()), u).Some?
      ensures ok ==> State() == StepIntAsFloat(old(State()), u).value
    {
      var dst;
      ok, dst := AllocFReg(u.ret);
      if !ok {
        return;
      }
      match u.src {
        case Const(c) =>
          var n := Hir.AsI(c);
          if n.None? {
            return false;
          }
          Push(IntAsFloat(dst, GeneralOperand.Integer(n.value)));
        case Reg(r) =>
          var rg := LookupG(State(), r);
          if rg.None? {
            return false;
          }
          ok := FreeG(rg.value);
          if !ok {
            return;
          }
          Push(IntAsFloat(dst, GeneralOperand.Reg(rg.value)));
      }
    }

    /** One iteration of the `from_hir` loop. */
    method LowerInst(inst: Hir.Inst, tys: seq<Hir.Type>) returns (ok: bool)
      modifies this
      ensures ok <==> Step(old(State()), inst, tys).Some?
      ensures ok ==> State() == Step(old(State()), inst, tys).value
    {
      match inst {
        case Integer(ssa, i) =>
          var reg;
          ok, reg := AllocGReg(ssa);
          if ok {
            Push(McInst.Integer(reg, i));
          }
        case Float(ssa, f) =>
          var reg;
          ok, reg := AllocFReg(ssa);
          if ok {
            Push(McInst.Float(reg, f));
          }
        case IntAsFloat(u) =>
          ok := LowerIntAsFloat(u);
        case IAdd(b2) =>
          ok := LowerIArith2(Hir.OpAdd, b2);
        case ISub(b2) =>
          ok := LowerIArith2(Hir.OpSub, b2);
        case IMul(b) =>
          ok := LowerIArith(Hir.OpMul, b);
        case IDiv(b) =>
          ok := LowerIArith(Hir.OpDiv, b);
        case FAdd(b2) =>
          ok := LowerFArith(Hir.OpAdd, b2);
        case FSub(b2) =>
          ok := LowerFArith(Hir.OpSub, b2);
        case FMul(b2) =>
          ok := LowerFArith(Hir.OpMul, b2);
        case FDiv(b2) =>
          ok := LowerFArith(Hir.OpDiv, b2);
        case Ret(s) =>
          if s >= |tys| {
            return false;
          }
          match tys[s] {
            case Integer =>
              var g := LookupG(State(), s);
              if g.None? {
                return false;
              }
              Push(IRet(g.value));
              ok := true;
            case Float =>
              var f := LookupF(State(), s);
              if f.None? {
                return false;
              }
              Push(FRet(f.value));
              ok := true;
          }
        case INeg(_) =>
          ok := true;
        case FNeg(_) =>
          ok := true;
      }
    }

    /** `from_hir`: reset the SSA map to `register_num` empty entries and
        lower every HIR instruction in order. The result is the
        specification `Run` from that starting state; `false` is a panic. */
    method FromHir(hir: Hir.HirContext) returns (ok: bool)
      modifies this
      ensures var r := Run(Start(old(insts), old(gRegInfo), old(fRegInfo), |hir.regTypes|), hir.insts, hir.regTypes);
              (ok <==> r.Some?) && (ok ==> State() == r.value)
    {
      var code := hir.insts;
      var tys := hir.regTypes;
      ssaMap := seq(|tys|, _ => None);
      ghost var st0 := State();
      assert st0 == Start(old(insts), old(gRegInfo), old(fRegInfo), |tys|);
      var k := 0;
      while k < |code|
        invariant k <= |code|
        invariant Run(st0, code[..k], tys) == Some(State())
      {
        assert code[..k + 1][..k] == code[..k];
        ok := LowerInst(code[k], tys);
        if !ok {
          assert Run(st0, code[..k + 1], tys).None?;
          PanicPropagates(st0, code, tys, k + 1);
          return;
        }
        k := k + 1;
      }
      assert code[..k] == code;
      ok := true;
    }
  }

  /** Once a prefix panics, the whole list does. */
  lemma {:induction false} PanicPropagates(st: McState, insts: seq<Hir.Inst>, tys: seq<Hir.Type>, k: nat)
    requires k <= |insts|
    requires Run(st, insts[..k], tys).None?
    ensures Run(st, insts, tys).None?
    decreases |insts| - k
  {
    if k < |insts| {
      assert insts[..k + 1][..k] == insts[..k];
      PanicPropagates(st, insts, tys, k + 1);
    } else {
      assert insts[..k] == insts;
    }
  }
}
