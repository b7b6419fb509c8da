/** The x86-64 code generator (src/codegen.rs): where each virtual register
    lives (a physical register or a stack slot below rbp), how large the
    frame is, which condition code a comparison uses, and which control
    transfers are emitted. The bytes of each instruction are not modelled:
    an instruction whose encoding does not matter here is emitted as
    `Code(inst)`. */
module Codegen {
  import opened Base

  /** The value types of the machine-IR functions this generator consumes. */
  datatype Type = Integer | Float | Bool

  datatype McReg = GReg(g: nat) | FReg(f: nat)
  datatype GeneralOperand = Reg(r: nat) | Integer(i: Int32)
  datatype FloatOperand = Reg(r: nat) | Float(f: F64)

  /** The machine IR as the code generator matches it (control flow,
      comparisons and local slots included). */
  datatype McIR =
    | Integer(reg: nat, i: Int32)
    | Float(freg: nat, f: F64)
    | IAdd(lhs: nat, rhs: GeneralOperand)
    | ISub(lhs: nat, rhs: GeneralOperand)
    | IMul(lhs: nat, rreg: nat)
    | IDiv(lhs: nat, rreg: nat)
    | ICmp(kind: CmpKind, lhs: nat, rhs: GeneralOperand)
    | FCmp(kind: CmpKind, ret: nat, flhs: nat, frhs: nat)
    | ICmpJmp(kind: CmpKind, lhs: nat, rhs: GeneralOperand, dest: nat)
    | FCmpJmp(kind: CmpKind, flhs: nat, frhs: nat, dest: nat)
    | FAdd(flhs: nat, fsrc: FloatOperand)
    | FSub(flhs: nat, fsrc: FloatOperand)
    | FMul(flhs: nat, fsrc: FloatOperand)
    | FDiv(flhs: nat, fsrc: FloatOperand)
    | CastIntFloat(freg: nat, src: GeneralOperand)
    | FRet(fret: FloatOperand)
    | IRet(iret: GeneralOperand, ty: Type)
    | INeg(reg: nat)
    | FNeg(freg: nat)
    | LocalStore(ofs: nat, mreg: McReg)
    | LocalLoad(ofs: nat, mreg: McReg)
    | Jmp(dest: nat)
    | CondJmp(cond: McReg, dest: nat)
    | In(mreg: McReg)
    | Out(mreg: McReg)

  datatype McBlock = McBlock(insts: seq<McIR>)

  /** A function: its return type, how many virtual registers of each
      kind it uses, how many locals it has, and its basic blocks. */
  datatype McFunction = McFunction(retTy: Type, gRegs: nat, fRegs: nat, localsNum: nat, bbs: seq<nat>)

  datatype McIrContext = McIrContext(functions: seq<McFunction>, blocks: seq<McBlock>)

  // ---------------------------------------------------------------------
  // Register mapping and frame layout
  // ---------------------------------------------------------------------

  datatype GeneralPhysReg = Reg(r: nat) | Stack(ofs: int)
  datatype FloatPhysReg = Xmm(x: nat) | Stack(ofs: int)

  /** `g_phys_reg`: virtual registers 0-4 live in r8-r12; the rest live at
      [rbp - ofs], past the `gOffset` local slots. */
  function GPhysReg(gOffset: nat, reg: nat): (p: GeneralPhysReg)
    ensures p.Reg? <==> reg < 5
    ensures p.Reg? ==> 8 <= p.r <= 12
    ensures p.Stack? ==> p.ofs % 8 == 0 && p.ofs >= (gOffset + 2) * 8
  {
    if reg < 5 then GeneralPhysReg.Reg(reg + 8)
    else GeneralPhysReg.Stack((reg - 4 + gOffset) * 8 + 8)
  }

  /** `f_phys_reg`: virtual registers 0-14 live in xmm1-xmm15 (xmm0 stays
      free as scratch); the rest live at [rbp - ofs], past `fOffset` slots. */
  function FPhysReg(fOffset: nat, reg: nat): (p: FloatPhysReg)
    ensures p.Xmm? <==> reg < 15
    ensures p.Xmm? ==> 1 <= p.x <= 15
    ensures p.Stack? ==> p.ofs % 8 == 0 && p.ofs >= (fOffset + 2) * 8
  {
    if reg < 15 then Xmm(reg + 1)
    else FloatPhysReg.Stack((reg - 14 + fOffset) * 8 + 8)
  }

  /** Distinct virtual registers never share a physical location. */
  lemma PhysRegsInjective(gOffset: nat, fOffset: nat, a: nat, b: nat)
    requires a != b
    ensures GPhysReg(gOffset, a) != GPhysReg(gOffset, b)
    ensures FPhysReg(fOffset, a) != FPhysReg(fOffset, b)
  {
    if 5 <= a && 5 <= b {
      assert (a - 4 + gOffset) * 8 != (b - 4 + gOffset) * 8;
    }
    if 15 <= a && 15 <= b {
      assert (a - 14 + fOffset) * 8 != (b - 14 + fOffset) * 8;
    }
  }

  /** Stack slots needed for the general registers that do not fit in
      r8-r12 (`g_spill`). */
  function GSpill(gRegs: nat): nat
  {
    if gRegs < 5 then 0 else gRegs - 4
  }

  /** Stack slots needed for the float registers that do not fit in
      xmm1-xmm15 (`f_spill`). */
  function FSpill(fRegs: nat): nat
  {
    if fRegs < 15 then 0 else fRegs - 14
  }

  /** The bytes `prologue` subtracts from rsp for n slots: n slots rounded
      up to an even count, so rsp stays 16-byte aligned. */
  function FrameBytes(n: nat): (bytes: nat)
    ensures bytes % 16 == 0
    ensures 8 * n <= bytes < 8 * n + 16
    ensures bytes == 0 <==> n == 0
  {
    (n + n % 2) * 8
  }

  /** With `compile_func`'s offsets (general spills right after the
      locals), every general spill slot lies inside the reserved frame and
      above the local slots. */
  lemma GSpillSlotInFrame(func: McFunction, g: nat)
    requires 5 <= g < func.gRegs
    ensures var n := func.localsNum + GSpill(func.gRegs) + FSpill(func.fRegs);
      var gp := GPhysReg(func.localsNum, g);
      8 * func.localsNum + 8 < gp.ofs <= FrameBytes(n)
  {
    assert (g - 4 + func.localsNum) * 8 + 8 <= (func.localsNum + GSpill(func.gRegs)) * 8;
  }

  /** Float spills come after the general spills, so every float spill
      slot also lies inside the reserved frame and above the local slots. */
  lemma FSpillSlotInFrame(func: McFunction, f: nat)
    requires 15 <= f < func.fRegs
    ensures var n := func.localsNum + GSpill(func.gRegs) + FSpill(func.fRegs);
      var fp := FPhysReg(func.localsNum + GSpill(func.gRegs), f);
      8 * func.localsNum + 8 < fp.ofs <= FrameBytes(n)
  {
    var n := func.localsNum + GSpill(func.gRegs) + FSpill(func.fRegs);
    assert (f - 14 + func.localsNum + GSpill(func.gRegs)) * 8 + 8 <= n * 8;
  }

  /** When both kinds spill, every float spill slot lies strictly above
      every general one, so the two areas never overlap. */
  lemma SpillAreasDisjoint(func: McFunction, g: nat, f: nat)
    requires 5 <= g < func.gRegs && 15 <= f < func.fRegs
    ensures GPhysReg(func.localsNum, g).ofs < FPhysReg(func.localsNum + GSpill(func.gRegs), f).ofs
  {
    var gs := GSpill(func.gRegs);
    assert (g - 4 + func.localsNum) * 8 < (f - 14 + func.localsNum + gs) * 8;
  }

  // ---------------------------------------------------------------------
  // Condition codes
  // ---------------------------------------------------------------------

  /** x86 condition codes: signed (G, GE, L, LE), unsigned (A, AE, B, BE)
      and equality (E, NE). */
  datatype Cond = E | NE | G | GE | L | LE | A | AE | B | BE

  /** `emit_jcc` / `emit_setcc`: integer comparisons use signed codes. */
  function IntCond(kind: CmpKind): (c: Cond)
    ensures c in {E, NE, G, GE, L, LE}
    ensures (kind == CmpKind.Eq <==> c == E) && (kind == CmpKind.Ne <==> c == NE)
  {
    match kind
    case Eq => E
    case Ne => NE
    case Gt => G
    case Ge => GE
    case Lt => L
    case Le => LE
  }

  /** `emit_fjcc` / `emit_fsetcc`: float comparisons (after `ucomisd`) use
      unsigned codes. */
  function FloatCond(kind: CmpKind): (c: Cond)
    ensures c in {E, NE, A, AE, B, BE}
    ensures (kind == CmpKind.Eq <==> c == E) && (kind == CmpKind.Ne <==> c == NE)
  {
    match kind
    case Eq => E
    case Ne => NE
    case Gt => A
    case Ge => AE
    case Lt => B
    case Le => BE
  }

  /** The status flags a condition code reads: ZF, CF, and whether SF
      differs from OF. */
  datatype Flags = Flags(zf: bool, cf: bool, sfNeOf: bool)

  /** Whether a condition code holds, per the x86-64 instruction set. */
  predicate Holds(c: Cond, fl: Flags)
  {
    match c
    case E => fl.zf
    case NE => !fl.zf
    case G => !fl.zf && !fl.sfNeOf
    case GE => !fl.sfNeOf
    case L => fl.sfNeOf
    case LE => fl.zf || fl.sfNeOf
    case A => !fl.cf && !fl.zf
    case AE => !fl.cf
    case B => fl.cf
    case BE => fl.cf || fl.zf
  }

  /** The flags `cmpq l, r` leaves: ZF when equal, CF on an unsigned
      borrow, and SF != OF exactly when l < r as signed numbers. */
  function CmpFlags(l: Int64, r: Int64): Flags
  {
    Flags(l == r, (if l < 0 then l + U64_LIMIT else l) < (if r < 0 then r + U64_LIMIT else r), l < r)
  }

  /** The ordered outcomes of comparing two floats. */
  datatype FloatOrder = Less | Equal | Greater

  /** The flags `ucomisd` leaves for an ordered pair: ZF when equal, CF
      when less, and SF = OF = 0. */
  function UcomisdFlags(o: FloatOrder): Flags
  {
    Flags(o == Equal, o == Less, false)
  }

  predicate CompareOrder(kind: CmpKind, o: FloatOrder)
  {
    match kind
    case Eq => o == Equal
    case Ne => o != Equal
    case Lt => o == Less
    case Gt => o == Greater
    case Le => o != Greater
    case Ge => o != Less
  }

  /** The integer condition after `cmpq` decides exactly the comparison
      asked for, on every pair of 64-bit integers. */
  lemma IntCondIsSignedCompare(kind: CmpKind, l: Int64, r: Int64)
    ensures Holds(IntCond(kind), CmpFlags(l, r)) == CompareInt(kind, l, r)
  {
  }

  /** The float condition after `ucomisd` decides exactly the comparison
      asked for, on every ordered pair. */
  lemma FloatCondIsOrderedCompare(kind: CmpKind, o: FloatOrder)
    ensures Holds(FloatCond(kind), UcomisdFlags(o)) == CompareOrder(kind, o)
  {
  }

  /** Neither choice can stand in for the other: an unsigned code misorders
      negative integers, and a signed code misreads `ucomisd`. */
  lemma ConditionsNotInterchangeable()
    ensures Holds(FloatCond(CmpKind.Lt), CmpFlags(-1, 0)) != CompareInt(CmpKind.Lt, -1, 0)
    ensures Holds(IntCond(CmpKind.Lt), UcomisdFlags(Less)) != CompareOrder(CmpKind.Lt, Less)
  {
  }

  // ---------------------------------------------------------------------
  // Emitted code
  // ---------------------------------------------------------------------

  /** Emitted code. `Code` is an instruction sequence whose encoding this
      model does not follow; control transfers, condition codes and the
      frame are explicit. */
  datatype Asm =
    | PushRbp
    | MovRbpRsp
    | SubRsp(bytes: nat)
    | Epilogue
    | JmpTo(target: nat)
    | Jcc(c: Cond, target: nat)
    | Setcc(c: Cond, dest: GeneralPhysReg)
    | Code(inst: McIR)

  /** `prologue(n)`: save rbp, set up the frame, and reserve the aligned
      frame only when there is something to reserve. */
  function PrologueCode(n: nat): (code: seq<Asm>)
    ensures |code| >= 2 && code[..2] == [PushRbp, MovRbpRsp]
    ensures n == 0 <==> |code| == 2
    ensures n != 0 ==> |code| == 3 && code[2] == SubRsp(FrameBytes(n)) && FrameBytes(n) % 16 == 0
  {
    [PushRbp, MovRbpRsp] + if n != 0 then [SubRsp(FrameBytes(n))] else []
  }

  /** The code for one instruction of block `bbi`, or `None` for a panic
      (a block label out of range, a condition held in a float register,
      or a return whose type is not the function's). */
  function LowerInst(bbi: nat, inst: McIR, retTy: Type, labels: seq<nat>, gOffset: nat): Option<seq<Asm>>
  {
    match inst
    case ICmp(kind, lhs, _) => Some([Code(inst), Setcc(IntCond(kind), GPhysReg(gOffset, lhs))])
    case FCmp(kind, ret, _, _) => Some([Code(inst), Setcc(FloatCond(kind), GPhysReg(gOffset, ret))])
    case ICmpJmp(kind, _, _, dest) =>
      if dest < |labels| then Some([Code(inst), Jcc(IntCond(kind), labels[dest])]) else None
    case FCmpJmp(kind, _, _, dest) =>
      if dest < |labels| then Some([Code(inst), Jcc(FloatCond(kind), labels[dest])]) else None
    case Jmp(dest) =>
      if bbi + 1 == dest then Some([])
      else if dest < |labels| then Some([JmpTo(labels[dest])]) else None
    case CondJmp(cond, dest) =>
      if dest < |labels| && cond.GReg? then Some([Code(inst), Jcc(E, labels[dest])]) else None
    case IRet(_, ty) => if retTy == ty then Some([Code(inst), Epilogue]) else None
    case FRet(_) => if retTy == Type.Float then Some([Code(inst), Epilogue]) else None
    case _ => Some([Code(inst)])
  }

  /** A jump to the next block is a fall-through and emits nothing; any
      other jump emits one `jmp` to its block's label. */
  lemma JmpFallThrough(bbi: nat, dest: nat, retTy: Type, labels: seq<nat>, gOffset: nat)
    requires dest < |labels|
    ensures var out := LowerInst(bbi, Jmp(dest), retTy, labels, gOffset);
      out.Some? && (dest == bbi + 1 <==> out.value == []) &&
      (dest != bbi + 1 <==> out.value == [JmpTo(labels[dest])])
  {
  }

  /** A return panics exactly when its type differs from the function's. */
  lemma RetTypeChecked(bbi: nat, inst: McIR, retTy: Type, labels: seq<nat>, gOffset: nat)
    requires inst.IRet? || inst.FRet?
    ensures LowerInst(bbi, inst, retTy, labels, gOffset).None? <==>
      (inst.IRet? && inst.ty != retTy) || (inst.FRet? && retTy != Type.Float)
    ensures LowerInst(bbi, inst, retTy, labels, gOffset).Some? ==>
      LowerInst(bbi, inst, retTy, labels, gOffset).value[1] == Epilogue
  {
  }

  /** The code for a run of instructions: each instruction's code in order. */
  function LowerInsts(bbi: nat, insts: seq<McIR>, retTy: Type, labels: seq<nat>, gOffset: nat): Option<seq<Asm>>
    decreases |insts|
  {
    if insts == [] then Some([])
    else
      var prev :- LowerInsts(bbi, insts[..|insts| - 1], retTy, labels, gOffset);
      var last :- LowerInst(bbi, insts[|insts| - 1], retTy, labels, gOffset);
      Some(prev + last)
  }

  /** A block that compiles has only returns of the function's type. */
  lemma {:induction false} CompiledRetsAgree(bbi: nat, insts: seq<McIR>, retTy: Type, labels: seq<nat>, gOffset: nat, i: nat)
    requires LowerInsts(bbi, insts, retTy, labels, gOffset).Some?
    requires i < |insts|
    ensures insts[i].IRet? ==> insts[i].ty == retTy
    ensures insts[i].FRet? ==> retTy == Type.Float
    decreases |insts|
  {
    if i < |insts| - 1 {
      assert insts[..|insts| - 1][i] == insts[i];
      CompiledRetsAgree(bbi, insts[..|insts| - 1], retTy, labels, gOffset, i);
    }
  }

  /** A block that compiles emits one `jmp` per jump to a block other than
      the next, and none for a jump to the next block. */
  lemma {:induction false} CompiledJmpCount(bbi: nat, insts: seq<McIR>, retTy: Type, labels: seq<nat>, gOffset: nat)
    requires LowerInsts(bbi, insts, retTy, labels, gOffset).Some?
    ensures JmpToCount(LowerInsts(bbi, insts, retTy, labels, gOffset).value) == FarJmpCount(bbi, insts)
    decreases |insts|
  {
    if insts != [] {
      var init := insts[..|insts| - 1];
      CompiledJmpCount(bbi, init, retTy, labels, gOffset);
      var prev := LowerInsts(bbi, init, retTy, labels, gOffset).value;
      var last := LowerInst(bbi, insts[|insts| - 1], retTy, labels, gOffset).value;
      JmpToCountAppend(prev, last);
      LowerInstJmpCount(bbi, insts[|insts| - 1], retTy, labels, gOffset);
    }
  }

  lemma LowerInstJmpCount(bbi: nat, inst: McIR, retTy: Type, labels: seq<nat>, gOffset: nat)
    requires LowerInst(bbi, inst, retTy, labels, gOffset).Some?
    ensures JmpToCount(LowerInst(bbi, inst, retTy, labels, gOffset).value) ==
      if inst.Jmp? && inst.dest != bbi + 1 then 1 else 0
  {
    var out := LowerInst(bbi, inst, retTy, labels, gOffset).value;
    if |out| == 2 {
      var first := out[..1];
      assert first[..0] == [] && first[0] == out[0] && out[0].Code?;
      assert JmpToCount(first) == 0;
      assert out[..|out| - 1] == first && !out[1].JmpTo?;
    } else if |out| == 1 {
      assert out[..0] == [];
    }
  }

  function JmpToCount(code: seq<Asm>): nat
    decreases |code|
  {
    if code == [] then 0
    else JmpToCount(code[..|code| - 1]) + (if code[|code| - 1].JmpTo? then 1 else 0)
  }

  function FarJmpCount(bbi: nat, insts: seq<McIR>): nat
    decreases |insts|
  {
    if insts == [] then 0
    else
      var last := insts[|insts| - 1];
      FarJmpCount(bbi, insts[..|insts| - 1]) + (if last.Jmp? && last.dest != bbi + 1 then 1 else 0)
  }

  lemma {:induction false} JmpToCountAppend(a: seq<Asm>, b: seq<Asm>)
    ensures JmpToCount(a + b) == JmpToCount(a) + JmpToCount(b)
    decreases |b|
  {
    if b == [] {
      assert a + b == a;
    } else {
      var b' := b[..|b| - 1];
      assert (a + b)[..|a + b| - 1] == a + b';
      JmpToCountAppend(a, b');
    }
  }

  /** What compilation has produced so far: the code, the position each
      bound label was bound to, and the current spill offsets. */
  datatype CgState = CgState(code: seq<Asm>, bound: map<nat, nat>, gOffset: nat, fOffset: nat)

  /** `compile_bb`: bind the block's label here, then emit its instructions. */
  function CompileBbSpec(st: CgState, ctx: McIrContext, bbi: nat, retTy: Type, labels: seq<nat>): Option<CgState>
  {
    if bbi >= |ctx.blocks| || bbi >= |labels| then None
    else
      var body :- LowerInsts(bbi, ctx.blocks[bbi].insts, retTy, labels, st.gOffset);
      Some(st.(code := st.code + body, bound := st.bound[labels[bbi] := |st.code|]))
  }

  function CompileBbsSpec(st: CgState, ctx: McIrContext, bbs: seq<nat>, retTy: Type, labels: seq<nat>): Option<CgState>
    decreases |bbs|
  {
    if bbs == [] then Some(st)
    else
      var prev :- CompileBbsSpec(st, ctx, bbs[..|bbs| - 1], retTy, labels);
      CompileBbSpec(prev, ctx, bbs[|bbs| - 1], retTy, labels)
  }

  /** `compile_func`: set the spill offsets, bind the function's label,
      emit the prologue for locals and spills, then every block in order. */
  function CompileFuncSpec(st: CgState, ctx: McIrContext, curFn: nat, blockLabels: seq<nat>, funcLabels: seq<nat>): Option<CgState>
  {
    if curFn >= |ctx.functions| || curFn >= |funcLabels| then None
    else
      var func := ctx.functions[curFn];
      var st1 := CgState(
        st.code + PrologueCode(func.localsNum + GSpill(func.gRegs) + FSpill(func.fRegs)),
        st.bound[funcLabels[curFn] := |st.code|],
        func.localsNum,
        func.localsNum + GSpill(func.gRegs));
      CompileBbsSpec(st1, ctx, func.bbs, func.retTy, blockLabels)
  }

  /** Functions 0..n-1 compiled in order. */
  function CompileFuncsSpec(st: CgState, ctx: McIrContext, n: nat, blockLabels: seq<nat>, funcLabels: seq<nat>): Option<CgState>
  {
    if n == 0 then Some(st)
    else
      var prev :- CompileFuncsSpec(st, ctx, n - 1, blockLabels, funcLabels);
      CompileFuncSpec(prev, ctx, n - 1, blockLabels, funcLabels)
  }

  /** Offsets never change code or bindings; the spill offsets after a
      function compiles are the ones its frame was laid out for. */
  lemma CompileFuncOffsets(st: CgState, ctx: McIrContext, curFn: nat, blockLabels: seq<nat>, funcLabels: seq<nat>)
    requires CompileFuncSpec(st, ctx, curFn, blockLabels, funcLabels).Some?
    ensures var st' := CompileFuncSpec(st, ctx, curFn, blockLabels, funcLabels).value;
      var func := ctx.functions[curFn];
      st'.gOffset == func.localsNum && st'.fOffset == func.localsNum + GSpill(func.gRegs) &&
      |st.code| + 2 <= |st'.code| && st'.code[..|st.code|] == st.code &&
      st'.code[|st.code|..|st.code| + 2] == [PushRbp, MovRbpRsp] &&
      funcLabels[curFn] in st'.bound
  {
    var func := ctx.functions[curFn];
    var st1 := CgState(
      st.code + PrologueCode(func.localsNum + GSpill(func.gRegs) + FSpill(func.fRegs)),
      st.bound[funcLabels[curFn] := |st.code|],
      func.localsNum,
      func.localsNum + GSpill(func.gRegs));
    BbsKeep(st1, ctx, func.bbs, func.retTy, blockLabels);
    assert st1.code[..|st.code|] == st.code;
  }

  /** Compiling blocks only appends code, keeps the offsets, and keeps
      every label already bound. */
  lemma {:induction false} BbsKeep(st: CgState, ctx: McIrContext, bbs: seq<nat>, retTy: Type, labels: seq<nat>)
    requires CompileBbsSpec(st, ctx, bbs, retTy, labels).Some?
    ensures var st' := CompileBbsSpec(st, ctx, bbs, retTy, labels).value;
      st'.gOffset == st.gOffset && st'.fOffset == st.fOffset &&
      |st.code| <= |st'.code| && st'.code[..|st.code|] == st.code &&
      st.bound.Keys <= st'.bound.Keys
    decreases |bbs|
  {
    if bbs != [] {
      BbsKeep(st, ctx, bbs[..|bbs| - 1], retTy, labels);
      var prev := CompileBbsSpec(st, ctx, bbs[..|bbs| - 1], retTy, labels).value;
      var st' := CompileBbSpec(prev, ctx, bbs[|bbs| - 1], retTy, labels).value;
      assert st'.code[..|prev.code|] == prev.code;
      assert st'.code[..|st.code|] == prev.code[..|st.code|];
    }
  }

  // ---------------------------------------------------------------------
  // The code generator
  // ---------------------------------------------------------------------

  class Codegen {
    var code: seq<Asm>
    var bound: map<nat, nat>
    var labelCount: nat
    var gOffset: nat
    var fOffset: nat
    var blockLabels: seq<nat>
    var funcLabels: seq<nat>

    function State(): CgState
      reads this
    {
      CgState(code, bound, gOffset, fOffset)
    }

    constructor ()
      ensures code == [] && bound == map[] && labelCount == 0
      ensures gOffset == 0 && fOffset == 0 && blockLabels == [] && funcLabels == []
    {
      code := [];
      bound := map[];
      labelCount := 0;
      gOffset := 0;
      fOffset := 0;
      blockLabels := [];
      funcLabels := [];
    }

    /** A fresh label, distinct from every label handed out before. */
    method NewLabel() returns (l: nat)
      modifies this
      ensures l == old(labelCount) && labelCount == old(labelCount) + 1
      ensures code == old(code) && bound == old(bound)
      ensures gOffset == old(gOffset) && fOffset == old(fOffset)
      ensures blockLabels == old(blockLabels) && funcLabels == old(funcLabels)
    {
      l := labelCount;
      labelCount := labelCount + 1;
    }

    method Emit(more: seq<Asm>)
      modifies this
      ensures code == old(code) + more
      ensures bound == old(bound) && labelCount == old(labelCount)
      ensures gOffset == old(gOffset) && fOffset == old(fOffset)
      ensures blockLabels == old(blockLabels) && funcLabels == old(funcLabels)
    {
      code := code + more;
    }

    /** `compile_bb`. */
    method CompileBb(ctx: McIrContext, bbi: nat, retTy: Type) returns (ok: bool)
      modifies this
      ensures ok <==> CompileBbSpec(old(State()), ctx, bbi, retTy, old(blockLabels)).Some?
      ensures ok ==> State() == CompileBbSpec(old(State()), ctx, bbi, retTy, old(blockLabels)).value
      ensures labelCount == old(labelCount) && blockLabels == old(blockLabels) && funcLabels == old(funcLabels)
    {
      if bbi >= |ctx.blocks| || bbi >= |blockLabels| {
        return false;
      }
      bound := bound[blockLabels[bbi] := |code|];
      ok := EmitInsts(bbi, ctx.blocks[bbi].insts, retTy);
    }

    /** The loop of `compile_bb` over the block's instructions. */
    method EmitInsts(bbi: nat, insts: seq<McIR>, retTy: Type) returns (ok: bool)
      modifies this
      ensures ok <==> LowerInsts(bbi, insts, retTy, blockLabels, gOffset).Some?
      ensures ok ==> code == old(code) + LowerInsts(bbi, insts, retTy, blockLabels, gOffset).value
      ensures bound == old(bound) && gOffset == old(gOffset) && fOffset == old(fOffset)
      ensures labelCount == old(labelCount) && blockLabels == old(blockLabels) && funcLabels == old(funcLabels)
    {
      var i := 0;
      while i < |insts|
        invariant i <= |insts|
        invariant blockLabels == old(blockLabels) && funcLabels == old(funcLabels) && labelCount == old(labelCount)
        invariant gOffset == old(gOffset) && fOffset == old(fOffset) && bound == old(bound)
        invariant LowerInsts(bbi, insts[..i], retTy, blockLabels, gOffset).Some?
        invariant code == old(code) + LowerInsts(bbi, insts[..i], retTy, blockLabels, gOffset).value
      {
        assert insts[..i + 1][..i] == insts[..i];
        var out := LowerInst(bbi, insts[i], retTy, blockLabels, gOffset);
        if out.None? {
          LowerInstsPanicPropagates(bbi, insts, retTy, blockLabels, gOffset, i + 1);
          return false;
        }
        Emit(out.value);
        i := i + 1;
      }
      assert insts[..i] == insts;
      ok := true;
    }

    /** `compile_func`. */
    method CompileFunc(ctx: McIrContext, curFn: nat) returns (ok: bool)
      modifies this
      ensures ok <==> CompileFuncSpec(old(State()), ctx, curFn, old(blockLabels), old(funcLabels)).Some?
      ensures ok ==> State() == CompileFuncSpec(old(State()), ctx, curFn, old(blockLabels), old(funcLabels)).value
      ensures labelCount == old(labelCount) && blockLabels == old(blockLabels) && funcLabels == old(funcLabels)
    {
      if curFn >= |ctx.functions| || curFn >= |funcLabels| {
        return false;
      }
      var func := ctx.functions[curFn];
      var gSpill := if func.gRegs < 5 then 0 else func.gRegs - 4;
      var fSpill := if func.fRegs < 15 then 0 else func.fRegs - 14;
      gOffset := func.localsNum;
      fOffset := func.localsNum + gSpill;
      bound := bound[funcLabels[curFn] := |code|];
      Emit(PrologueCode(func.localsNum + gSpill + fSpill));
      assert gSpill == GSpill(func.gRegs) && fSpill == FSpill(func.fRegs);
      assert CompileFuncSpec(old(State()), ctx, curFn, blockLabels, funcLabels) == CompileBbsSpec(State(), ctx, func.bbs, func.retTy, blockLabels);
      ok := CompileBbs(ctx, func.bbs, func.retTy);
    }

    /** The loop of `compile_func` over the function's blocks. */
    method CompileBbs(ctx: McIrContext, bbs: seq<nat>, retTy: Type) returns (ok: bool)
      modifies this
      ensures ok <==> CompileBbsSpec(old(State()), ctx, bbs, retTy, old(blockLabels)).Some?
      ensures ok ==> State() == CompileBbsSpec(old(State()), ctx, bbs, retTy, old(blockLabels)).value
      ensures labelCount == old(labelCount) && blockLabels == old(blockLabels) && funcLabels == old(funcLabels)
    {
      ghost var st1 := State();
      var j := 0;
      while j < |bbs|
        invariant j <= |bbs|
        invariant blockLabels == old(blockLabels) && funcLabels == old(funcLabels) && labelCount == old(labelCount)
        invariant CompileBbsSpec(st1, ctx, bbs[..j], retTy, blockLabels) == Some(State())
      {
        assert bbs[..j + 1][..j] == bbs[..j];
        ok := CompileBb(ctx, bbs[j], retTy);
        if !ok {
          BbsPanicPropagates(st1, ctx, bbs, retTy, blockLabels, j + 1);
          return;
        }
        j := j + 1;
      }
      assert bbs[..j] == bbs;
      ok := true;
    }

    /** The compiling half of `compile_and_run`: one fresh label per block,
        then one per function, then every function in order. Finalizing
        and calling the code are not modelled. */
    method CompileAll(ctx: McIrContext) returns (ok: bool)
      modifies this
      ensures blockLabels == old(blockLabels) + seq(|ctx.blocks|, i => old(labelCount) + i)
      ensures funcLabels == old(funcLabels) + seq(|ctx.functions|, j => old(labelCount) + |ctx.blocks| + j)
      ensures labelCount == old(labelCount) + |ctx.blocks| + |ctx.functions|
      ensures var r := CompileFuncsSpec(old(State()), ctx, |ctx.functions|, blockLabels, funcLabels);
        ok <==> r.Some? && |ctx.functions| > 0
      ensures ok ==> State() == CompileFuncsSpec(old(State()), ctx, |ctx.functions|, blockLabels, funcLabels).value
    {
      var i := 0;
      while i < |ctx.blocks|
        invariant i <= |ctx.blocks|
        invariant blockLabels == old(blockLabels) + seq(i, k => old(labelCount) + k)
        invariant labelCount == old(labelCount) + i
        invariant funcLabels == old(funcLabels) && State() == old(State())
      {
        var l := NewLabel();
        blockLabels := blockLabels + [l];
        i := i + 1;
      }
      var j := 0;
      while j < |ctx.functions|
        invariant j <= |ctx.functions|
        invariant blockLabels == old(blockLabels) + seq(|ctx.blocks|, k => old(labelCount) + k)
        invariant funcLabels == old(funcLabels) + seq(j, k => old(labelCount) + |ctx.blocks| + k)
        invariant labelCount == old(labelCount) + |ctx.blocks| + j
        invariant State() == old(State())
      {
        var l := NewLabel();
        funcLabels := funcLabels + [l];
        j := j + 1;
      }
      ghost var st0 := State();
      var n := 0;
      while n < |ctx.functions|
        invariant n <= |ctx.functions|
        invariant blockLabels == old(blockLabels) + seq(|ctx.blocks|, k => old(labelCount) + k)
        invariant funcLabels == old(funcLabels) + seq(|ctx.functions|, k => old(labelCount) + |ctx.blocks| + k)
        invariant labelCount == old(labelCount) + |ctx.blocks| + |ctx.functions|
        invariant CompileFuncsSpec(st0, ctx, n, blockLabels, funcLabels) == Some(State())
      {
        ok := CompileFunc(ctx, n);
        if !ok {
          FuncsPanicPropagates(st0, ctx, |ctx.functions|, blockLabels, funcLabels, n + 1);
          return;
        }
        n := n + 1;
      }
      ok := |ctx.functions| > 0;
    }
  }

  lemma {:induction false} LowerInstsPanicPropagates(bbi: nat, insts: seq<McIR>, retTy: Type, labels: seq<nat>, gOffset: nat, k: nat)
    requires k <= |insts|
    requires LowerInsts(bbi, insts[..k], retTy, labels, gOffset).None?
    ensures LowerInsts(bbi, insts, retTy, labels, gOffset).None?
    decreases |insts| - k
  {
    if k < |insts| {
      assert insts[..k + 1][..k] == insts[..k];
      LowerInstsPanicPropagates(bbi, insts, retTy, labels, gOffset, k + 1);
    } else {
      assert insts[..k] == insts;
    }
  }

  lemma {:induction false} BbsPanicPropagates(st: CgState, ctx: McIrContext, bbs: seq<nat>, retTy: Type, labels: seq<nat>, k: nat)
    requires k <= |bbs|
    requires CompileBbsSpec(st, ctx, bbs[..k], retTy, labels).None?
    ensures CompileBbsSpec(st, ctx, bbs, retTy, labels).None?
    decreases |bbs| - k
  {
    if k < |bbs| {
      assert bbs[..k + 1][..k] == bbs[..k];
      BbsPanicPropagates(st, ctx, bbs, retTy, labels, k + 1);
    } else {
      assert bbs[..k] == bbs;
    }
  }

  lemma {:induction false} FuncsPanicPropagates(st: CgState, ctx: McIrContext, n: nat, blockLabels: seq<nat>, funcLabels: seq<nat>, k: nat)
    requires k <= n
    requires CompileFuncsSpec(st, ctx, k, blockLabels, funcLabels).None?
    ensures CompileFuncsSpec(st, ctx, n, blockLabels, funcLabels).None?
    decreases n - k
  {
    if k < n {
      FuncsPanicPropagates(st, ctx, n, blockLabels, funcLabels, k + 1);
    }
  }
}
