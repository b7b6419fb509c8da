/** The HIR evaluator (src/eval.rs): a basic-block interpreter with a
    per-function JIT decision. The first call of a function tries to compile
    it; success sends that call and every later one to native code, failure
    sends them all to the interpreter, and the decision is never revisited.
    Compiling and running native code are supplied by the caller. */
module Eval {
  import opened Base

  datatype Type = Integer | Float | Bool

  datatype Value = Integer(i: Int32) | Float(f: F64) | Bool(b: bool) | Nil

  datatype Operand = Reg(r: nat) | Const(c: Value)

  datatype Unop = Unop(ret: nat, src: Operand)
  datatype Binop = Binop(ret: nat, lhs: Operand, rhs: Operand)

  datatype ArithOp = Add | Sub | Mul | Div

  /** The instructions of the block-structured HIR the evaluator runs. */
  datatype Inst =
    | Integer(ret: nat, i: Int32)
    | Float(ret: nat, f: F64)
    | Nil(ret: nat)
    | Neg(u: Unop)
    | Arith(op: ArithOp, b: Binop)
    | Cmp(kind: CmpKind, b: Binop)
    | CmpBr(kind: CmpKind, lhs: nat, rhs: Operand, thenBb: nat, elseBb: nat)
    | Ret(src: Operand)
    | LocalStore(dst: Option<nat>, ident: nat, from: nat)
    | LocalLoad(ident: nat, to: nat)
    | Call(id: nat, res: Option<nat>, args: seq<Operand>)
    | Br(next: nat)
    | CondBr(cond: nat, thenBb: nat, elseBb: nat)
    | Phi(ret: nat, phi: seq<(nat, nat)>)

  datatype Block = Block(insts: seq<Inst>)
  datatype Function = Function(localsNum: nat, registerNum: nat, entryBb: nat)
  datatype HirContext = HirContext(functions: seq<Function>, blocks: seq<Block>)

  /** What the interpreter needs from outside: float arithmetic, the
      compiler (`jit_compile`: a code address and return type, or `None`
      when compilation fails) and native execution (`Codegen::run`). */
  datatype Env = Env(
    fpu: Fpu,
    compile: (nat, seq<Value>) -> Option<(nat, Type)>,
    run: (nat, Type, seq<Value>) -> Value)

  datatype Outcome<T> = Done(v: T) | Panic | OutOfFuel

  // ---------------------------------------------------------------------
  // Values
  // ---------------------------------------------------------------------

  /** The 32-bit integer operations with debug-build overflow checks:
      `None` on overflow or division by zero. Division truncates. */
  function IntArith(op: ArithOp, a: Int32, b: Int32): Option<Int32>
  {
    var exact := match op
      case Add => a + b
      case Sub => a - b
      case Mul => a * b
      case Div => if b == 0 then 0 else TruncDiv(a, b);
    if (op == Div && b == 0) || !InI32(exact) then None else Some(exact)
  }

  function FloatArith(fpu: Fpu, op: ArithOp, a: F64, b: F64): F64
  {
    match op
    case Add => fpu.add(a, b)
    case Sub => fpu.sub(a, b)
    case Mul => fpu.mul(a, b)
    case Div => fpu.div(a, b)
  }

  /** The `Add`/`Sub`/`Mul`/`Div` arms: an integer meeting a float is
      converted first; any other kind is unreachable. */
  function ArithValues(fpu: Fpu, op: ArithOp, l: Value, r: Value): (v: Option<Value>)
    ensures v.Some? && v.value.Integer? <==> l.Integer? && r.Integer? && IntArith(op, l.i, r.i).Some?
    ensures v.Some? && v.value.Float? <==> (l.Integer? || l.Float?) && (r.Integer? || r.Float?) && !(l.Integer? && r.Integer?)
    ensures v.Some? ==> v.value.Integer? || v.value.Float?
  {
    match (l, r)
    case (Integer(a), Integer(b)) =>
      var n :- IntArith(op, a, b);
      Some(Value.Integer(n))
    case (Integer(a), Float(b)) => Some(Value.Float(FloatArith(fpu, op, fpu.fromInt(a), b)))
    case (Float(a), Integer(b)) => Some(Value.Float(FloatArith(fpu, op, a, fpu.fromInt(b))))
    case (Float(a), Float(b)) => Some(Value.Float(FloatArith(fpu, op, a, b)))
    case _ => None
  }

  /** Integer arithmetic computes the exact mathematical result whenever
      it fits in 32 bits; division panics on zero and on i32::MIN / -1,
      and otherwise truncates toward zero. */
  lemma IntArithExact(op: ArithOp, a: Int32, b: Int32)
    ensures op == Add ==> IntArith(op, a, b) == (if InI32(a + b) then Some(a + b) else None)
    ensures op == Sub ==> IntArith(op, a, b) == (if InI32(a - b) then Some(a - b) else None)
    ensures op == Mul ==> IntArith(op, a, b) == (if InI32(a * b) then Some(a * b) else None)
    ensures op == Div ==> (IntArith(op, a, b).None? <==> b == 0 || (a == I32_MIN && b == -1))
    ensures op == Div && IntArith(op, a, b).Some? ==>
      var q := IntArith(op, a, b).value;
      Abs(q) * Abs(b) <= Abs(a) < (Abs(q) + 1) * Abs(b) &&
      (q < 0 ==> (a < 0) != (b < 0)) && (q > 0 ==> (a < 0) == (b < 0))
  {
    if op == Div && b != 0 {
      var q := TruncDiv(a, b);
      TruncDivBrackets(a, b);
      if a == I32_MIN && b == -1 {
        assert q == 0x8000_0000;
      } else if Abs(b) == 1 {
        assert q == a || q == -a;
      } else {
        assert Abs(q) * 2 <= Abs(q) * Abs(b) by {
          MulMonotone2(Abs(q), 2, Abs(b));
        }
      }
    }
  }

  /** The `value_op!` comparisons: integers and floats compare (an integer
      meeting a float is converted); anything else is unreachable. */
  function CompareValues(fpu: Fpu, kind: CmpKind, l: Value, r: Value): (b: Option<bool>)
    ensures b.Some? <==> (l.Integer? || l.Float?) && (r.Integer? || r.Float?)
    ensures l.Integer? && r.Integer? ==> b == Some(CompareInt(kind, l.i, r.i))
  {
    match (l, r)
    case (Integer(a), Integer(c)) => Some(CompareInt(kind, a, c))
    case (Integer(a), Float(c)) => Some(CompareFloat(fpu, kind, fpu.fromInt(a), c))
    case (Float(a), Integer(c)) => Some(CompareFloat(fpu, kind, a, fpu.fromInt(c)))
    case (Float(a), Float(c)) => Some(CompareFloat(fpu, kind, a, c))
    case _ => None
  }

  /** The `Neg` arm: `-i` on an i32 panics for i32::MIN. */
  function NegValue(fpu: Fpu, v: Value): (r: Option<Value>)
    ensures r.Some? <==> (v.Integer? && v.i != I32_MIN) || v.Float?
    ensures v.Integer? && r.Some? ==> r.value == Value.Integer(-v.i)
  {
    match v
    case Integer(i) => if i == I32_MIN then None else Some(Value.Integer(-i))
    case Float(f) => Some(Value.Float(fpu.neg(f)))
    case _ => None
  }

  /** The first phi entry whose block is `bb`, as `iter().find`. */
  function FindPhi(phi: seq<(nat, nat)>, bb: nat): (r: Option<nat>)
    ensures r.None? <==> forall i :: 0 <= i < |phi| ==> phi[i].0 != bb
    ensures r.Some? ==> (exists i :: 0 <= i < |phi| && phi[i] == (bb, r.value) &&
                                 forall j :: 0 <= j < i ==> phi[j].0 != bb)
  {
    if phi == [] then None
    else if phi[0].0 == bb then
      assert phi[0] == (bb, phi[0].1);
      Some(phi[0].1)
    else
      var r := FindPhi(phi[1..], bb);
      if r.Some? then
        var i :| 0 <= i < |phi[1..]| && phi[1..][i] == (bb, r.value) &&
          forall j :: 0 <= j < i ==> phi[1..][j].0 != bb;
        assert phi[i + 1] == (bb, r.value);
        assert forall j :: 1 <= j < i + 1 ==> phi[j].0 == phi[1..][j - 1].0;
        r
      else
        assert forall i :: 1 <= i < |phi| ==> phi[i] == phi[1..][i - 1];
        r
  }

  // ---------------------------------------------------------------------
  // Frames
  // ---------------------------------------------------------------------

  /** A function activation: SSA registers, locals, the current and the
      previous basic block, and the index of the next instruction. */
  datatype Frame = Frame(ssareg: seq<Value>, locals: seq<Value>, curBb: nat, prevBb: nat, pc: nat)

  /** The frame a call starts from: the arguments in the first locals,
      `Nil` in the rest and in every register, at the entry block.
      Copying more arguments than there are locals panics. */
  function InitFrame(func: Function, args: seq<Value>): (fr: Option<Frame>)
    ensures fr.Some? <==> |args| <= func.localsNum
    ensures fr.Some? ==>
      |fr.value.locals| == func.localsNum && fr.value.locals[..|args|] == args &&
      (forall i :: |args| <= i < func.localsNum ==> fr.value.locals[i] == Value.Nil) &&
      |fr.value.ssareg| == func.registerNum &&
      (forall r :: 0 <= r < func.registerNum ==> fr.value.ssareg[r] == Value.Nil) &&
      fr.value.curBb == func.entryBb && fr.value.prevBb == 0 && fr.value.pc == 0
  {
    if |args| > func.localsNum then None
    else Some(Frame(seq(func.registerNum, _ => Value.Nil), args + seq(func.localsNum - |args|, _ => Value.Nil), func.entryBb, 0, 0))
  }

  /** `goto`: the block left becomes the previous block and execution
      restarts at the top of `bb`. */
  function Jump(fr: Frame, bb: nat): (fr': Frame)
    ensures fr'.prevBb == fr.curBb && fr'.curBb == bb && fr'.pc == 0
    ensures fr'.ssareg == fr.ssareg && fr'.locals == fr.locals
  {
    fr.(prevBb := fr.curBb, curBb := bb, pc := 0)
  }

  /** `eval_operand`; an out-of-range register panics. */
  function OperandValue(fr: Frame, op: Operand): Option<Value>
  {
    match op
    case Const(c) => Some(c)
    case Reg(r) => if r < |fr.ssareg| then Some(fr.ssareg[r]) else None
  }

  function SetReg(fr: Frame, r: nat, v: Value): Option<Frame>
  {
    if r < |fr.ssareg| then Some(fr.(ssareg := fr.ssareg[r := v])) else None
  }

  /** The outcome of one instruction other than `Call`. */
  datatype Flow = Continue(frame: Frame) | Return(v: Value) | Fault

  function Lift(fr: Option<Frame>): Flow
  {
    if fr.Some? then Continue(fr.value) else Fault
  }

  /** `eval` on every instruction but `Call`. */
  function Step(fpu: Fpu, fr: Frame, inst: Inst): Flow
    requires !inst.Call?
  {
    match inst
    case Integer(ret, i) => Lift(SetReg(fr, ret, Value.Integer(i)))
    case Float(ret, f) => Lift(SetReg(fr, ret, Value.Float(f)))
    case Nil(ret) => Lift(SetReg(fr, ret, Value.Nil))
    case Neg(u) =>
      var src := OperandValue(fr, u.src);
      var v := if src.Some? then NegValue(fpu, src.value) else None;
      if v.None? then Fault else Lift(SetReg(fr, u.ret, v.value))
    case Arith(op, b) =>
      var l := OperandValue(fr, b.lhs);
      var r := OperandValue(fr, b.rhs);
      var v := if l.Some? && r.Some? then ArithValues(fpu, op, l.value, r.value) else None;
      if v.None? then Fault else Lift(SetReg(fr, b.ret, v.value))
    case Cmp(kind, b) =>
      var l := OperandValue(fr, b.lhs);
      var r := OperandValue(fr, b.rhs);
      var c := if l.Some? && r.Some? then CompareValues(fpu, kind, l.value, r.value) else None;
      if c.None? then Fault else Lift(SetReg(fr, b.ret, Value.Bool(c.value)))
    case CmpBr(kind, lhs, rhs, thenBb, elseBb) =>
      var l := OperandValue(fr, Reg(lhs));
      var r := OperandValue(fr, rhs);
      var c := if l.Some? && r.Some? then CompareValues(fpu, kind, l.value, r.value) else None;
      if c.None? then Fault else Continue(Jump(fr, if c.value then thenBb else elseBb))
    case Ret(src) =>
      var v := OperandValue(fr, src);
      if v.None? then Fault else Return(v.value)
    case LocalStore(dst, ident, from) =>
      if from >= |fr.ssareg| || ident >= |fr.locals| then Fault
      else
        var fr1 := fr.(locals := fr.locals[ident := fr.ssareg[from]]);
        if dst.None? then Continue(fr1) else Lift(SetReg(fr1, dst.value, fr.ssareg[from]))
    case LocalLoad(ident, to) =>
      if ident >= |fr.locals| then Fault else Lift(SetReg(fr, to, fr.locals[ident]))
    case Br(next) => Continue(Jump(fr, next))
    case CondBr(cond, thenBb, elseBb) =>
      if cond >= |fr.ssareg| then Fault
      else Continue(Jump(fr, if fr.ssareg[cond] == Value.Bool(false) then elseBb else thenBb))
    case Phi(ret, phi) =>
      var reg := FindPhi(phi, fr.prevBb);
      if reg.None? || reg.value >= |fr.ssareg| then Fault
      else Lift(SetReg(fr, ret, fr.ssareg[reg.value]))
  }

  /** The arguments of a call, evaluated left to right. */
  function CallArgs(fr: Frame, args: seq<Operand>): (vs: Option<seq<Value>>)
    ensures vs.Some? <==> forall i :: 0 <= i < |args| ==> OperandValue(fr, args[i]).Some?
    ensures vs.Some? ==> |vs.value| == |args|
    ensures vs.Some? ==> forall i :: 0 <= i < |args| ==> vs.value[i] == OperandValue(fr, args[i]).value
    decreases |args|
  {
    if args == [] then Some([])
    else
      var init :- CallArgs(fr, args[..|args| - 1]);
      var last :- OperandValue(fr, args[|args| - 1]);
      assert forall i :: 0 <= i < |args| - 1 ==> args[..|args| - 1][i] == args[i];
      Some(init + [last])
  }

  /** `CondBr` takes the else branch only on `false` itself: `nil`, numbers
      and `true` all take the then branch. */
  lemma CondBrTruthiness(fpu: Fpu, fr: Frame, cond: nat, thenBb: nat, elseBb: nat)
    requires cond < |fr.ssareg|
    ensures var next := Step(fpu, fr, CondBr(cond, thenBb, elseBb));
      next.Continue? && next.frame.prevBb == fr.curBb && next.frame.pc == 0 &&
      (next.frame.curBb == if fr.ssareg[cond] == Value.Bool(false) then elseBb else thenBb) &&
      (fr.ssareg[cond] == Value.Nil ==> next.frame.curBb == thenBb)
  {
  }

  /** `Phi` copies the register paired with the block execution came from. */
  lemma PhiSelectsPredecessor(fpu: Fpu, fr: Frame, ret: nat, phi: seq<(nat, nat)>, i: nat)
    requires i < |phi| && phi[i].0 == fr.prevBb && phi[i].1 < |fr.ssareg| && ret < |fr.ssareg|
    requires forall j :: 0 <= j < |phi| && j != i ==> phi[j].0 != fr.prevBb
    ensures Step(fpu, fr, Phi(ret, phi)) == Continue(fr.(ssareg := fr.ssareg[ret := fr.ssareg[phi[i].1]]))
  {
    var reg := FindPhi(phi, fr.prevBb);
    var k :| 0 <= k < |phi| && phi[k] == (fr.prevBb, reg.value) && forall j :: 0 <= j < k ==> phi[j].0 != fr.prevBb;
    assert k == i;
  }

  /** `LocalStore` writes the local and, when present, the result register
      with the same value; nothing else changes. */
  lemma LocalStoreEffect(fpu: Fpu, fr: Frame, dst: Option<nat>, ident: nat, from: nat)
    requires from < |fr.ssareg| && ident < |fr.locals|
    requires dst.Some? ==> dst.value < |fr.ssareg|
    ensures var next := Step(fpu, fr, LocalStore(dst, ident, from));
      next.Continue? && next.frame.locals == fr.locals[ident := fr.ssareg[from]] &&
      next.frame.ssareg == (if dst.Some? then fr.ssareg[dst.value := fr.ssareg[from]] else fr.ssareg) &&
      next.frame.curBb == fr.curBb && next.frame.prevBb == fr.prevBb && next.frame.pc == fr.pc
  {
  }

  /** Integer operands give an integer result (or a panic on overflow). */
  lemma IntArithStaysInt(fpu: Fpu, fr: Frame, op: ArithOp, b: Binop)
    requires OperandValue(fr, b.lhs).Some? && OperandValue(fr, b.lhs).value.Integer?
    requires OperandValue(fr, b.rhs).Some? && OperandValue(fr, b.rhs).value.Integer?
    requires b.ret < |fr.ssareg|
    ensures var next := Step(fpu, fr, Arith(op, b));
      var a := OperandValue(fr, b.lhs).value.i;
      var c := OperandValue(fr, b.rhs).value.i;
      (next.Continue? <==> IntArith(op, a, c).Some?) &&
      (next.Continue? ==> next.frame.ssareg[b.ret] == Value.Integer(IntArith(op, a, c).value))
  {
  }

  // ---------------------------------------------------------------------
  // The interpreter
  // ---------------------------------------------------------------------

  class FuncContext {
    var ssareg: seq<Value>
    var locals: seq<Value>
    var curBb: nat
    var prevBb: nat
    var pc: nat

    function State(): Frame
      reads this
    {
      Frame(ssareg, locals, curBb, prevBb, pc)
    }

    constructor (fr: Frame)
      ensures State() == fr
    {
      ssareg := fr.ssareg;
      locals := fr.locals;
      curBb := fr.curBb;
      prevBb := fr.prevBb;
      pc := fr.pc;
    }

    /** `goto`. */
    method Goto(bb: nat)
      modifies this
      ensures State() == Jump(old(State()), bb)
    {
      prevBb := curBb;
      curBb := bb;
      pc := 0;
    }

    /** `ctx[r] = v`; out of range panics. */
    method Set(r: nat, v: Value) returns (ok: bool)
      modifies this
      ensures ok <==> r < old(|ssareg|)
      ensures ok ==> State() == SetReg(old(State()), r, v).value
      ensures !ok ==> State() == old(State())
    {
      ok := r < |ssareg|;
      if ok {
        ssareg := ssareg[r := v];
      }
    }
  }

  /** JIT decisions: a compiled function's code address and return type,
      or a failed compilation. */
  datatype JitState = Fail | Success(dest: nat, ty: Type)

  /** Decisions already taken are kept, unchanged. */
  predicate Keeps(before: map<nat, JitState>, after: map<nat, JitState>)
  {
    forall f :: f in before ==> f in after && after[f] == before[f]
  }

  class Evaluator {
    var jitState: map<nat, JitState>
    /** Every function compilation was attempted for, in order. */
    ghost var attempts: seq<nat>

    /** Compilation was attempted at most once per function, and only for
        functions that now have a decision. */
    ghost predicate Valid()
      reads this
    {
      NoDup(attempts) && forall i :: 0 <= i < |attempts| ==> attempts[i] in jitState
    }

    constructor ()
      ensures jitState == map[] && attempts == [] && Valid()
    {
      jitState := map[];
      attempts := [];
    }

    /** `eval_function`: consult the JIT memo, compile on the first call,
        and otherwise interpret block by block. `fuel` bounds the number of
        instructions and the depth of calls. */
    method EvalFunction(hir: HirContext, curFn: nat, args: seq<Value>, env: Env, fuel: nat) returns (r: Outcome<Value>)
      requires Valid()
      modifies this
      decreases fuel, 3
      ensures Valid() && Keeps(old(jitState), jitState)
      ensures |old(attempts)| <= |attempts| && attempts[..|old(attempts)|] == old(attempts)
      ensures curFn in old(jitState) && old(jitState)[curFn].Success? ==>
        r == Done(env.run(old(jitState)[curFn].dest, old(jitState)[curFn].ty, args)) &&
        jitState == old(jitState) && attempts == old(attempts)
      ensures curFn !in old(jitState) && curFn < |hir.functions| ==>
        |attempts| > |old(attempts)| && attempts[|old(attempts)|] == curFn &&
        jitState[curFn] == (if env.compile(curFn, args).Some? then Success(env.compile(curFn, args).value.0, env.compile(curFn, args).value.1) else Fail)
      ensures curFn !in old(jitState) && curFn < |hir.functions| && env.compile(curFn, args).Some? ==>
        r == Done(env.run(env.compile(curFn, args).value.0, env.compile(curFn, args).value.1, args)) &&
        jitState == old(jitState)[curFn := jitState[curFn]] && attempts == old(attempts) + [curFn]
    {
      if curFn in jitState {
        match jitState[curFn] {
          case Success(dest, ty) =>
            return Done(env.run(dest, ty, args));
          case Fail =>
        }
      } else {
        if curFn >= |hir.functions| {
          return Panic;
        }
        var compiled := env.compile(curFn, args);
        assert curFn !in attempts;
        attempts := attempts + [curFn];
        if compiled.Some? {
          jitState := jitState[curFn := Success(compiled.value.0, compiled.value.1)];
          return Done(env.run(compiled.value.0, compiled.value.1, args));
        }
        jitState := jitState[curFn := Fail];
      }
      if curFn >= |hir.functions| {
        return Panic;
      }
      var func := hir.functions[curFn];
      var fr := InitFrame(func, args);
      if fr.None? {
        return Panic;
      }
      var ctx := new FuncContext(fr.value);
      r := RunFrame(ctx, hir, env, fuel);
    }

    /** The loop of `eval_function`: fetch the instruction at the program
        counter, advance it and evaluate the instruction, until one
        returns; each step spends one unit of fuel. */
    method RunFrame(ctx: FuncContext, hir: HirContext, env: Env, fuel: nat) returns (r: Outcome<Value>)
      requires Valid()
      modifies this, ctx
      decreases fuel, 2
      ensures Valid() && Keeps(old(jitState), jitState)
      ensures |old(attempts)| <= |attempts| && attempts[..|old(attempts)|] == old(attempts)
    {
      ghost var jit0 := jitState;
      ghost var att0 := attempts;
      var steps: nat := fuel;
      while true
        invariant Valid() && Keeps(jit0, jitState) && steps <= fuel
        invariant |att0| <= |attempts| && attempts[..|att0|] == att0
        decreases steps
      {
        if steps == 0 {
          return OutOfFuel;
        }
        if ctx.curBb >= |hir.blocks| || ctx.pc >= |hir.blocks[ctx.curBb].insts| {
          return Panic;
        }
        var op := hir.blocks[ctx.curBb].insts[ctx.pc];
        ctx.pc := ctx.pc + 1;
        ghost var att1 := attempts;
        var res := Eval(ctx, hir, op, env, steps);
        assert attempts[..|att0|] == attempts[..|att1|][..|att0|];
        match res {
          case Panic => return Panic;
          case OutOfFuel => return OutOfFuel;
          case Done(v) =>
            if v.Some? {
              return Done(v.value);
            }
        }
        steps := steps - 1;
      }
    }

    /** `eval`: one instruction. Every instruction but `Call` is `Step`; a
        `Call` evaluates its arguments and invokes the callee only when it
        has a result register. */
    method Eval(ctx: FuncContext, hir: HirContext, inst: Inst, env: Env, fuel: nat) returns (r: Outcome<Option<Value>>)
      requires Valid() && fuel > 0
      modifies this, ctx
      decreases fuel, 1
      ensures Valid() && Keeps(old(jitState), jitState)
      ensures |old(attempts)| <= |attempts| && attempts[..|old(attempts)|] == old(attempts)
      ensures !inst.Call? ==> jitState == old(jitState) && attempts == old(attempts)
      ensures !inst.Call? ==> (match Step(env.fpu, old(ctx.State()), inst)
        case Continue(fr) => r == Done(None) && ctx.State() == fr
        case Return(v) => r == Done(Some(v))
        case Fault => r == Panic)
      ensures inst.Call? && inst.res.None? ==>
        jitState == old(jitState) && attempts == old(attempts) && ctx.State() == old(ctx.State()) &&
        (r == Done(None) <==> CallArgs(old(ctx.State()), inst.args).Some?) && (r == Done(None) || r == Panic)
      ensures inst.Call? && CallArgs(old(ctx.State()), inst.args).None? ==>
        r == Panic && ctx.State() == old(ctx.State()) && jitState == old(jitState) && attempts == old(attempts)
      ensures inst.Call? && inst.res.Some? && r == Done(None) ==>
        inst.res.value < |ctx.ssareg| && SetReg(old(ctx.State()), inst.res.value, ctx.ssareg[inst.res.value]) == Some(ctx.State())
      ensures inst.Call? && inst.res.Some? && r != Done(None) ==> ctx.State() == old(ctx.State())
      ensures inst.Call? && inst.res.Some? && inst.id in old(jitState) && old(jitState)[inst.id].Success? && CallArgs(old(ctx.State()), inst.args).Some? ==>
        var written := env.run(old(jitState)[inst.id].dest, old(jitState)[inst.id].ty, CallArgs(old(ctx.State()), inst.args).value);
        (r == Done(None) <==> inst.res.value < old(|ctx.ssareg|)) &&
        (r == Done(None) ==> ctx.State() == SetReg(old(ctx.State()), inst.res.value, written).value)
      ensures (inst.Call? && inst.res.Some? && inst.id !in old(jitState) && inst.id < |hir.functions| && CallArgs(old(ctx.State()), inst.args).Some? &&
               env.compile(inst.id, CallArgs(old(ctx.State()), inst.args).value).Some?) ==>
        var vs := CallArgs(old(ctx.State()), inst.args).value;
        var written := env.run(env.compile(inst.id, vs).value.0, env.compile(inst.id, vs).value.1, vs);
        (r == Done(None) <==> inst.res.value < old(|ctx.ssareg|)) &&
        (r == Done(None) ==> ctx.State() == SetReg(old(ctx.State()), inst.res.value, written).value)
    {
      if inst.Call? {
        r := EvalCall(ctx, hir, inst.id, inst.res, inst.args, env, fuel);
      } else {
        r := EvalStep(ctx, inst, env);
      }
    }

    /** `eval` on every instruction but `Call`: the instruction's `Step`. */
    method EvalStep(ctx: FuncContext, inst: Inst, env: Env) returns (r: Outcome<Option<Value>>)
      requires !inst.Call?
      modifies ctx
      ensures match Step(env.fpu, old(ctx.State()), inst)
        case Continue(fr) => r == Done(None) && ctx.State() == fr
        case Return(v) => r == Done(Some(v))
        case Fault => r == Panic
    {
      if inst.Integer? || inst.Float? || inst.Nil? || inst.Neg? || inst.Arith? || inst.Cmp? {
        r := EvalValue(ctx, inst, env);
      } else {
        r := EvalControl(ctx, inst, env);
      }
    }

    /** The instructions that compute a value into a register. */
    method EvalValue(ctx: FuncContext, inst: Inst, env: Env) returns (r: Outcome<Option<Value>>)
      requires inst.Integer? || inst.Float? || inst.Nil? || inst.Neg? || inst.Arith? || inst.Cmp?
      modifies ctx
      ensures match Step(env.fpu, old(ctx.State()), inst)
        case Continue(fr) => r == Done(None) && ctx.State() == fr
        case Return(v) => r == Done(Some(v))
        case Fault => r == Panic
    {
      match inst {
        case Integer(ret, i) =>
          var ok := ctx.Set(ret, Value.Integer(i));
          r := if ok then Done(None) else Panic;
        case Float(ret, f) =>
          var ok := ctx.Set(ret, Value.Float(f));
          r := if ok then Done(None) else Panic;
        case Nil(ret) =>
          var ok := ctx.Set(ret, Value.Nil);
          r := if ok then Done(None) else Panic;
        case Neg(u) =>
          var src := OperandValue(ctx.State(), u.src);
          if src.None? {
            return Panic;
          }
          var v := NegValue(env.fpu, src.value);
          if v.None? {
            return Panic;
          }
          var ok := ctx.Set(u.ret, v.value);
          r := if ok then Done(None) else Panic;
        case Arith(op, b) =>
          var l := OperandValue(ctx.State(), b.lhs);
          var rr := OperandValue(ctx.State(), b.rhs);
          if l.None? || rr.None? {
            return Panic;
          }
          var v := ArithValues(env.fpu, op, l.value, rr.value);
          if v.None? {
            return Panic;
          }
          var ok := ctx.Set(b.ret, v.value);
          r := if ok then Done(None) else Panic;
        case Cmp(kind, b) =>
          var l := OperandValue(ctx.State(), b.lhs);
          var rr := OperandValue(ctx.State(), b.rhs);
          if l.None? || rr.None? {
            return Panic;
          }
          var c := CompareValues(env.fpu, kind, l.value, rr.value);
          if c.None? {
            return Panic;
          }
          var ok := ctx.Set(b.ret, Value.Bool(c.value));
          r := if ok then Done(None) else Panic;
      }
    }

    /** The instructions that move values between locals and registers or
        change the control flow. */
    method EvalControl(ctx: FuncContext, inst: Inst, env: Env) returns (r: Outcome<Option<Value>>)
      requires !inst.Call? && !(inst.Integer? || inst.Float? || inst.Nil? || inst.Neg? || inst.Arith? || inst.Cmp?)
      modifies ctx
      ensures match Step(env.fpu, old(ctx.State()), inst)
        case Continue(fr) => r == Done(None) && ctx.State() == fr
        case Return(v) => r == Done(Some(v))
        case Fault => r == Panic
    {
      match inst {
        case CmpBr(kind, lhs, rhs, thenBb, elseBb) =>
          if lhs >= |ctx.ssareg| {
            return Panic;
          }
          var l := ctx.ssareg[lhs];
          var rr := OperandValue(ctx.State(), rhs);
          if rr.None? {
            return Panic;
          }
          var c := CompareValues(env.fpu, kind, l, rr.value);
          if c.None? {
            return Panic;
          }
          ctx.Goto(if c.value then thenBb else elseBb);
          r := Done(None);
        case Ret(src) =>
          var v := OperandValue(ctx.State(), src);
          r := if v.Some? then Done(Some(v.value)) else Panic;
        case LocalStore(dst, ident, from) =>
          if from >= |ctx.ssareg| || ident >= |ctx.locals| {
            return Panic;
          }
          ctx.locals := ctx.locals[ident := ctx.ssareg[from]];
          if dst.Some? {
            var ok := ctx.Set(dst.value, ctx.ssareg[from]);
            r := if ok then Done(None) else Panic;
          } else {
            r := Done(None);
          }
        case LocalLoad(ident, to) =>
          if ident >= |ctx.locals| {
            return Panic;
          }
          var ok := ctx.Set(to, ctx.locals[ident]);
          r := if ok then Done(None) else Panic;
        case Br(next) =>
          ctx.Goto(next);
          r := Done(None);
        case CondBr(cond, thenBb, elseBb) =>
          if cond >= |ctx.ssareg| {
            return Panic;
          }
          ctx.Goto(if ctx.ssareg[cond] == Value.Bool(false) then elseBb else thenBb);
          r := Done(None);
        case Phi(ret, phi) =>
          var reg := FindPhi(phi, ctx.prevBb);
          if reg.None? || reg.value >= |ctx.ssareg| {
            return Panic;
          }
          var ok := ctx.Set(ret, ctx.ssareg[reg.value]);
          r := if ok then Done(None) else Panic;
      }
    }

    /** `eval` on `Call`: the arguments are evaluated, and the callee is
        invoked only when the call has a result register. */
    method EvalCall(ctx: FuncContext, hir: HirContext, id: nat, res: Option<nat>, args: seq<Operand>, env: Env, fuel: nat)
      returns (r: Outcome<Option<Value>>)
      requires Valid() && fuel > 0
      modifies this, ctx
      decreases fuel, 0
      ensures Valid() && Keeps(old(jitState), jitState)
      ensures |old(attempts)| <= |attempts| && attempts[..|old(attempts)|] == old(attempts)
      ensures res.None? ==>
        jitState == old(jitState) && attempts == old(attempts) && ctx.State() == old(ctx.State()) &&
        (r == Done(None) <==> CallArgs(old(ctx.State()), args).Some?) && (r == Done(None) || r == Panic)
      ensures CallArgs(old(ctx.State()), args).None? ==>
        r == Panic && ctx.State() == old(ctx.State()) && jitState == old(jitState) && attempts == old(attempts)
      ensures res.Some? && r == Done(None) ==>
        res.value < |ctx.ssareg| && SetReg(old(ctx.State()), res.value, ctx.ssareg[res.value]) == Some(ctx.State())
      ensures res.Some? && r != Done(None) ==> ctx.State() == old(ctx.State())
      ensures res.Some? && id in old(jitState) && old(jitState)[id].Success? && CallArgs(old(ctx.State()), args).Some? ==>
        var written := env.run(old(jitState)[id].dest, old(jitState)[id].ty, CallArgs(old(ctx.State()), args).value);
        (r == Done(None) <==> res.value < old(|ctx.ssareg|)) &&
        (r == Done(None) ==> ctx.State() == SetReg(old(ctx.State()), res.value, written).value)
      ensures (res.Some? && id !in old(jitState) && id < |hir.functions| && CallArgs(old(ctx.State()), args).Some? &&
               env.compile(id, CallArgs(old(ctx.State()), args).value).Some?) ==>
        var vs := CallArgs(old(ctx.State()), args).value;
        var written := env.run(env.compile(id, vs).value.0, env.compile(id, vs).value.1, vs);
        (r == Done(None) <==> res.value < old(|ctx.ssareg|)) &&
        (r == Done(None) ==> ctx.State() == SetReg(old(ctx.State()), res.value, written).value)
    {
      var vs := CallArgs(ctx.State(), args);
      if vs.None? {
        return Panic;
      }
      if res.Some? {
        var v := EvalFunction(hir, id, vs.value, env, fuel - 1);
        match v {
          case Done(x) =>
            var ok := ctx.Set(res.value, x);
            r := if ok then Done(None) else Panic;
          case Panic => r := Panic;
          case OutOfFuel => r := OutOfFuel;
        }
      } else {
        r := Done(None);
      }
    }
  }
}
