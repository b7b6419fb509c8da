/** The bytecode generator (src/executor/bytecodegen.rs): the function
    store, the per-function generator state, and the walk that turns a
    syntax tree into label-based IR and then into bytecode. */
module Bytecodegen {
  import opened Base
  import Ast
  import opened Bytecode

  /** The errors a generation step reports. A failed Rust assertion, an
      `unwrap` of `None`, an out-of-range index or an arithmetic overflow
      is a `Panic` instead. */
  datatype Error = UndefinedLocal(name: Ast.Ident) | Unimplemented
  datatype Res = Ok | Err(e: Error) | Panic

  /** A snapshot of `NormalFuncInfo`. */
  datatype NormalData = NormalData(
    id: nat, nameId: Ast.Ident, bc: seq<BcOp>, args: seq<Ast.Ident>,
    locals: map<Ast.Ident, nat>, temp: nat, regNum: nat,
    literals: seq<Literal>, ast: Option<Ast.Node>)

  /** `NormalFuncInfo::default()`, what `mem::take` leaves behind. */
  const EMPTY_INFO := NormalData(0, 0, [], [], map[], 0, 0, [], None)

  datatype FuncKind = Normal(info: NormalData) | Builtin(absAddress: nat)

  datatype FuncInfo = FuncInfo(id: nat, name: Ast.Ident, arity: nat, kind: FuncKind)

  /** Locals are numbered 0, 1, ... in order of first definition. */
  predicate LocalsDense(m: map<Ast.Ident, nat>)
  {
    (forall x :: x in m ==> m[x] < |m|) &&
    (forall x, y :: x in m && y in m && x != y ==> m[x] != m[y])
  }

  /** The temporary stack never exceeds its high-water mark `reg_num`. */
  predicate Wf(d: NormalData)
  {
    d.temp <= d.regNum && LocalsDense(d.locals)
  }

  // ---------------------------------------------------------------------
  // The temporary stack
  // ---------------------------------------------------------------------

  /** `push`: the new temporary is the old depth. */
  function PushTemp(d: NormalData): (NormalData, nat)
  {
    var t := d.temp + 1;
    (d.(temp := t, regNum := if t > d.regNum then t else d.regNum), d.temp)
  }

  /** `pop`: `None` is the `u16` underflow of an empty stack. */
  function PopTemp(d: NormalData): Option<(NormalData, nat)>
  {
    if d.temp == 0 then None else Some((d.(temp := d.temp - 1), d.temp - 1))
  }

  /** Popping undoes a push except for `reg_num`, which becomes the deepest
      stack reached; the pushed temporary lies below it. */
  lemma PushThenPop(d: NormalData)
    requires Wf(d)
    ensures Wf(PushTemp(d).0)
    ensures PushTemp(d).1 == d.temp < PushTemp(d).0.regNum
    ensures PushTemp(d).0.regNum == if d.temp + 1 > d.regNum then d.temp + 1 else d.regNum
    ensures PopTemp(PushTemp(d).0) == Some((d.(regNum := PushTemp(d).0.regNum), d.temp))
  {
  }

  // ---------------------------------------------------------------------
  // Locals and literals
  // ---------------------------------------------------------------------

  /** `add_local`: the next index; `None` is the failed assertion that the
      name was new. */
  function AddLocalTo(d: NormalData, x: Ast.Ident): Option<(NormalData, nat)>
  {
    if x in d.locals then None
    else Some((d.(locals := d.locals[x := |d.locals|]), |d.locals|))
  }

  /** `find_local`: an existing local, or a new one. */
  function FindLocalIn(d: NormalData, x: Ast.Ident): (NormalData, nat)
  {
    if x in d.locals then (d, d.locals[x]) else AddLocalTo(d, x).value
  }

  /** A new local takes the next index and keeps the numbering dense. */
  lemma AddLocalKeepsDense(d: NormalData, x: Ast.Ident)
    requires Wf(d) && x !in d.locals
    ensures AddLocalTo(d, x).Some?
    ensures Wf(AddLocalTo(d, x).value.0)
    ensures AddLocalTo(d, x).value.1 == |d.locals|
    ensures |AddLocalTo(d, x).value.0.locals| == |d.locals| + 1
  {
    var m := d.locals[x := |d.locals|];
    assert |m| == |d.locals| + 1;
    forall y, z | y in m && z in m && y != z
      ensures m[y] != m[z]
    {
      if y != x && z != x {
        assert m[y] == d.locals[y] && m[z] == d.locals[z];
      }
    }
  }

  /** Looking a name up a second time finds the same index and changes
      nothing. */
  lemma FindLocalIdempotent(d: NormalData, x: Ast.Ident)
    requires Wf(d)
    ensures Wf(FindLocalIn(d, x).0)
    ensures FindLocalIn(d, x).1 < |FindLocalIn(d, x).0.locals|
    ensures FindLocalIn(FindLocalIn(d, x).0, x) == FindLocalIn(d, x)
  {
    if x !in d.locals {
      AddLocalKeepsDense(d, x);
    }
  }

  /** `new_constant`: the literal's index in the pool. */
  function NewConstantIn(d: NormalData, v: Literal): (NormalData, nat)
  {
    (d.(literals := d.literals + [v]), |d.literals|)
  }

  /** `get_constant`: `None` is the out-of-range index. */
  function GetConstant(d: NormalData, id: nat): Option<Literal>
  {
    if id < |d.literals| then Some(d.literals[id]) else None
  }

  /** A registered literal is found at its index; earlier ones stay put. */
  lemma ConstantRoundTrip(d: NormalData, v: Literal, j: nat)
    ensures GetConstant(NewConstantIn(d, v).0, NewConstantIn(d, v).1) == Some(v)
    ensures j < |d.literals| ==> GetConstant(NewConstantIn(d, v).0, j) == GetConstant(d, j)
  {
  }

  // ---------------------------------------------------------------------
  // Creating a function
  // ---------------------------------------------------------------------

  /** The parameters become locals in order. */
  function AddLocals(d: NormalData, names: seq<Ast.Ident>): Option<NormalData>
  {
    if names == [] then Some(d)
    else
      var d1 :- AddLocals(d, names[..|names| - 1]);
      var p :- AddLocalTo(d1, names[|names| - 1]);
      Some(p.0)
  }

  /** `NormalFuncInfo::new`; `None` is a repeated parameter name. */
  function NewNormal(id: nat, name: Ast.Ident, args: seq<Ast.Ident>, ast: Ast.Node): Option<NormalData>
  {
    AddLocals(NormalData(id, name, [], args, map[], 0, 0, [], Some(ast)), args)
  }

  /** `names[i]` is local `i`, and nothing else is a local. */
  predicate Numbered(d: NormalData, d1: NormalData, names: seq<Ast.Ident>)
  {
    Wf(d1) && d1 == d.(locals := d1.locals) && |d1.locals| == |names| &&
    (forall i :: 0 <= i < |names| ==> names[i] in d1.locals && d1.locals[names[i]] == i) &&
    (forall y :: y in d1.locals ==> y in names)
  }

  lemma {:induction false} AddLocalsNumbering(d: NormalData, names: seq<Ast.Ident>)
    requires Wf(d) && d.locals == map[]
    ensures AddLocals(d, names).Some? <==> NoDup(names)
    ensures AddLocals(d, names).Some? ==> Numbered(d, AddLocals(d, names).value, names)
    decreases |names|
  {
    if names != [] {
      var init := names[..|names| - 1];
      var x := names[|names| - 1];
      AddLocalsNumbering(d, init);
      NoDupSnoc(names);
      var r := AddLocals(d, init);
      if r.Some? {
        var d1 := r.value;
        if x !in d1.locals {
          AddLocalKeepsDense(d1, x);
          var d2 := AddLocalTo(d1, x).value.0;
          forall i | 0 <= i < |names|
            ensures names[i] in d2.locals && d2.locals[names[i]] == i
          {
            if i < |names| - 1 {
              assert names[i] == init[i];
            }
          }
          forall y | y in d2.locals
            ensures y in names
          {
            if y != x {
              assert y in init;
              var k :| 0 <= k < |init| && init[k] == y;
              assert names[k] == y;
            }
          }
        } else {
          var k :| 0 <= k < |init| && init[k] == x;
          assert names[k] == x;
        }
      }
    }
  }

  /** A new function: its parameters are locals 0, 1, ... in order, its
      stack is empty and its syntax tree is waiting to be compiled; it
      fails exactly when a parameter name repeats. */
  lemma NewNormalLocals(id: nat, name: Ast.Ident, args: seq<Ast.Ident>, ast: Ast.Node)
    ensures NewNormal(id, name, args, ast).Some? <==> NoDup(args)
    ensures NewNormal(id, name, args, ast).Some? ==>
      Pending(FuncInfo(id, name, |args|, Normal(NewNormal(id, name, args, ast).value)), id)
    ensures NewNormal(id, name, args, ast).Some? ==>
      (var d := NewNormal(id, name, args, ast).value;
       d.args == args && d.ast == Some(ast) && d.bc == [] && d.literals == [] &&
       |d.locals| == |args| && forall i :: 0 <= i < |args| ==> args[i] in d.locals && d.locals[args[i]] == i)
  {
    AddLocalsNumbering(NormalData(id, name, [], args, map[], 0, 0, [], Some(ast)), args);
  }

  // ---------------------------------------------------------------------
  // The IR under construction and its labels
  // ---------------------------------------------------------------------

  datatype IrState = IrState(ir: seq<BcIr>, labels: seq<Option<nat>>)

  /** `new_label`: an unbound label with the next number. */
  function NewLabelIn(s: IrState): (IrState, nat)
  {
    (s.(labels := s.labels + [None]), |s.labels|)
  }

  /** `apply_label`: binds the label to the next instruction's position;
      `None` is the out-of-range index. */
  function ApplyLabelIn(s: IrState, l: nat): Option<IrState>
  {
    if l < |s.labels| then Some(s.(labels := s.labels[l := Some(|s.ir|)])) else None
  }

  /** A new label starts unbound; binding it makes it resolve to the
      position of the instruction emitted next, and leaves every other
      label alone. */
  lemma NewThenApply(s: IrState, k: nat)
    ensures var (s1, l) := NewLabelIn(s);
      l == |s.labels| && Target(s1.labels, l) == None &&
      ApplyLabelIn(s1, l).Some? && Target(ApplyLabelIn(s1, l).value.labels, l) == Some(|s.ir|) &&
      (k < |s.labels| ==> Target(ApplyLabelIn(s1, l).value.labels, k) == Target(s.labels, k))
  {
  }

  /** Every instruction's label and literal references are in range and
      every bound label lies within the IR. */
  predicate IrWf(s: IrState, nliterals: nat)
  {
    (forall i :: 0 <= i < |s.ir| ==> RefsOk(s.ir[i], |s.labels|, nliterals)) &&
    (forall l :: 0 <= l < |s.labels| && s.labels[l].Some? ==> s.labels[l].value <= |s.ir|)
  }

  /** Every label numbered `k` or above is bound. */
  predicate BoundFrom(labels: seq<Option<nat>>, k: nat)
  {
    forall l :: k <= l < |labels| ==> labels[l].Some?
  }

  /** Every instruction from position `k` on names only existing slots. */
  predicate RegsFrom(s: IrState, k: nat, nlocals: nat, regNum: nat)
  {
    forall i :: k <= i < |s.ir| ==> RegsOk(s.ir[i], nlocals, regNum)
  }

  /** The generator state and the IR under construction agree. */
  predicate Consistent(d: NormalData, s: IrState)
  {
    Wf(d) && IrWf(s, |d.literals|)
  }

  // ---------------------------------------------------------------------
  // How the state grows while a function is generated
  // ---------------------------------------------------------------------

  /** The numbers of locals and literals and `reg_num` only grow; the rest
      of the function is untouched. */
  predicate Grows(a: NormalData, b: NormalData)
  {
    b.id == a.id && b.nameId == a.nameId && b.bc == a.bc && b.args == a.args && b.ast == a.ast &&
    a.regNum <= b.regNum && |a.locals| <= |b.locals| &&
    |a.literals| <= |b.literals|
  }

  /** Instructions and labels are only appended, and every new label is
      bound: a step binds exactly the labels it creates. */
  predicate IrGrows(a: IrState, b: IrState)
  {
    a.ir <= b.ir && a.labels <= b.labels && BoundFrom(b.labels, |a.labels|)
  }

  /** A registered function whose body has not been compiled yet. */
  predicate Pending(f: FuncInfo, i: nat)
  {
    f.id == i && f.kind.Normal? && Wf(f.kind.info) && f.kind.info.temp == 0 && f.kind.info.ast.Some?
  }

  /** Functions are only appended, and each new one is pending. */
  predicate StoreGrows(a: seq<FuncInfo>, b: seq<FuncInfo>)
  {
    a <= b &&
    (forall i :: |a| <= i < |b| ==> Pending(b[i], i))
  }

  predicate Extends(d0: NormalData, d1: NormalData, s0: IrState, s1: IrState, f0: seq<FuncInfo>, f1: seq<FuncInfo>)
  {
    Grows(d0, d1) && IrGrows(s0, s1) && StoreGrows(f0, f1)
  }

  /** Growth composes. */
  lemma ExtendsTrans(d0: NormalData, d1: NormalData, d2: NormalData, s0: IrState, s1: IrState, s2: IrState,
                     f0: seq<FuncInfo>, f1: seq<FuncInfo>, f2: seq<FuncInfo>)
    requires Extends(d0, d1, s0, s1, f0, f1) && Extends(d1, d2, s1, s2, f1, f2)
    ensures Extends(d0, d2, s0, s2, f0, f2)
  {
  }

  lemma RegsOkMono(inst: BcIr, n1: nat, r1: nat, n2: nat, r2: nat)
    requires RegsOk(inst, n1, r1) && n1 <= n2 && r1 <= r2
    ensures RegsOk(inst, n2, r2)
  {
  }

  /** Instructions checked against smaller tables stay valid as the tables
      grow, so a checked prefix and a checked extension join up. */
  lemma Extend(s1: IrState, d1: NormalData, s2: IrState, d2: NormalData, k: nat)
    requires RegsFrom(s1, k, |d1.locals|, d1.regNum)
    requires s1.ir <= s2.ir && Grows(d1, d2)
    requires RegsFrom(s2, |s1.ir|, |d2.locals|, d2.regNum)
    ensures RegsFrom(s2, k, |d2.locals|, d2.regNum)
  {
    forall i | k <= i < |s2.ir|
      ensures RegsOk(s2.ir[i], |d2.locals|, d2.regNum)
    {
      if i < |s1.ir| {
        RegsOkMono(s1.ir[i], |d1.locals|, d1.regNum, |d2.locals|, d2.regNum);
      }
    }
  }

  /** An `if` creates its two labels, binds the first between its else and
      then parts and the second at its end: the IR grows and stays
      consistent. */
  lemma IfGrows(d0: NormalData, d1: NormalData, d2: NormalData, s0: IrState, s1: IrState, s2: IrState,
                f0: seq<FuncInfo>, f1: seq<FuncInfo>, f2: seq<FuncInfo>, thenPos: nat)
    requires thenPos == |s0.labels|
    requires Extends(d0, d1, s0.(labels := s0.labels + [None, None]), s1, f0, f1)
    requires Consistent(d2, s2) && Extends(d1, d2, s1.(labels := s1.labels[thenPos := Some(|s1.ir|)]), s2, f1, f2)
    ensures Consistent(d2, s2.(labels := s2.labels[thenPos + 1 := Some(|s2.ir|)]))
    ensures Extends(d0, d2, s0, s2.(labels := s2.labels[thenPos + 1 := Some(|s2.ir|)]), f0, f2)
  {
    var a := s0.labels + [None, None];
    var b := s1.labels[thenPos := Some(|s1.ir|)];
    var c := s2.labels[thenPos + 1 := Some(|s2.ir|)];
    assert s0.labels <= a;
    assert s0.labels <= b by {
      assert forall l :: 0 <= l < |s0.labels| ==> b[l] == s1.labels[l] == a[l];
    }
    assert s0.labels <= c by {
      assert forall l :: 0 <= l < |s0.labels| ==> c[l] == s2.labels[l] == b[l];
    }
    forall l | |s0.labels| <= l < |c|
      ensures c[l].Some?
    {
      if l != thenPos + 1 && l < |b| {
        assert c[l] == s2.labels[l] == b[l];
      }
    }
  }

  /** A `while` creates its two labels, binds the first at the loop head
      and the second after the loop: the IR grows and stays consistent. */
  lemma WhileGrows(d0: NormalData, d1: NormalData, s0: IrState, sa: IrState, s1: IrState,
                   f0: seq<FuncInfo>, f1: seq<FuncInfo>, condPos: nat)
    requires condPos == |s0.labels| && sa.ir == s0.ir
    requires sa.labels == (s0.labels + [None, None])[condPos := Some(|s0.ir|)]
    requires Consistent(d1, s1) && Extends(d0, d1, sa, s1, f0, f1)
    ensures Consistent(d1, s1.(labels := s1.labels[condPos + 1 := Some(|s1.ir|)]))
    ensures Extends(d0, d1, s0, s1.(labels := s1.labels[condPos + 1 := Some(|s1.ir|)]), f0, f1)
  {
    var c := s1.labels[condPos + 1 := Some(|s1.ir|)];
    assert s0.labels <= sa.labels;
    assert s0.labels <= c by {
      assert forall l :: 0 <= l < |s0.labels| ==> c[l] == s1.labels[l] == sa.labels[l];
    }
    forall l | |s0.labels| <= l < |c|
      ensures c[l].Some?
    {
      if l != condPos + 1 && l < |sa.labels| {
        assert c[l] == s1.labels[l];
      }
    }
  }

  /** A step followed by a plain instruction that only grows the tables is
      still a step. */
  lemma StepThen(d0: NormalData, d1: NormalData, d2: NormalData, s0: IrState, s1: IrState, s2: IrState,
                 f0: seq<FuncInfo>, f1: seq<FuncInfo>, rf: bool)
    requires Extends(d0, d1, s0, s1, f0, f1) && Grows(d1, d2) && s1.ir <= s2.ir && s2.labels == s1.labels
    requires rf ==> RegsFrom(s1, |s0.ir|, |d1.locals|, d1.regNum) && RegsFrom(s2, |s1.ir|, |d2.locals|, d2.regNum)
    ensures Extends(d0, d2, s0, s2, f0, f1)
    ensures rf ==> RegsFrom(s2, |s0.ir|, |d2.locals|, d2.regNum)
  {
    if rf {
      Extend(s1, d1, s2, d2, |s0.ir|);
    }
  }

  /** Appending one instruction that names existing slots keeps a checked
      suffix checked. */
  lemma ExtendPush(s1: IrState, d1: NormalData, s2: IrState, d2: NormalData, k: nat, inst: BcIr)
    requires RegsFrom(s1, k, |d1.locals|, d1.regNum) && Grows(d1, d2)
    requires s2.ir == s1.ir + [inst] && RegsOk(inst, |d2.locals|, d2.regNum)
    ensures RegsFrom(s2, k, |d2.locals|, d2.regNum)
  {
    forall i | k <= i < |s2.ir|
      ensures RegsOk(s2.ir[i], |d2.locals|, d2.regNum)
    {
      if i < |s1.ir| {
        RegsOkMono(s1.ir[i], |d1.locals|, d1.regNum, |d2.locals|, d2.regNum);
      }
    }
  }

  /** Appending one instruction whose references exist keeps the IR
      consistent and extends the step so far. */
  lemma PushStep(d0: NormalData, d1: NormalData, s0: IrState, s1: IrState, f0: seq<FuncInfo>, f1: seq<FuncInfo>, inst: BcIr)
    requires Consistent(d1, s1) && Extends(d0, d1, s0, s1, f0, f1) && RefsOk(inst, |s1.labels|, |d1.literals|)
    ensures Consistent(d1, IrState(s1.ir + [inst], s1.labels))
    ensures Extends(d0, d1, s0, IrState(s1.ir + [inst], s1.labels), f0, f1)
    ensures RegsFrom(s1, |s0.ir|, |d1.locals|, d1.regNum) && RegsOk(inst, |d1.locals|, d1.regNum) ==>
              RegsFrom(IrState(s1.ir + [inst], s1.labels), |s0.ir|, |d1.locals|, d1.regNum)
  {
  }

  /** Popping a temporary keeps the state consistent and growing. */
  lemma PopStep(d0: NormalData, d1: NormalData, s0: IrState, s1: IrState, f0: seq<FuncInfo>, f1: seq<FuncInfo>)
    requires Consistent(d1, s1) && Extends(d0, d1, s0, s1, f0, f1) && d1.temp > 0
    ensures Consistent(d1.(temp := d1.temp - 1), s1) && Extends(d0, d1.(temp := d1.temp - 1), s0, s1, f0, f1)
  {
  }

  /** Checked instructions stay valid when the tables grow without new
      code. */
  lemma RegsGrow(s: IrState, k: nat, d1: NormalData, d2: NormalData)
    requires RegsFrom(s, k, |d1.locals|, d1.regNum) && Grows(d1, d2)
    ensures RegsFrom(s, k, |d2.locals|, d2.regNum)
  {
    forall i | k <= i < |s.ir|
      ensures RegsOk(s.ir[i], |d2.locals|, d2.regNum)
    {
      RegsOkMono(s.ir[i], |d1.locals|, d1.regNum, |d2.locals|, d2.regNum);
    }
  }

  // ---------------------------------------------------------------------
  // The amount of syntax still to compile
  // ---------------------------------------------------------------------

  function FuncWeight(f: FuncInfo): nat
  {
    if f.kind.Normal? && f.kind.info.ast.Some? then Ast.Size(f.kind.info.ast.value) else 0
  }

  /** The total size of the syntax trees not yet compiled. */
  function Weight(fs: seq<FuncInfo>): nat
  {
    if fs == [] then 0 else Weight(fs[..|fs| - 1]) + FuncWeight(fs[|fs| - 1])
  }

  lemma WeightAppend(fs: seq<FuncInfo>, f: FuncInfo)
    ensures Weight(fs + [f]) == Weight(fs) + FuncWeight(f)
  {
    assert (fs + [f])[..|fs|] == fs;
  }

  /** Replacing one function changes the weight by the difference. */
  lemma {:induction false} WeightUpdate(fs: seq<FuncInfo>, i: nat, f: FuncInfo)
    requires i < |fs|
    ensures Weight(fs[i := f]) + FuncWeight(fs[i]) == Weight(fs) + FuncWeight(f)
    decreases |fs|
  {
    var n := |fs| - 1;
    if i == n {
      assert fs[i := f][..n] == fs[..n];
    } else {
      WeightUpdate(fs[..n], i, f);
      assert fs[i := f][..n] == fs[..n][i := f];
    }
  }

  // ---------------------------------------------------------------------
  // Operand shapes
  // ---------------------------------------------------------------------

  /** `i as i16`: the low 16 bits read as two's complement. */
  function AsI16(i: int): Int16
  {
    (i - I16_MIN) % 0x1_0000 + I16_MIN
  }

  /** `is_smi`: an integer literal that survives the round trip through
      `i16` is exactly one in the `i16` range. */
  function IsSmi(n: Ast.Node): (r: Option<Int16>)
    ensures r.Some? <==> n.Integer? && InI16(n.i)
    ensures r.Some? ==> r.value == n.i
  {
    if n.Integer? && n.i == AsI16(n.i) then Some(AsI16(n.i)) else None
  }

  /** `is_local`. */
  function IsLocal(n: Ast.Node): Option<Ast.Ident>
  {
    if n.LocalVar? then Some(n.name) else None
  }

  /** The register a result is written to: the given local, or the
      temporary pushed for it. */
  function Dest(dst: Option<nat>, temp: nat): BcReg
  {
    if dst.Some? then Local(dst.value) else Temp(temp)
  }

  function CmpKindOf(op: Ast.BinOp): CmpKind
    requires op in {Ast.Eq, Ast.Ne, Ast.Ge, Ast.Gt, Ast.Le, Ast.Lt}
  {
    match op
    case Eq => CmpKind.Eq
    case Ne => CmpKind.Ne
    case Ge => CmpKind.Ge
    case Gt => CmpKind.Gt
    case Le => CmpKind.Le
    case Lt => CmpKind.Lt
  }

  /** Rust's unary minus on `f64` flips the sign bit. */
  function NegateFloat(f: F64): F64
  {
    F64(f.bits ^ 0x8000_0000_0000_0000)
  }

  /** The parameter names, or `None` when a parameter is not a plain one. */
  function ParamNames(ps: seq<Ast.Param>): (r: Option<seq<Ast.Ident>>)
    ensures r.Some? <==> forall i :: 0 <= i < |ps| ==> ps[i].Param?
    ensures r.Some? ==> |r.value| == |ps| && forall i :: 0 <= i < |ps| ==> r.value[i] == ps[i].name
  {
    if ps == [] then Some([])
    else
      var init :- ParamNames(ps[..|ps| - 1]);
      if ps[|ps| - 1].Param? then Some(init + [ps[|ps| - 1].name]) else None
  }

  /** A parameter list with a non-plain parameter in a prefix has no
      names. */
  lemma PrefixParamNames(ps: seq<Ast.Param>, k: nat)
    requires k <= |ps| && ParamNames(ps[..k]).None?
    ensures ParamNames(ps).None?
  {
    var i :| 0 <= i < k && !ps[..k][i].Param?;
    assert !ps[i].Param?;
  }

  /** `inst` stores its result in register `r`. */
  predicate Writes(inst: BcIr, r: BcReg)
  {
    match inst
    case Integer(d, _) => d == r
    case Const(d, _) => d == r
    case Nil(d) => d == r
    case Neg(d, _) => d == r
    case Add(d, _, _) => d == r
    case Addri(d, _, _) => d == r
    case Sub(d, _, _) => d == r
    case Subri(d, _, _) => d == r
    case Mul(d, _, _) => d == r
    case Div(d, _, _) => d == r
    case Cmp(_, d, _, _) => d == r
    case Cmpri(_, d, _, _) => d == r
    case Mov(d, _) => d == r
    case FnCall(_, ret, _, _) => ret == Some(r)
    case _ => false
  }

  /** `f` is the function a `def` registers: the parameters in order, the
      body waiting to be compiled. */
  predicate Defines(f: FuncInfo, name: Ast.Ident, params: seq<Ast.Param>, body: Ast.Node)
  {
    f.name == name && f.arity == |params| && f.kind.Normal? &&
    ParamNames(params).Some? && f.kind.info.args == ParamNames(params).value && f.kind.info.ast == Some(body)
  }

  /** The instruction `gen_add` ... `gen_cmp` emit for `op`: the immediate
      form exactly when the right operand is an `i16` literal and the
      operator has one. */
  predicate OpMatches(op: Ast.BinOp, rhs: Ast.Node, inst: BcIr)
  {
    match op
    case Add => if IsSmi(rhs).Some? then inst.Addri? && inst.imm == IsSmi(rhs).value else inst.Add?
    case Sub => if IsSmi(rhs).Some? then inst.Subri? && inst.imm == IsSmi(rhs).value else inst.Sub?
    case Mul => inst.Mul?
    case Div => inst.Div?
    case OtherOp => false
    case Eq | Ne | Ge | Gt | Le | Lt =>
      if IsSmi(rhs).Some? then inst.Cmpri? && inst.kind == CmpKindOf(op) && inst.imm == IsSmi(rhs).value
      else inst.Cmp? && inst.kind == CmpKindOf(op)
  }

  /** The instruction for `lhs op rhs` when `rhs` is a small integer. */
  function ImmInst(op: Ast.BinOp, d: BcReg, l: BcReg, imm: Int16): BcIr
    requires op in {Ast.Add, Ast.Sub, Ast.Eq, Ast.Ne, Ast.Ge, Ast.Gt, Ast.Le, Ast.Lt}
  {
    match op
    case Add => BcIr.Addri(d, l, imm)
    case Sub => BcIr.Subri(d, l, imm)
    case Eq | Ne | Ge | Gt | Le | Lt => BcIr.Cmpri(CmpKindOf(op), d, l, imm)
  }

  /** The instruction for `lhs op rhs` with both operands in registers. */
  function RegInst(op: Ast.BinOp, d: BcReg, l: BcReg, rr: BcReg): BcIr
    requires op != Ast.OtherOp
  {
    match op
    case Add => BcIr.Add(d, l, rr)
    case Sub => BcIr.Sub(d, l, rr)
    case Mul => BcIr.Mul(d, l, rr)
    case Div => BcIr.Div(d, l, rr)
    case Eq | Ne | Ge | Gt | Le | Lt => BcIr.Cmp(CmpKindOf(op), d, l, rr)
  }

  /** `gen_binop` uses the immediate form exactly when the right operand
      is an `i16` literal and the operator has one. */
  predicate UsesImm(op: Ast.BinOp, rhs: Ast.Node)
  {
    IsSmi(rhs).Some? && op != Ast.Mul && op != Ast.Div
  }

  /** The instruction `gen_binop` emits for `lhs op rhs` once the result
      register `d` and the operands `l` and `rr` are chosen; `rr` is not
      read when the right operand is an immediate. */
  function BinInst(op: Ast.BinOp, rhs: Ast.Node, d: BcReg, l: BcReg, rr: BcReg): BcIr
    requires op != Ast.OtherOp
  {
    if UsesImm(op, rhs) then ImmInst(op, d, l, IsSmi(rhs).value) else RegInst(op, d, l, rr)
  }

  /** The emitted instruction performs `op` and writes `d`. */
  lemma BinInstMeaning(op: Ast.BinOp, rhs: Ast.Node, d: BcReg, l: BcReg, rr: BcReg)
    requires op != Ast.OtherOp
    ensures OpMatches(op, rhs, BinInst(op, rhs, d, l, rr)) && Writes(BinInst(op, rhs, d, l, rr), d)
  {
    if UsesImm(op, rhs) {
      assert BinInst(op, rhs, d, l, rr) == ImmInst(op, d, l, IsSmi(rhs).value);
    } else {
      assert BinInst(op, rhs, d, l, rr) == RegInst(op, d, l, rr);
    }
  }

  /** It names only the registers it was given, and no label or literal. */
  lemma BinInstRegs(op: Ast.BinOp, rhs: Ast.Node, d: BcReg, l: BcReg, rr: BcReg, n: nat, m: nat, nlabels: nat, nliterals: nat)
    requires op != Ast.OtherOp
    requires RegOk(d, n, m) && RegOk(l, n, m) && (UsesImm(op, rhs) || RegOk(rr, n, m))
    ensures RegsOk(BinInst(op, rhs, d, l, rr), n, m)
    ensures RefsOk(BinInst(op, rhs, d, l, rr), nlabels, nliterals)
  {
  }

  /** Every branch lands inside the function or just past its end. */
  predicate BranchesWithin(bc: seq<BcOp>)
  {
    forall i :: 0 <= i < |bc| ==> BranchWithin(bc[i], |bc|)
  }

  /** Every slot index lies inside the frame. */
  predicate SlotsInFrame(d: NormalData)
  {
    forall i :: 0 <= i < |d.bc| ==> IndicesBelow(d.bc[i], TotalRegNum(|d.locals|, d.regNum))
  }

  /** Lowering a consistent IR whose labels are all bound succeeds and its
      branches stay inside the function. */
  lemma Lowered(d: NormalData, s: IrState)
    requires IrWf(s, |d.literals|) && BoundFrom(s.labels, 0)
    ensures ToBytecode(s.ir, s.labels, |d.locals|).Some?
    ensures BranchesWithin(ToBytecode(s.ir, s.labels, |d.locals|).value)
  {
    ToBytecodeSucceeds(s.ir, s.labels, |d.locals|, d.regNum, |d.literals|);
    BranchTargetsInRange(s.ir, s.labels, |d.locals|);
  }

  /** With every register in range, every slot of the lowered code lies
      inside the frame, and a final `Ret` stays final. */
  lemma LoweredSlots(d: NormalData, s: IrState)
    requires IrWf(s, |d.literals|) && BoundFrom(s.labels, 0) && RegsFrom(s, 0, |d.locals|, d.regNum)
    ensures ToBytecode(s.ir, s.labels, |d.locals|).Some?
    ensures SlotsInFrame(d.(bc := ToBytecode(s.ir, s.labels, |d.locals|).value))
    ensures |s.ir| > 0 && s.ir[|s.ir| - 1].Ret? ==>
      ToBytecode(s.ir, s.labels, |d.locals|).value[|s.ir| - 1].Ret?
  {
    ToBytecodeSucceeds(s.ir, s.labels, |d.locals|, d.regNum, |d.literals|);
    var bc := ToBytecode(s.ir, s.labels, |d.locals|).value;
    if |s.ir| > 0 && s.ir[|s.ir| - 1].Ret? {
      assert bc[|s.ir| - 1] == Lower(s.ir[|s.ir| - 1], s.labels, |d.locals|).value;
    }
  }

  /** A function whose body has been compiled. */
  predicate Compiled(f: FuncInfo)
  {
    f.kind.Normal? && f.kind.info.ast.None? && BranchesWithin(f.kind.info.bc)
  }

  // ---------------------------------------------------------------------
  // IrContext
  // ---------------------------------------------------------------------

  class IrContext {
    var ir: seq<BcIr>
    var labels: seq<Option<nat>>

    function State(): IrState
      reads this
    {
      IrState(ir, labels)
    }

    constructor ()
      ensures State() == IrState([], [])
    {
      ir := [];
      labels := [];
    }

    method Push(op: BcIr)
      modifies this
      ensures State() == IrState(old(ir) + [op], old(labels))
    {
      ir := ir + [op];
    }

    method NewLabel() returns (l: nat)
      modifies this
      ensures ir == old(ir) && labels == old(labels) + [None] && l == |old(labels)|
    {
      l := |labels|;
      labels := labels + [None];
    }

    method ApplyLabel(l: nat)
      requires l < |labels|
      modifies this
      ensures ir == old(ir) && labels == old(labels)[l := Some(|ir|)]
    {
      labels := labels[l := Some(|ir|)];
    }
  }

  // ---------------------------------------------------------------------
  // NormalFuncInfo: the generator state of one function
  // ---------------------------------------------------------------------

  class NormalFuncInfo {
    var id: nat
    var nameId: Ast.Ident
    var bc: seq<BcOp>
    var args: seq<Ast.Ident>
    var locals: map<Ast.Ident, nat>
    var temp: nat
    var regNum: nat
    var literals: seq<Literal>
    var ast: Option<Ast.Node>

    function Data(): NormalData
      reads this
    {
      NormalData(id, nameId, bc, args, locals, temp, regNum, literals, ast)
    }

    /** The state `compile_func` takes out of the store. */
    constructor FromData(d: NormalData)
      ensures Data() == d
    {
      id, nameId, bc, args := d.id, d.nameId, d.bc, d.args;
      locals, temp, regNum := d.locals, d.temp, d.regNum;
      literals, ast := d.literals, d.ast;
    }

    method Push() returns (reg: nat)
      modifies this
      ensures (Data(), reg) == PushTemp(old(Data()))
    {
      reg := temp;
      temp := temp + 1;
      if temp > regNum {
        regNum := temp;
      }
    }

    method Pop() returns (ok: bool, reg: nat)
      modifies this
      ensures ok <==> PopTemp(old(Data())).Some?
      ensures ok ==> (Data(), reg) == PopTemp(old(Data())).value
      ensures !ok ==> Data() == old(Data())
    {
      if temp == 0 {
        return false, 0;
      }
      temp := temp - 1;
      return true, temp;
    }

    /** The register a result goes to: the given local, or a new
        temporary. */
    method DestReg(dst: Option<nat>) returns (reg: BcReg)
      modifies this
      ensures reg == Dest(dst, old(temp))
      ensures Data() == if dst.None? then PushTemp(old(Data())).0 else old(Data())
    {
      if dst.Some? {
        reg := Local(dst.value);
      } else {
        var t := Push();
        reg := Temp(t);
      }
    }

    method LoadLocal(x: Ast.Ident) returns (r: Res, l: nat)
      ensures r == if x in locals then Ok else Err(UndefinedLocal(x))
      ensures r.Ok? ==> l == locals[x]
    {
      if x in locals {
        return Ok, locals[x];
      }
      return Err(UndefinedLocal(x)), 0;
    }

    method AddLocal(x: Ast.Ident) returns (ok: bool, l: nat)
      modifies this
      ensures ok <==> AddLocalTo(old(Data()), x).Some?
      ensures ok ==> (Data(), l) == AddLocalTo(old(Data()), x).value
      ensures !ok ==> Data() == old(Data())
    {
      if x in locals {
        return false, 0;
      }
      l := |locals|;
      locals := locals[x := l];
      ok := true;
    }

    method FindLocal(x: Ast.Ident) returns (l: nat)
      requires Wf(Data())
      modifies this
      ensures (Data(), l) == FindLocalIn(old(Data()), x)
      ensures Wf(Data()) && Grows(old(Data()), Data())
      ensures x in locals && locals[x] == l && l < |locals|
    {
      FindLocalIdempotent(Data(), x);
      if x in locals {
        l := locals[x];
      } else {
        AddLocalKeepsDense(Data(), x);
        var ok;
        ok, l := AddLocal(x);
      }
    }

    method NewConstant(v: Literal) returns (c: nat)
      modifies this
      ensures (Data(), c) == NewConstantIn(old(Data()), v)
    {
      c := |literals|;
      literals := literals + [v];
    }

    method GenConst(ir: IrContext, dst: Option<nat>, v: Literal)
      requires Consistent(Data(), ir.State()) && (dst.Some? ==> dst.value < |locals|)
      modifies this, ir
      ensures Consistent(Data(), ir.State()) && Grows(old(Data()), Data()) && ir.labels == old(ir.labels)
      ensures ir.ir == old(ir.ir) + [BcIr.Const(Dest(dst, old(temp)), |old(literals)|)]
      ensures literals == old(literals) + [v]
      ensures temp == old(temp) + (if dst.None? then 1 else 0)
      ensures RegsFrom(ir.State(), old(|ir.ir|), |locals|, regNum)
    {
      var reg := DestReg(dst);
      var c := NewConstant(v);
      ir.Push(BcIr.Const(reg, c));
    }

    /** A literal that fits in `i32` is an immediate; a wider one goes to
        the literal pool. */
    method GenInteger(ir: IrContext, dst: Option<nat>, i: Int64)
      requires Consistent(Data(), ir.State()) && (dst.Some? ==> dst.value < |locals|)
      modifies this, ir
      ensures Consistent(Data(), ir.State()) && Grows(old(Data()), Data()) && ir.labels == old(ir.labels)
      ensures InI32(i) ==> ir.ir == old(ir.ir) + [BcIr.Integer(Dest(dst, old(temp)), i)] && literals == old(literals)
      ensures !InI32(i) ==> ir.ir == old(ir.ir) + [BcIr.Const(Dest(dst, old(temp)), |old(literals)|)]
      ensures !InI32(i) ==> literals == old(literals) + [Fixnum(i)]
      ensures temp == old(temp) + (if dst.None? then 1 else 0)
      ensures RegsFrom(ir.State(), old(|ir.ir|), |locals|, regNum)
    {
      if InI32(i) {
        var reg := DestReg(dst);
        ir.Push(BcIr.Integer(reg, i));
      } else {
        GenConst(ir, dst, Fixnum(i));
      }
    }

    method GenNil(ir: IrContext, dst: Option<nat>)
      requires Consistent(Data(), ir.State()) && (dst.Some? ==> dst.value < |locals|)
      modifies this, ir
      ensures Consistent(Data(), ir.State()) && Grows(old(Data()), Data()) && ir.labels == old(ir.labels)
      ensures ir.ir == old(ir.ir) + [BcIr.Nil(Dest(dst, old(temp)))]
      ensures temp == old(temp) + (if dst.None? then 1 else 0)
      ensures RegsFrom(ir.State(), old(|ir.ir|), |locals|, regNum)
    {
      var reg := DestReg(dst);
      ir.Push(BcIr.Nil(reg));
    }

    /** Negates a local in place, or the value on top of the stack. */
    method GenNeg(ir: IrContext, local: Option<nat>) returns (r: Res)
      requires Consistent(Data(), ir.State()) && (local.Some? ==> local.value < |locals|)
      modifies this, ir
      ensures Consistent(Data(), ir.State()) && Grows(old(Data()), Data()) && ir.labels == old(ir.labels)
      ensures r.Ok? <==> local.Some? || old(temp) > 0
      ensures r.Ok? && local.Some? ==> ir.ir == old(ir.ir) + [BcIr.Neg(Local(local.value), Local(local.value))]
      ensures r.Ok? && local.None? ==> ir.ir == old(ir.ir) + [BcIr.Neg(Temp(old(temp) - 1), Temp(old(temp) - 1))]
      ensures !r.Ok? ==> ir.ir == old(ir.ir)
      ensures temp == old(temp)
      ensures RegsFrom(ir.State(), old(|ir.ir|), |locals|, regNum)
    {
      if local.Some? {
        ir.Push(BcIr.Neg(Local(local.value), Local(local.value)));
        return Ok;
      }
      var ok, src := Pop();
      if !ok {
        return Panic;
      }
      var dst := Push();
      ir.Push(BcIr.Neg(Temp(dst), Temp(src)));
      return Ok;
    }

    /** Returns a local or the value on top of the stack, which must then be
        empty. */
    method GenRet(ir: IrContext, local: Option<nat>) returns (r: Res)
      requires Consistent(Data(), ir.State()) && (local.Some? ==> local.value < |locals|)
      modifies this, ir
      ensures Consistent(Data(), ir.State()) && Grows(old(Data()), Data()) && ir.labels == old(ir.labels)
      ensures r.Ok? <==> (local.Some? && old(temp) == 0) || (local.None? && old(temp) == 1)
      ensures r.Ok? ==> temp == 0 && ir.ir == old(ir.ir) + [BcIr.Ret(Dest(local, 0))]
      ensures !r.Ok? ==> ir.ir == old(ir.ir)
      ensures RegsFrom(ir.State(), old(|ir.ir|), |locals|, regNum)
    {
      var ret: BcReg;
      if local.Some? {
        ret := Local(local.value);
      } else {
        var ok, t := Pop();
        if !ok {
          return Panic;
        }
        ret := Temp(t);
      }
      if temp != 0 {
        return Panic;
      }
      ir.Push(BcIr.Ret(ret));
      return Ok;
    }

    method GenTempMov(ir: IrContext, rhs: BcReg)
      requires Consistent(Data(), ir.State()) && RegOk(rhs, |locals|, regNum)
      modifies this, ir
      ensures Consistent(Data(), ir.State()) && Grows(old(Data()), Data()) && ir.labels == old(ir.labels)
      ensures ir.ir == old(ir.ir) + [BcIr.Mov(Temp(old(temp)), rhs)]
      ensures temp == old(temp) + 1
      ensures RegsFrom(ir.State(), old(|ir.ir|), |locals|, regNum)
    {
      var lhs := Push();
      ir.Push(BcIr.Mov(Temp(lhs), rhs));
    }

    // -------------------------------------------------------------------
    // The syntax-tree walk. When a step succeeds it keeps the IR well
    // formed, only appends, binds every label it creates and consumes
    // syntax; on return-free input it also moves the stack by exactly the
    // value it leaves behind and names only existing slots. A failed step
    // aborts the whole compilation, so nothing is promised about it.
    // -------------------------------------------------------------------

    /** Compiles `e` and pops its value into a temporary. */
    method GenTempExpr(store: FnStore, ir: IrContext, e: Ast.Node) returns (r: Res, t: nat)
      requires Consistent(Data(), ir.State())
      modifies this, ir, store`functions
      decreases Ast.Size(e), 6
      ensures r.Ok? ==> Consistent(Data(), ir.State()) && Extends(old(Data()), Data(), old(ir.State()), ir.State(), old(store.functions), store.functions)
      ensures r.Ok? ==> Weight(store.functions) < Weight(old(store.functions)) + Ast.Size(e)
      ensures r.Ok? ==> t == temp < regNum
      ensures r.Ok? && Ast.ReturnFree(e) ==> temp == old(temp) && RegsFrom(ir.State(), old(|ir.ir|), |locals|, regNum)
    {
      r := GenExpr(store, ir, e, true);
      if !r.Ok? {
        return r, 0;
      }
      var ok;
      ok, t := Pop();
      if !ok {
        return Panic, 0;
      }
    }

    /** `gen_expr`: with `useValue` the value is left on the stack,
        otherwise nothing is. */
    method GenExpr(store: FnStore, ir: IrContext, expr: Ast.Node, useValue: bool) returns (r: Res)
      requires Consistent(Data(), ir.State())
      modifies this, ir, store`functions
      decreases Ast.Size(expr), 5
      ensures r.Ok? ==> Consistent(Data(), ir.State()) && Extends(old(Data()), Data(), old(ir.State()), ir.State(), old(store.functions), store.functions)
      ensures r.Ok? ==> Weight(store.functions) < Weight(old(store.functions)) + Ast.Size(expr)
      ensures r.Ok? && Ast.ReturnFree(expr) ==> temp == old(temp) + (if useValue then 1 else 0) && RegsFrom(ir.State(), old(|ir.ir|), |locals|, regNum)
      ensures AssertionFails(expr) ==> r.Panic? && Data() == old(Data()) && ir.State() == old(ir.State())
    {
      if !useValue && (expr.Nil? || expr.Bool? || expr.SelfValue? || expr.Integer? || expr.Float?) {
        return Ok;
      }
      if AssertionFails(expr) {
        return Panic;
      }
      if PushesValue(expr) {
        r := GenValueExpr(store, ir, expr, useValue);
      } else if expr.If? || expr.While? || expr.Return? {
        r := GenControl(store, ir, expr, useValue);
      } else if expr.CompStmt? || expr.Begin? || expr.Unsupported? {
        r := GenBlock(store, ir, expr, useValue);
      } else {
        r := GenDefinition(store, ir, expr, useValue);
      }
    }

    /** The shapes `gen_expr` refuses with `assert!`: a unary operator
        other than minus, a multiple assignment that is not one-to-one,
        `begin` with a `rescue` clause and neither `else` nor `ensure`, and
        a call whose argument list is not plain (`check_fast_call`). */
    static predicate AssertionFails(n: Ast.Node)
    {
      n.OtherUnOp? || n.MultiAssign? || n.BeginRescue? || n.OtherArgsCall?
    }

    /** `if`, `while` and `return`. */
    method GenControl(store: FnStore, ir: IrContext, expr: Ast.Node, useValue: bool) returns (r: Res)
      requires Consistent(Data(), ir.State()) && (expr.If? || expr.While? || expr.Return?)
      modifies this, ir, store`functions
      decreases Ast.Size(expr), 4
      ensures r.Ok? ==> Consistent(Data(), ir.State()) && Extends(old(Data()), Data(), old(ir.State()), ir.State(), old(store.functions), store.functions)
      ensures r.Ok? ==> Weight(store.functions) < Weight(old(store.functions)) + Ast.Size(expr)
      ensures r.Ok? && Ast.ReturnFree(expr) ==> temp == old(temp) + (if useValue then 1 else 0) && RegsFrom(ir.State(), old(|ir.ir|), |locals|, regNum)
    {
      match expr {
        case If(c, t, e) =>
          r := GenIf(store, ir, c, t, e, useValue);
        case While(c, body) =>
          r := GenWhile(store, ir, c, body, useValue);
        case Return(v) =>
          r := GenReturn(store, ir, v);
      }
    }

    /** A statement sequence, `begin ... end`, or a node kind the
        generator rejects. */
    method GenBlock(store: FnStore, ir: IrContext, expr: Ast.Node, useValue: bool) returns (r: Res)
      requires Consistent(Data(), ir.State()) && (expr.CompStmt? || expr.Begin? || expr.Unsupported?)
      modifies this, ir, store`functions
      decreases Ast.Size(expr), 4
      ensures r.Ok? ==> Consistent(Data(), ir.State()) && Extends(old(Data()), Data(), old(ir.State()), ir.State(), old(store.functions), store.functions)
      ensures r.Ok? ==> Weight(store.functions) < Weight(old(store.functions)) + Ast.Size(expr)
      ensures r.Ok? && Ast.ReturnFree(expr) ==> temp == old(temp) + (if useValue then 1 else 0) && RegsFrom(ir.State(), old(|ir.ir|), |locals|, regNum)
    {
      match expr {
        case CompStmt(nodes) =>
          r := GenCompStmts(store, ir, nodes, None, useValue);
        case Begin(body) =>
          r := GenExpr(store, ir, body, useValue);
        case Unsupported =>
          r := Err(Unimplemented);
      }
    }

    /** An assignment, a call, or a method definition. */
    method GenDefinition(store: FnStore, ir: IrContext, expr: Ast.Node, useValue: bool) returns (r: Res)
      requires Consistent(Data(), ir.State()) && (expr.MulAssign? || expr.Ident? || expr.FuncCall? || expr.MethodDef?)
      modifies this, ir, store`functions
      decreases Ast.Size(expr), 4
      ensures r.Ok? ==> Consistent(Data(), ir.State()) && Extends(old(Data()), Data(), old(ir.State()), ir.State(), old(store.functions), store.functions)
      ensures r.Ok? ==> Weight(store.functions) < Weight(old(store.functions)) + Ast.Size(expr)
      ensures r.Ok? && Ast.ReturnFree(expr) ==> temp == old(temp) + (if useValue then 1 else 0) && RegsFrom(ir.State(), old(|ir.ir|), |locals|, regNum)
    {
      match expr {
        case MulAssign(target, value) =>
          if !(target.LocalVar? || target.Ident?) {
            return Err(Unimplemented);
          }
          var local := FindLocal(target.name);
          r := GenStoreExpr(store, ir, local, value, useValue);
        case Ident(callee) =>
          r := GenCall(store, ir, callee, [], useValue);
        case FuncCall(callee, args) =>
          r := GenCall(store, ir, callee, args, useValue);
        case MethodDef(name, params, body) =>
          r := GenMethodDef(store, ir, name, params, body, useValue);
      }
    }

    /** The kinds of expression `gen_expr` compiles by pushing one value and
        popping it again when the value is unused. */
    static predicate PushesValue(n: Ast.Node)
    {
      n.Nil? || n.Bool? || n.SelfValue? || n.Integer? || n.Float? || n.Neg? || n.BinOp? || n.LocalVar?
    }

    method GenValueExpr(store: FnStore, ir: IrContext, expr: Ast.Node, useValue: bool) returns (r: Res)
      requires Consistent(Data(), ir.State()) && PushesValue(expr)
      modifies this, ir, store`functions
      decreases Ast.Size(expr), 4
      ensures r.Ok? ==> Consistent(Data(), ir.State()) && Extends(old(Data()), Data(), old(ir.State()), ir.State(), old(store.functions), store.functions)
      ensures r.Ok? ==> Weight(store.functions) < Weight(old(store.functions)) + Ast.Size(expr)
      ensures r.Ok? && Ast.ReturnFree(expr) ==> temp == old(temp) + (if useValue then 1 else 0) && RegsFrom(ir.State(), old(|ir.ir|), |locals|, regNum)
    {
      r := GenValue(store, ir, expr);
      if !r.Ok? || useValue {
        return;
      }
      var ok, _ := Pop();
      if !ok {
        return Panic;
      }
    }

    /** Pushes the value of a literal, a negation, a binary operation or a
        local variable. */
    method GenValue(store: FnStore, ir: IrContext, expr: Ast.Node) returns (r: Res)
      requires Consistent(Data(), ir.State()) && PushesValue(expr)
      modifies this, ir, store`functions
      decreases Ast.Size(expr), 3
      ensures r.Ok? ==> Consistent(Data(), ir.State()) && Extends(old(Data()), Data(), old(ir.State()), ir.State(), old(store.functions), store.functions)
      ensures r.Ok? ==> Weight(store.functions) < Weight(old(store.functions)) + Ast.Size(expr)
      ensures r.Ok? && Ast.ReturnFree(expr) ==> temp == old(temp) + 1 && RegsFrom(ir.State(), old(|ir.ir|), |locals|, regNum)
    {
      match expr {
        case Nil =>
          GenNil(ir, None);
          r := Ok;
        case Bool(b) =>
          GenConst(ir, None, BoolLit(b));
          r := Ok;
        case SelfValue =>
          GenTempMov(ir, SelfReg);
          r := Ok;
        case Integer(i) =>
          GenInteger(ir, None, i);
          r := Ok;
        case Float(f) =>
          GenConst(ir, None, FloatLit(f));
          r := Ok;
        case Neg(operand) =>
          r := GenNegExpr(store, ir, operand);
        case BinOp(op, lhs, rhs) =>
          if op == Ast.OtherOp {
            r := Err(Unimplemented);
          } else {
            var d, l, rr;
            r, d, l, rr := GenBinOp(store, ir, None, op, lhs, rhs);
          }
        case LocalVar(x) =>
          var l;
          r, l := LoadLocal(x);
          if r.Ok? {
            GenTempMov(ir, Local(l));
          }
      }
    }

    /** Unary minus: a literal operand is negated at compile time (an
        `i64` negation that overflows panics), anything else at run time. */
    method GenNegExpr(store: FnStore, ir: IrContext, operand: Ast.Node) returns (r: Res)
      requires Consistent(Data(), ir.State())
      modifies this, ir, store`functions
      decreases Ast.Size(operand), 7
      ensures r.Ok? ==> Consistent(Data(), ir.State()) && Extends(old(Data()), Data(), old(ir.State()), ir.State(), old(store.functions), store.functions)
      ensures r.Ok? ==> Weight(store.functions) < Weight(old(store.functions)) + Ast.Size(operand)
      ensures r.Ok? && Ast.ReturnFree(operand) ==> temp == old(temp) + 1 && RegsFrom(ir.State(), old(|ir.ir|), |locals|, regNum)
    {
      if operand.Integer? {
        if !InI64(-(operand.i as int)) {
          return Panic;
        }
        GenInteger(ir, None, -(operand.i as int));
        return Ok;
      }
      if operand.Float? {
        GenConst(ir, None, FloatLit(NegateFloat(operand.f)));
        return Ok;
      }
      ghost var k := |ir.ir|;
      r := GenExpr(store, ir, operand, true);
      if !r.Ok? {
        return;
      }
      ghost var s1, d1 := ir.State(), Data();
      r := GenNeg(ir, None);
      if r.Ok? && Ast.ReturnFree(operand) {
        Extend(s1, d1, ir.State(), Data(), k);
      }
    }

    /** A call: the arguments go to consecutive temporaries starting at the
        stack top, and the result, if used, is pushed. */
    method GenCall(store: FnStore, ir: IrContext, callee: Ast.Ident, args: seq<Ast.Node>, useValue: bool) returns (r: Res)
      requires Consistent(Data(), ir.State())
      modifies this, ir, store`functions
      decreases Ast.SizeSeq(args), 8
      ensures r.Ok? ==> Consistent(Data(), ir.State()) && Extends(old(Data()), Data(), old(ir.State()), ir.State(), old(store.functions), store.functions)
      ensures r.Ok? ==> Weight(store.functions) < Weight(old(store.functions)) + Ast.SizeSeq(args) + 1
      ensures r.Ok? && Ast.ReturnFreeSeq(args) ==> temp == old(temp) + (if useValue then 1 else 0) && RegsFrom(ir.State(), old(|ir.ir|), |locals|, regNum)
      ensures r.Ok? && Ast.ReturnFreeSeq(args) ==>
        |ir.ir| > old(|ir.ir|) && ir.ir[|ir.ir| - 1] == BcIr.FnCall(callee, if useValue then Some(Temp(old(temp))) else None, old(temp), |args|)
    {
      ghost var k := |ir.ir|;
      var arg: nat, len: nat;
      r, arg, len := CheckFastCallInner(store, ir, args);
      if !r.Ok? {
        return;
      }
      ghost var s1, d1 := ir.State(), Data();
      var ret: Option<BcReg> := None;
      if useValue {
        var t := Push();
        ret := Some(Temp(t));
      }
      assert Consistent(Data(), s1) && Extends(old(Data()), Data(), old(ir.State()), s1, old(store.functions), store.functions);
      var inst := BcIr.FnCall(callee, ret, arg, len);
      ir.Push(inst);
      PushStep(old(Data()), Data(), old(ir.State()), s1, old(store.functions), store.functions, inst);
      assert ir.State() == IrState(s1.ir + [inst], s1.labels);
      if Ast.ReturnFreeSeq(args) {
        ExtendPush(s1, d1, ir.State(), Data(), k, inst);
      }
    }

    /** `check_fast_call_inner`: evaluates the arguments, then drops them
        from the stack (the `u16` subtraction panics on underflow). */
    method CheckFastCallInner(store: FnStore, ir: IrContext, args: seq<Ast.Node>) returns (r: Res, arg: nat, len: nat)
      requires Consistent(Data(), ir.State())
      modifies this, ir, store`functions
      decreases Ast.SizeSeq(args), 7
      ensures r.Ok? ==> Consistent(Data(), ir.State()) && Extends(old(Data()), Data(), old(ir.State()), ir.State(), old(store.functions), store.functions)
      ensures r.Ok? ==> Weight(store.functions) < Weight(old(store.functions)) + Ast.SizeSeq(args) + 1
      ensures arg == old(temp) && len == |args|
      ensures r.Ok? && Ast.ReturnFreeSeq(args) ==>
        temp == old(temp) && arg + len <= regNum && RegsFrom(ir.State(), old(|ir.ir|), |locals|, regNum)
    {
      len := |args|;
      r, arg := GenArgs(store, ir, args);
      if !r.Ok? {
        return;
      }
      if temp < len {
        return Panic, arg, len;
      }
      temp := temp - len;
    }

    /** `gen_args`: each argument's value is pushed in turn. */
    method GenArgs(store: FnStore, ir: IrContext, args: seq<Ast.Node>) returns (r: Res, arg: nat)
      requires Consistent(Data(), ir.State())
      modifies this, ir, store`functions
      decreases Ast.SizeSeq(args), 6
      ensures r.Ok? ==> Consistent(Data(), ir.State()) && Extends(old(Data()), Data(), old(ir.State()), ir.State(), old(store.functions), store.functions)
      ensures r.Ok? ==> Weight(store.functions) < Weight(old(store.functions)) + Ast.SizeSeq(args) + 1
      ensures arg == old(temp)
      ensures r.Ok? && Ast.ReturnFreeSeq(args) ==>
        temp == old(temp) + |args| && RegsFrom(ir.State(), old(|ir.ir|), |locals|, regNum)
    {
      arg := temp;
      ghost var s0, d0, f0, w0 := ir.State(), Data(), store.functions, Weight(store.functions);
      var i := 0;
      while i < |args|
        invariant 0 <= i <= |args|
        invariant Consistent(Data(), ir.State())
        invariant Extends(d0, Data(), s0, ir.State(), f0, store.functions)
        invariant Weight(store.functions) <= w0 + Ast.SizeSeq(args[..i])
        invariant Ast.ReturnFreeSeq(args) ==> temp == d0.temp + i && RegsFrom(ir.State(), |s0.ir|, |locals|, regNum)
      {
        Ast.ElementBound(args, i);
        Ast.PrefixStep(args, i);
        ghost var s1, d1 := ir.State(), Data();
        r := GenExpr(store, ir, args[i], true);
        if !r.Ok? {
          return;
        }
        if Ast.ReturnFreeSeq(args) {
          Extend(s1, d1, ir.State(), Data(), |s0.ir|);
        }
        i := i + 1;
      }
      assert args[..i] == args;
      r := Ok;
    }

    /** `gen_comp_stmts`: every statement but the last is compiled for
        effect; the last (`nil` when there is none) gives the value, stored
        to `ret` when one is given. */
    method GenCompStmts(store: FnStore, ir: IrContext, nodes: seq<Ast.Node>, ret: Option<nat>, useValue: bool) returns (r: Res)
      requires Consistent(Data(), ir.State()) && (ret.Some? ==> ret.value < |locals|)
      modifies this, ir, store`functions
      decreases Ast.SizeSeq(nodes) + 1, 10
      ensures r.Ok? ==> Consistent(Data(), ir.State()) && Extends(old(Data()), Data(), old(ir.State()), ir.State(), old(store.functions), store.functions)
      ensures r.Ok? ==> Weight(store.functions) < Weight(old(store.functions)) + Ast.SizeSeq(nodes) + 1 + 1
      ensures r.Ok? && Ast.ReturnFreeSeq(nodes) ==> temp == old(temp) + (if useValue then 1 else 0) && RegsFrom(ir.State(), old(|ir.ir|), |locals|, regNum)
    {
      var last: Ast.Node := Ast.Nil;
      var init: seq<Ast.Node> := nodes;
      if |nodes| > 0 {
        last := nodes[|nodes| - 1];
        init := nodes[..|nodes| - 1];
        Ast.ElementBound(nodes, |nodes| - 1);
        Ast.PrefixBound(nodes, |nodes| - 1);
      }
      ghost var k := |ir.ir|;
      r := GenStmts(store, ir, init);
      if !r.Ok? {
        return;
      }
      ghost var s1, d1 := ir.State(), Data();
      if ret.Some? {
        r := GenStoreExpr(store, ir, ret.value, last, useValue);
      } else {
        r := GenExpr(store, ir, last, useValue);
      }
      if !r.Ok? {
        return;
      }
      if Ast.ReturnFreeSeq(nodes) {
        Extend(s1, d1, ir.State(), Data(), k);
      }
    }

    /** Compiles each statement for effect, in order. */
    method GenStmts(store: FnStore, ir: IrContext, stmts: seq<Ast.Node>) returns (r: Res)
      requires Consistent(Data(), ir.State())
      modifies this, ir, store`functions
      decreases Ast.SizeSeq(stmts), 9
      ensures r.Ok? ==> Consistent(Data(), ir.State()) && Extends(old(Data()), Data(), old(ir.State()), ir.State(), old(store.functions), store.functions)
      ensures r.Ok? ==> Weight(store.functions) < Weight(old(store.functions)) + Ast.SizeSeq(stmts) + 1
      ensures r.Ok? && Ast.ReturnFreeSeq(stmts) ==> temp == old(temp) + 0 && RegsFrom(ir.State(), old(|ir.ir|), |locals|, regNum)
    {
      ghost var s0, d0, f0, w0 := ir.State(), Data(), store.functions, Weight(store.functions);
      var i := 0;
      while i < |stmts|
        invariant 0 <= i <= |stmts|
        invariant Consistent(Data(), ir.State())
        invariant Extends(d0, Data(), s0, ir.State(), f0, store.functions)
        invariant Weight(store.functions) <= w0 + Ast.SizeSeq(stmts[..i])
        invariant Ast.ReturnFreeSeq(stmts) ==> temp == d0.temp && RegsFrom(ir.State(), |s0.ir|, |locals|, regNum)
      {
        Ast.ElementBound(stmts, i);
        Ast.PrefixStep(stmts, i);
        ghost var s1, d1 := ir.State(), Data();
        r := GenExpr(store, ir, stmts[i], false);
        if !r.Ok? {
          return;
        }
        if Ast.ReturnFreeSeq(stmts) {
          Extend(s1, d1, ir.State(), Data(), |s0.ir|);
        }
        i := i + 1;
      }
      assert stmts[..i] == stmts;
      r := Ok;
    }

    /** `if`: the condition branches to the then part; the else part falls
        through and jumps over it to the end. */
    method GenIf(store: FnStore, ir: IrContext, c: Ast.Node, t: Ast.Node, e: Ast.Node, useValue: bool) returns (r: Res)
      requires Consistent(Data(), ir.State())
      modifies this, ir, store`functions
      decreases Ast.Size(c) + Ast.Size(t) + Ast.Size(e), 9
      ensures r.Ok? ==> Consistent(Data(), ir.State()) && Extends(old(Data()), Data(), old(ir.State()), ir.State(), old(store.functions), store.functions)
      ensures r.Ok? ==> Weight(store.functions) < Weight(old(store.functions)) + Ast.Size(c) + Ast.Size(t) + Ast.Size(e) + 1
      ensures r.Ok? && Ast.ReturnFree(c) && Ast.ReturnFree(t) && Ast.ReturnFree(e) ==> temp == old(temp) + (if useValue then 1 else 0) && RegsFrom(ir.State(), old(|ir.ir|), |locals|, regNum)
    {
      ghost var s0 := ir.State();
      var thenPos := ir.NewLabel();
      var succPos := ir.NewLabel();
      assert ir.State() == s0.(labels := s0.labels + [None, None]);
      ghost var s1, d1, f1;
      r, s1, d1, f1 := GenIfArms(store, ir, c, t, e, thenPos, succPos, useValue);
      if !r.Ok? {
        return;
      }
      ghost var s2 := ir.State();
      ir.ApplyLabel(succPos);
      IfGrows(old(Data()), d1, Data(), s0, s1, s2, old(store.functions), f1, store.functions, thenPos);
      assert ir.State() == s2.(labels := s2.labels[thenPos + 1 := Some(|s2.ir|)]);
    }

    /** Both arms of an `if` whose two labels have just been created: the
        condition and the else part, then the then part behind its label.
        The ghost results are the state between the two. */
    method GenIfArms(store: FnStore, ir: IrContext, c: Ast.Node, t: Ast.Node, e: Ast.Node,
                     thenPos: nat, succPos: nat, useValue: bool)
      returns (r: Res, ghost s1: IrState, ghost d1: NormalData, ghost f1: seq<FuncInfo>)
      requires Consistent(Data(), ir.State()) && thenPos < |ir.labels| && succPos < |ir.labels|
      modifies this, ir, store`functions
      decreases Ast.Size(c) + Ast.Size(t) + Ast.Size(e), 8
      ensures r.Ok? ==> Extends(old(Data()), d1, old(ir.State()), s1, old(store.functions), f1)
      ensures r.Ok? ==> Consistent(Data(), ir.State()) && Extends(d1, Data(), s1.(labels := s1.labels[thenPos := Some(|s1.ir|)]), ir.State(), f1, store.functions)
      ensures r.Ok? ==> Weight(store.functions) < Weight(old(store.functions)) + Ast.Size(c) + Ast.Size(t) + Ast.Size(e)
      ensures r.Ok? && Ast.ReturnFree(c) && Ast.ReturnFree(t) && Ast.ReturnFree(e) ==> temp == old(temp) + (if useValue then 1 else 0) && RegsFrom(ir.State(), old(|ir.ir|), |locals|, regNum)
    {
      ghost var k := |ir.ir|;
      r := GenCondElse(store, ir, c, e, thenPos, succPos, useValue);
      s1, d1, f1 := ir.State(), Data(), store.functions;
      if !r.Ok? {
        return;
      }
      r := GenThen(store, ir, t, thenPos, useValue);
      if r.Ok? && Ast.ReturnFree(c) && Ast.ReturnFree(t) && Ast.ReturnFree(e) {
        Extend(s1, d1, ir.State(), Data(), k);
      }
    }

    /** The then part of an `if`, with the label the condition branches to
        bound in front of it. */
    method GenThen(store: FnStore, ir: IrContext, t: Ast.Node, thenPos: nat, useValue: bool) returns (r: Res)
      requires Consistent(Data(), ir.State()) && thenPos < |ir.labels|
      modifies this, ir, store`functions
      decreases Ast.Size(t), 8
      ensures r.Ok? ==> Consistent(Data(), ir.State())
      ensures r.Ok? ==> Extends(old(Data()), Data(), old(ir.State()).(labels := old(ir.labels)[thenPos := Some(old(|ir.ir|))]), ir.State(), old(store.functions), store.functions)
      ensures r.Ok? ==> Weight(store.functions) < Weight(old(store.functions)) + Ast.Size(t)
      ensures r.Ok? && Ast.ReturnFree(t) ==> temp == old(temp) + (if useValue then 1 else 0) && RegsFrom(ir.State(), old(|ir.ir|), |locals|, regNum)
    {
      ir.ApplyLabel(thenPos);
      r := GenExpr(store, ir, t, useValue);
    }

    /** The condition and the else part of an `if`, ending in the jump over
        the then part. */
    method GenCondElse(store: FnStore, ir: IrContext, c: Ast.Node, e: Ast.Node,
                       thenPos: nat, succPos: nat, useValue: bool) returns (r: Res)
      requires Consistent(Data(), ir.State()) && thenPos < |ir.labels| && succPos < |ir.labels|
      modifies this, ir, store`functions
      decreases Ast.Size(c) + Ast.Size(e), 8
      ensures r.Ok? ==> Consistent(Data(), ir.State()) && Extends(old(Data()), Data(), old(ir.State()), ir.State(), old(store.functions), store.functions)
      ensures r.Ok? ==> Weight(store.functions) < Weight(old(store.functions)) + Ast.Size(c) + Ast.Size(e)
      ensures r.Ok? && Ast.ReturnFree(c) && Ast.ReturnFree(e) ==> temp == old(temp) && RegsFrom(ir.State(), old(|ir.ir|), |locals|, regNum)
    {
      ghost var k := |ir.ir|;
      r := GenCondBr(store, ir, c, thenPos, false);
      if !r.Ok? {
        return;
      }
      ghost var s1, d1 := ir.State(), Data();
      r := GenJumpOver(store, ir, e, succPos, useValue);
      if r.Ok? && Ast.ReturnFree(c) && Ast.ReturnFree(e) {
        Extend(s1, d1, ir.State(), Data(), k);
      }
    }

    /** Evaluates a condition and branches to `dest` when it holds, or when
        it does not with `negated`. */
    method GenCondBr(store: FnStore, ir: IrContext, c: Ast.Node, dest: nat, negated: bool) returns (r: Res)
      requires Consistent(Data(), ir.State()) && dest < |ir.labels|
      modifies this, ir, store`functions
      decreases Ast.Size(c), 7
      ensures r.Ok? ==> Consistent(Data(), ir.State()) && Extends(old(Data()), Data(), old(ir.State()), ir.State(), old(store.functions), store.functions)
      ensures r.Ok? ==> Weight(store.functions) < Weight(old(store.functions)) + Ast.Size(c)
      ensures r.Ok? && Ast.ReturnFree(c) ==> temp == old(temp) + 0 && RegsFrom(ir.State(), old(|ir.ir|), |locals|, regNum)
    {
      ghost var k := |ir.ir|;
      var cond;
      r, cond := GenTempExpr(store, ir, c);
      if !r.Ok? {
        return;
      }
      ghost var s1, d1 := ir.State(), Data();
      var inst := if negated then BcIr.CondNotBr(Temp(cond), dest) else BcIr.CondBr(Temp(cond), dest);
      ir.Push(inst);
      if Ast.ReturnFree(c) {
        ExtendPush(s1, d1, ir.State(), Data(), k, inst);
      }
    }

    /** The else part of an `if`: its value, then the jump to the end. */
    method GenJumpOver(store: FnStore, ir: IrContext, e: Ast.Node, succPos: nat, useValue: bool) returns (r: Res)
      requires Consistent(Data(), ir.State()) && succPos < |ir.labels|
      modifies this, ir, store`functions
      decreases Ast.Size(e), 6
      ensures r.Ok? ==> Consistent(Data(), ir.State()) && Extends(old(Data()), Data(), old(ir.State()), ir.State(), old(store.functions), store.functions)
      ensures r.Ok? ==> Weight(store.functions) < Weight(old(store.functions)) + Ast.Size(e)
      ensures r.Ok? && Ast.ReturnFree(e) ==> temp == old(temp) + 0 && RegsFrom(ir.State(), old(|ir.ir|), |locals|, regNum)
    {
      ghost var k := |ir.ir|;
      r := GenExpr(store, ir, e, useValue);
      if !r.Ok? {
        return;
      }
      ghost var s1, d1 := ir.State(), Data();
      ir.Push(BcIr.Br(succPos));
      if useValue {
        var ok, _ := Pop();
        if !ok {
          return Panic;
        }
      }
      if Ast.ReturnFree(e) {
        ExtendPush(s1, d1, ir.State(), Data(), k, BcIr.Br(succPos));
      }
    }

    /** `gen_while`, followed by the `nil` a loop evaluates to when its value
        is used. */
    method GenWhile(store: FnStore, ir: IrContext, c: Ast.Node, body: Ast.Node, useValue: bool) returns (r: Res)
      requires Consistent(Data(), ir.State())
      modifies this, ir, store`functions
      decreases Ast.Size(c) + Ast.Size(body), 10
      ensures r.Ok? ==> Consistent(Data(), ir.State()) && Extends(old(Data()), Data(), old(ir.State()), ir.State(), old(store.functions), store.functions)
      ensures r.Ok? ==> Weight(store.functions) < Weight(old(store.functions)) + Ast.Size(c) + Ast.Size(body) + 1
      ensures r.Ok? && Ast.ReturnFree(c) && Ast.ReturnFree(body) ==> temp == old(temp) + (if useValue then 1 else 0) && RegsFrom(ir.State(), old(|ir.ir|), |locals|, regNum)
    {
      r := GenWhileLoop(store, ir, c, body);
      if !r.Ok? || !useValue {
        return;
      }
      ghost var s1, d1, f1 := ir.State(), Data(), store.functions;
      GenNil(ir, None);
      StepThen(old(Data()), d1, Data(), old(ir.State()), s1, ir.State(), old(store.functions), f1,
               Ast.ReturnFree(c) && Ast.ReturnFree(body));
    }

    /** The labels of a `while` around the loop proper: the head label is
        bound before the test, the exit label after the back jump. */
    method GenWhileLoop(store: FnStore, ir: IrContext, c: Ast.Node, body: Ast.Node) returns (r: Res)
      requires Consistent(Data(), ir.State())
      modifies this, ir, store`functions
      decreases Ast.Size(c) + Ast.Size(body), 9
      ensures r.Ok? ==> Consistent(Data(), ir.State()) && Extends(old(Data()), Data(), old(ir.State()), ir.State(), old(store.functions), store.functions)
      ensures r.Ok? ==> Weight(store.functions) < Weight(old(store.functions)) + Ast.Size(c) + Ast.Size(body)
      ensures r.Ok? && Ast.ReturnFree(c) && Ast.ReturnFree(body) ==> temp == old(temp) && RegsFrom(ir.State(), old(|ir.ir|), |locals|, regNum)
    {
      var condPos := ir.NewLabel();
      var succPos := ir.NewLabel();
      ir.ApplyLabel(condPos);
      ghost var sa := ir.State();
      r := GenLoop(store, ir, c, body, condPos, succPos);
      if !r.Ok? {
        return;
      }
      ghost var s1 := ir.State();
      ir.ApplyLabel(succPos);
      WhileGrows(old(Data()), Data(), old(ir.State()), sa, s1, old(store.functions), store.functions, condPos);
    }

    /** The loop proper: the test that leaves it, the body, and the jump
        back to the head. */
    method GenLoop(store: FnStore, ir: IrContext, c: Ast.Node, body: Ast.Node, condPos: nat, succPos: nat) returns (r: Res)
      requires Consistent(Data(), ir.State()) && condPos < |ir.labels| && succPos < |ir.labels|
      modifies this, ir, store`functions
      decreases Ast.Size(c) + Ast.Size(body), 8
      ensures r.Ok? ==> Consistent(Data(), ir.State()) && Extends(old(Data()), Data(), old(ir.State()), ir.State(), old(store.functions), store.functions)
      ensures r.Ok? ==> Weight(store.functions) < Weight(old(store.functions)) + Ast.Size(c) + Ast.Size(body)
      ensures r.Ok? && Ast.ReturnFree(c) && Ast.ReturnFree(body) ==> temp == old(temp) + 0 && RegsFrom(ir.State(), old(|ir.ir|), |locals|, regNum)
    {
      ghost var k := |ir.ir|;
      r := GenCondBr(store, ir, c, succPos, true);
      if !r.Ok? {
        return;
      }
      ghost var s1, d1 := ir.State(), Data();
      r := GenExpr(store, ir, body, false);
      if !r.Ok? {
        return;
      }
      ghost var s2, d2 := ir.State(), Data();
      ir.Push(BcIr.Br(condPos));
      if Ast.ReturnFree(c) && Ast.ReturnFree(body) {
        Extend(s1, d1, s2, d2, k);
        ExtendPush(s2, d2, ir.State(), Data(), k, BcIr.Br(condPos));
      }
    }

    /** `return`: a local is returned directly, anything else through the
        stack, which must then hold nothing else. */
    method GenReturn(store: FnStore, ir: IrContext, v: Ast.Node) returns (r: Res)
      requires Consistent(Data(), ir.State())
      modifies this, ir, store`functions
      decreases Ast.Size(v), 8
      ensures r.Ok? ==> Consistent(Data(), ir.State()) && Extends(old(Data()), Data(), old(ir.State()), ir.State(), old(store.functions), store.functions)
      ensures r.Ok? ==> Weight(store.functions) < Weight(old(store.functions)) + Ast.Size(v) + 1
      ensures r.Ok? ==> temp == 0 && |ir.ir| > old(|ir.ir|) && ir.ir[|ir.ir| - 1].Ret?
    {
      var name := IsLocal(v);
      if name.Some? {
        var l;
        r, l := LoadLocal(name.value);
        if !r.Ok? {
          return;
        }
        r := GenRet(ir, Some(l));
      } else {
        r := GenExpr(store, ir, v, true);
        if !r.Ok? {
          return;
        }
        r := GenRet(ir, None);
      }
    }

    /** `gen_method_def`: registers the body as a new pending function with
        the next id and emits the definition; a used value is `nil`. */
    method GenMethodDef(store: FnStore, ir: IrContext, name: Ast.Ident, params: seq<Ast.Param>, body: Ast.Node, useValue: bool)
      returns (r: Res)
      requires Consistent(Data(), ir.State())
      modifies this, ir, store`functions
      ensures r.Ok? ==> Consistent(Data(), ir.State()) && Extends(old(Data()), Data(), old(ir.State()), ir.State(), old(store.functions), store.functions)
      ensures r.Ok? ==> Weight(store.functions) < Weight(old(store.functions)) + Ast.Size(body) + 1
      ensures r.Ok? ==> ir.labels == old(ir.labels)
      ensures r.Ok? ==> temp == old(temp) + (if useValue then 1 else 0) && RegsFrom(ir.State(), old(|ir.ir|), |locals|, regNum)
      ensures r == Err(Unimplemented) <==> ParamNames(params).None?
      ensures r == Panic <==> ParamNames(params).Some? && !NoDup(ParamNames(params).value)
      ensures r.Ok? ==> |ir.ir| > old(|ir.ir|) && ir.ir[old(|ir.ir|)] == BcIr.MethodDef(name, |old(store.functions)|)
      ensures r.Ok? ==> |store.functions| == old(|store.functions|) + 1
      ensures r.Ok? ==> Defines(store.functions[|store.functions| - 1], name, params, body)
    {
      var argNames := CollectParams(params);
      if argNames.None? {
        return Err(Unimplemented);
      }
      var ok, funcId := store.PushNormal(name, argNames.value, body);
      if !ok {
        return Panic;
      }
      ghost var k := |ir.ir|;
      ir.Push(BcIr.MethodDef(name, funcId));
      assert RegsFrom(ir.State(), k, |locals|, regNum) by {
        assert ir.ir[k..] == [BcIr.MethodDef(name, funcId)];
      }
      if useValue {
        ghost var s1, d1 := ir.State(), Data();
        GenNil(ir, None);
        Extend(s1, d1, ir.State(), Data(), k);
      }
      return Ok;
    }

    /** The names of the parameters, as long as every one is plain. */
    static method CollectParams(params: seq<Ast.Param>) returns (names: Option<seq<Ast.Ident>>)
      ensures names == ParamNames(params)
    {
      var acc: seq<Ast.Ident> := [];
      var i := 0;
      while i < |params|
        invariant 0 <= i <= |params|
        invariant ParamNames(params[..i]) == Some(acc)
      {
        assert params[..i + 1][..i] == params[..i];
        if !params[i].Param? {
          assert !params[..i + 1][i].Param?;
          PrefixParamNames(params, i + 1);
          return None;
        }
        acc := acc + [params[i].name];
        i := i + 1;
      }
      assert params[..i] == params;
      return Some(acc);
    }

    /** `gen_store_expr`: compiles `rhs` straight into local `local`,
        pushing a copy when the value is used. */
    method GenStoreExpr(store: FnStore, ir: IrContext, local: nat, rhs: Ast.Node, useValue: bool) returns (r: Res)
      requires Consistent(Data(), ir.State()) && local < |locals|
      modifies this, ir, store`functions
      decreases Ast.Size(rhs), 9
      ensures r.Ok? ==> Consistent(Data(), ir.State()) && Extends(old(Data()), Data(), old(ir.State()), ir.State(), old(store.functions), store.functions)
      ensures r.Ok? ==> Weight(store.functions) < Weight(old(store.functions)) + Ast.Size(rhs)
      ensures r.Ok? && Ast.ReturnFree(rhs) ==> temp == old(temp) + (if useValue then 1 else 0) && RegsFrom(ir.State(), old(|ir.ir|), |locals|, regNum)
      ensures AssertionFails(rhs) ==> r.Panic? && Data() == old(Data()) && ir.State() == old(ir.State())
    {
      if rhs.Return? || rhs.OtherUnOp? || rhs.MultiAssign? || rhs.OtherArgsCall? {
        return Panic;
      } else if rhs.CompStmt? {
        r := GenCompStmts(store, ir, rhs.nodes, Some(local), useValue);
      } else if StoresDirectly(rhs) {
        ghost var k := |ir.ir|;
        r := GenStoreValue(store, ir, local, rhs);
        if r.Ok? && useValue {
          ghost var s1, d1 := ir.State(), Data();
          GenTempMov(ir, Local(local));
          if Ast.ReturnFree(rhs) {
            Extend(s1, d1, ir.State(), Data(), k);
          }
        }
      } else {
        r := GenStoreOther(store, ir, local, rhs, useValue);
      }
    }

    /** The kinds of expression `gen_store_expr` compiles to an instruction
        that writes the local itself. */
    static predicate StoresDirectly(n: Ast.Node)
    {
      n.Nil? || n.Bool? || n.SelfValue? || n.Integer? || n.Float? || n.Neg? || n.BinOp? ||
      n.MulAssign? || n.LocalVar? || n.FuncCall?
    }

    /** An expression whose instruction writes the local itself. */
    method GenStoreValue(store: FnStore, ir: IrContext, local: nat, rhs: Ast.Node) returns (r: Res)
      requires Consistent(Data(), ir.State()) && local < |locals| && StoresDirectly(rhs)
      modifies this, ir, store`functions
      decreases Ast.Size(rhs), 8
      ensures r.Ok? ==> Consistent(Data(), ir.State()) && Extends(old(Data()), Data(), old(ir.State()), ir.State(), old(store.functions), store.functions)
      ensures r.Ok? ==> Weight(store.functions) < Weight(old(store.functions)) + Ast.Size(rhs)
      ensures r.Ok? && Ast.ReturnFree(rhs) ==> temp == old(temp) + 0 && RegsFrom(ir.State(), old(|ir.ir|), |locals|, regNum)
      ensures r.Ok? ==> |ir.ir| > old(|ir.ir|) && Writes(ir.ir[|ir.ir| - 1], Local(local))
    {
      if rhs.Neg? || rhs.BinOp? {
        r := GenStoreArith(store, ir, local, rhs);
      } else if rhs.MulAssign? || rhs.FuncCall? {
        r := GenStoreNested(store, ir, local, rhs);
      } else {
        r := GenStoreLeaf(store, ir, local, rhs);
      }
    }

    /** A literal, `self` or a local variable, written in one instruction. */
    method GenStoreLeaf(store: FnStore, ir: IrContext, local: nat, rhs: Ast.Node) returns (r: Res)
      requires Consistent(Data(), ir.State()) && local < |locals|
      requires rhs.Nil? || rhs.Bool? || rhs.SelfValue? || rhs.Integer? || rhs.Float? || rhs.LocalVar?
      modifies this, ir
      ensures r.Ok? ==> Consistent(Data(), ir.State()) && Grows(old(Data()), Data()) && ir.labels == old(ir.labels) && old(ir.ir) < ir.ir
      ensures r.Ok? ==> temp == old(temp) && RegsFrom(ir.State(), old(|ir.ir|), |locals|, regNum)
      ensures r.Ok? ==> Writes(ir.ir[|ir.ir| - 1], Local(local))
    {
      r := Ok;
      if rhs.SelfValue? {
        ir.Push(BcIr.Mov(Local(local), SelfReg));
      } else if rhs.LocalVar? {
        var l;
        r, l := LoadLocal(rhs.name);
        if r.Ok? {
          ir.Push(BcIr.Mov(Local(local), Local(l)));
        }
      } else {
        GenStoreLiteral(ir, local, rhs);
      }
    }

    /** A literal written straight to the local. */
    method GenStoreLiteral(ir: IrContext, local: nat, rhs: Ast.Node)
      requires Consistent(Data(), ir.State()) && local < |locals| && (rhs.Nil? || rhs.Bool? || rhs.Integer? || rhs.Float?)
      modifies this, ir
      ensures Consistent(Data(), ir.State()) && Grows(old(Data()), Data()) && ir.labels == old(ir.labels) && old(ir.ir) < ir.ir
      ensures temp == old(temp) && RegsFrom(ir.State(), old(|ir.ir|), |locals|, regNum)
      ensures Writes(ir.ir[|ir.ir| - 1], Local(local))
    {
      match rhs {
        case Nil =>
          GenNil(ir, Some(local));
        case Bool(b) =>
          GenConst(ir, Some(local), BoolLit(b));
        case Integer(i) =>
          GenInteger(ir, Some(local), i);
        case Float(f) =>
          GenConst(ir, Some(local), FloatLit(f));
      }
    }

    /** A negation or a binary operation whose result goes to the local. */
    method GenStoreArith(store: FnStore, ir: IrContext, local: nat, rhs: Ast.Node) returns (r: Res)
      requires Consistent(Data(), ir.State()) && local < |locals| && (rhs.Neg? || rhs.BinOp?)
      modifies this, ir, store`functions
      decreases Ast.Size(rhs), 7
      ensures r.Ok? ==> Consistent(Data(), ir.State()) && Extends(old(Data()), Data(), old(ir.State()), ir.State(), old(store.functions), store.functions)
      ensures r.Ok? ==> Weight(store.functions) < Weight(old(store.functions)) + Ast.Size(rhs)
      ensures r.Ok? && Ast.ReturnFree(rhs) ==> temp == old(temp) + 0 && RegsFrom(ir.State(), old(|ir.ir|), |locals|, regNum)
      ensures r.Ok? ==> |ir.ir| > old(|ir.ir|) && Writes(ir.ir[|ir.ir| - 1], Local(local))
    {
      if rhs.Neg? {
        r := GenStoreNeg(store, ir, local, rhs.operand);
      } else if rhs.op == Ast.OtherOp {
        r := Err(Unimplemented);
      } else {
        var d, l, rr;
        r, d, l, rr := GenBinOp(store, ir, Some(local), rhs.op, rhs.lhs, rhs.rhs);
        BinInstMeaning(rhs.op, rhs.rhs, d, l, rr);
      }
    }

    /** A nested assignment or a call whose result goes to the local. */
    method GenStoreNested(store: FnStore, ir: IrContext, local: nat, rhs: Ast.Node) returns (r: Res)
      requires Consistent(Data(), ir.State()) && local < |locals| && (rhs.MulAssign? || rhs.FuncCall?)
      modifies this, ir, store`functions
      decreases Ast.Size(rhs), 7
      ensures r.Ok? ==> Consistent(Data(), ir.State()) && Extends(old(Data()), Data(), old(ir.State()), ir.State(), old(store.functions), store.functions)
      ensures r.Ok? ==> Weight(store.functions) < Weight(old(store.functions)) + Ast.Size(rhs)
      ensures r.Ok? && Ast.ReturnFree(rhs) ==> temp == old(temp) + 0 && RegsFrom(ir.State(), old(|ir.ir|), |locals|, regNum)
      ensures r.Ok? ==> |ir.ir| > old(|ir.ir|) && Writes(ir.ir[|ir.ir| - 1], Local(local))
    {
      if rhs.MulAssign? {
        r := GenStoreMulAssign(store, ir, local, rhs.target, rhs.value);
      } else {
        r := GenStoreCall(store, ir, local, rhs.callee, rhs.args);
      }
    }

    /** Unary minus into a local: a literal is negated at compile time,
        anything else is stored first and negated in place. */
    method GenStoreNeg(store: FnStore, ir: IrContext, local: nat, operand: Ast.Node) returns (r: Res)
      requires Consistent(Data(), ir.State()) && local < |locals|
      modifies this, ir, store`functions
      decreases Ast.Size(operand), 10
      ensures r.Ok? ==> Consistent(Data(), ir.State()) && Extends(old(Data()), Data(), old(ir.State()), ir.State(), old(store.functions), store.functions)
      ensures r.Ok? ==> Weight(store.functions) < Weight(old(store.functions)) + Ast.Size(operand)
      ensures r.Ok? && Ast.ReturnFree(operand) ==> temp == old(temp) + 0 && RegsFrom(ir.State(), old(|ir.ir|), |locals|, regNum)
      ensures r.Ok? ==> |ir.ir| > old(|ir.ir|) && Writes(ir.ir[|ir.ir| - 1], Local(local))
    {
      if operand.Integer? {
        if !InI64(-(operand.i as int)) {
          return Panic;
        }
        GenInteger(ir, Some(local), -(operand.i as int));
        return Ok;
      }
      if operand.Float? {
        GenConst(ir, Some(local), FloatLit(NegateFloat(operand.f)));
        return Ok;
      }
      ghost var k := |ir.ir|;
      r := GenStoreExpr(store, ir, local, operand, false);
      if !r.Ok? {
        return;
      }
      ghost var s1, d1 := ir.State(), Data();
      r := GenNeg(ir, Some(local));
      if Ast.ReturnFree(operand) {
        Extend(s1, d1, ir.State(), Data(), k);
      }
    }

    /** A nested assignment: the value goes to its own target first and is
        then copied. */
    method GenStoreMulAssign(store: FnStore, ir: IrContext, local: nat, target: Ast.Node, value: Ast.Node) returns (r: Res)
      requires Consistent(Data(), ir.State()) && local < |locals|
      modifies this, ir, store`functions
      decreases Ast.Size(value), 11
      ensures r.Ok? ==> Consistent(Data(), ir.State()) && Extends(old(Data()), Data(), old(ir.State()), ir.State(), old(store.functions), store.functions)
      ensures r.Ok? ==> Weight(store.functions) < Weight(old(store.functions)) + Ast.Size(value)
      ensures r.Ok? && Ast.ReturnFree(value) ==> temp == old(temp) + 0 && RegsFrom(ir.State(), old(|ir.ir|), |locals|, regNum)
      ensures r.Ok? ==> |ir.ir| > old(|ir.ir|) && Writes(ir.ir[|ir.ir| - 1], Local(local))
    {
      if !(target.LocalVar? || target.Ident?) {
        return Err(Unimplemented);
      }
      ghost var d0 := Data();
      var src := FindLocal(target.name);
      RegsGrow(ir.State(), |ir.ir|, d0, Data());
      r := GenStoreCopy(store, ir, local, src, value);
    }

    /** Stores `value` into local `src`, then copies it to `local`. */
    method GenStoreCopy(store: FnStore, ir: IrContext, local: nat, src: nat, value: Ast.Node) returns (r: Res)
      requires Consistent(Data(), ir.State()) && local < |locals| && src < |locals|
      modifies this, ir, store`functions
      decreases Ast.Size(value), 10
      ensures r.Ok? ==> Consistent(Data(), ir.State()) && Extends(old(Data()), Data(), old(ir.State()), ir.State(), old(store.functions), store.functions)
      ensures r.Ok? ==> Weight(store.functions) < Weight(old(store.functions)) + Ast.Size(value)
      ensures r.Ok? && Ast.ReturnFree(value) ==> temp == old(temp) + 0 && RegsFrom(ir.State(), old(|ir.ir|), |locals|, regNum)
      ensures r.Ok? ==> |ir.ir| > old(|ir.ir|) && Writes(ir.ir[|ir.ir| - 1], Local(local))
    {
      ghost var k := |ir.ir|;
      r := GenStoreExpr(store, ir, src, value, false);
      if !r.Ok? {
        return;
      }
      ghost var s1, d1 := ir.State(), Data();
      ir.Push(BcIr.Mov(Local(local), Local(src)));
      if Ast.ReturnFree(value) {
        ExtendPush(s1, d1, ir.State(), Data(), k, BcIr.Mov(Local(local), Local(src)));
      }
    }

    /** A call whose result goes straight to the local. */
    method GenStoreCall(store: FnStore, ir: IrContext, local: nat, callee: Ast.Ident, args: seq<Ast.Node>) returns (r: Res)
      requires Consistent(Data(), ir.State()) && local < |locals|
      modifies this, ir, store`functions
      decreases Ast.SizeSeq(args), 8
      ensures r.Ok? ==> Consistent(Data(), ir.State()) && Extends(old(Data()), Data(), old(ir.State()), ir.State(), old(store.functions), store.functions)
      ensures r.Ok? ==> Weight(store.functions) < Weight(old(store.functions)) + Ast.SizeSeq(args) + 1
      ensures r.Ok? && Ast.ReturnFreeSeq(args) ==> temp == old(temp) + 0 && RegsFrom(ir.State(), old(|ir.ir|), |locals|, regNum)
      ensures r.Ok? ==> |ir.ir| > old(|ir.ir|) && Writes(ir.ir[|ir.ir| - 1], Local(local))
    {
      ghost var k := |ir.ir|;
      var arg: nat, len: nat;
      r, arg, len := CheckFastCallInner(store, ir, args);
      if !r.Ok? {
        return;
      }
      ghost var s1, d1 := ir.State(), Data();
      ir.Push(BcIr.FnCall(callee, Some(Local(local)), arg, len));
      if Ast.ReturnFreeSeq(args) {
        ExtendPush(s1, d1, ir.State(), Data(), k, BcIr.FnCall(callee, Some(Local(local)), arg, len));
      }
    }

    /** Any other expression is evaluated onto the stack and copied. */
    method GenStoreOther(store: FnStore, ir: IrContext, local: nat, rhs: Ast.Node, useValue: bool) returns (r: Res)
      requires Consistent(Data(), ir.State()) && local < |locals|
      modifies this, ir, store`functions
      decreases Ast.Size(rhs), 8
      ensures r.Ok? ==> Consistent(Data(), ir.State()) && Extends(old(Data()), Data(), old(ir.State()), ir.State(), old(store.functions), store.functions)
      ensures r.Ok? ==> Weight(store.functions) < Weight(old(store.functions)) + Ast.Size(rhs)
      ensures r.Ok? && Ast.ReturnFree(rhs) ==> temp == old(temp) + (if useValue then 1 else 0) && RegsFrom(ir.State(), old(|ir.ir|), |locals|, regNum)
      ensures AssertionFails(rhs) ==> r.Panic? && Data() == old(Data()) && ir.State() == old(ir.State())
    {
      ghost var k := |ir.ir|;
      var ret := temp;
      r := GenExpr(store, ir, rhs, true);
      if !r.Ok? {
        return;
      }
      ghost var s1, d1 := ir.State(), Data();
      r := CopyTemp(ir, local, ret, useValue);
      if r.Ok? && Ast.ReturnFree(rhs) {
        Extend(s1, d1, ir.State(), Data(), k);
      }
    }

    /** Copies temporary `ret` to the local and pops it unless the value
        is used. */
    method CopyTemp(ir: IrContext, local: nat, ret: nat, useValue: bool) returns (r: Res)
      requires Consistent(Data(), ir.State()) && local < |locals|
      modifies this, ir
      ensures r.Ok? <==> useValue || old(temp) > 0
      ensures r.Ok? ==> Consistent(Data(), ir.State()) && Grows(old(Data()), Data()) && ir.labels == old(ir.labels)
      ensures r.Ok? ==> ir.ir == old(ir.ir) + [BcIr.Mov(Local(local), Temp(ret))]
      ensures r.Ok? ==> temp == old(temp) - (if useValue then 0 else 1)
      ensures r.Ok? && ret < old(regNum) ==> RegsFrom(ir.State(), old(|ir.ir|), |locals|, regNum)
    {
      ir.Push(BcIr.Mov(Local(local), Temp(ret)));
      r := Ok;
      if !useValue {
        var ok, _ := Pop();
        if !ok {
          return Panic;
        }
      }
    }

    /** `gen_add`, `gen_sub`, `gen_mul`, `gen_div` and `gen_cmp`: the
        operands are evaluated and one instruction, chosen by `BinInst`,
        combines them into `d`. */
    method GenBinOp(store: FnStore, ir: IrContext, dst: Option<nat>, op: Ast.BinOp, lhs: Ast.Node, rhs: Ast.Node)
      returns (r: Res, d: BcReg, l: BcReg, rr: BcReg)
      requires Consistent(Data(), ir.State()) && op != Ast.OtherOp && (dst.Some? ==> dst.value < |locals|)
      modifies this, ir, store`functions
      decreases Ast.Size(lhs) + Ast.Size(rhs), 8
      ensures r.Ok? ==> Consistent(Data(), ir.State()) && Extends(old(Data()), Data(), old(ir.State()), ir.State(), old(store.functions), store.functions)
      ensures r.Ok? ==> Weight(store.functions) < Weight(old(store.functions)) + Ast.Size(lhs) + Ast.Size(rhs)
      ensures r.Ok? && Ast.ReturnFree(lhs) && Ast.ReturnFree(rhs) ==> temp == old(temp) + (if dst.None? then 1 else 0) && RegsFrom(ir.State(), old(|ir.ir|), |locals|, regNum)
      ensures r.Ok? ==> |ir.ir| > old(|ir.ir|) && ir.ir[|ir.ir| - 1] == BinInst(op, rhs, d, l, rr)
      ensures r.Ok? && dst.Some? ==> d == Local(dst.value)
    {
      if UsesImm(op, rhs) {
        r, d, l := GenSingular(store, ir, dst, lhs);
        rr := l;
      } else {
        r, d, l, rr := GenBinary(store, ir, dst, lhs, rhs);
      }
      if !r.Ok? {
        return;
      }
      var inst := BinInst(op, rhs, d, l, rr);
      BinInstRegs(op, rhs, d, l, rr, |locals|, regNum, |ir.labels|, |literals|);
      ghost var s1 := ir.State();
      ir.Push(inst);
      PushStep(old(Data()), Data(), old(ir.State()), s1, old(store.functions), store.functions, inst);
      assert ir.State() == IrState(s1.ir + [inst], s1.labels);
    }

    /** `gen_binary`: a local operand is used in place, anything else is
        evaluated onto the stack; the destination is `dst` or a new
        temporary. */
    method GenBinary(store: FnStore, ir: IrContext, dst: Option<nat>, lhs: Ast.Node, rhs: Ast.Node)
      returns (r: Res, d: BcReg, l: BcReg, rr: BcReg)
      requires Consistent(Data(), ir.State()) && (dst.Some? ==> dst.value < |locals|)
      modifies this, ir, store`functions
      decreases Ast.Size(lhs) + Ast.Size(rhs), 7
      ensures r.Ok? ==> Consistent(Data(), ir.State()) && Extends(old(Data()), Data(), old(ir.State()), ir.State(), old(store.functions), store.functions)
      ensures r.Ok? ==> Weight(store.functions) < Weight(old(store.functions)) + Ast.Size(lhs) + Ast.Size(rhs)
      ensures r.Ok? && Ast.ReturnFree(lhs) && Ast.ReturnFree(rhs) ==> temp == old(temp) + (if dst.None? then 1 else 0) && RegsFrom(ir.State(), old(|ir.ir|), |locals|, regNum)
      ensures r.Ok? ==> RegOk(d, |locals|, regNum) && RegOk(l, |locals|, regNum) && RegOk(rr, |locals|, regNum)
      ensures r.Ok? && dst.Some? ==> d == Local(dst.value)
      ensures r.Ok? && dst.None? ==> temp > 0 && d == Temp(temp - 1)
    {
      r, l, rr := GenOperands(store, ir, lhs, rhs);
      if !r.Ok? {
        return r, SelfReg, l, rr;
      }
      ghost var d1 := Data();
      d := DestReg(dst);
      if Ast.ReturnFree(lhs) && Ast.ReturnFree(rhs) {
        RegsGrow(ir.State(), old(|ir.ir|), d1, Data());
      }
    }

    /** The operand registers of `gen_binary`. */
    method GenOperands(store: FnStore, ir: IrContext, lhs: Ast.Node, rhs: Ast.Node)
      returns (r: Res, l: BcReg, rr: BcReg)
      requires Consistent(Data(), ir.State())
      modifies this, ir, store`functions
      decreases Ast.Size(lhs) + Ast.Size(rhs), 6
      ensures r.Ok? ==> Consistent(Data(), ir.State()) && Extends(old(Data()), Data(), old(ir.State()), ir.State(), old(store.functions), store.functions)
      ensures r.Ok? ==> Weight(store.functions) < Weight(old(store.functions)) + Ast.Size(lhs) + Ast.Size(rhs)
      ensures r.Ok? && Ast.ReturnFree(lhs) && Ast.ReturnFree(rhs) ==> temp == old(temp) && RegsFrom(ir.State(), old(|ir.ir|), |locals|, regNum)
      ensures r.Ok? ==> RegOk(l, |locals|, regNum) && RegOk(rr, |locals|, regNum)
    {
      var ln := IsLocal(lhs);
      var rn := IsLocal(rhs);
      if ln.Some? && rn.Some? {
        var a := FindLocal(ln.value);
        var b := FindLocal(rn.value);
        l, rr := Local(a), Local(b);
        r := Ok;
      } else if ln.Some? {
        r, l, rr := GenOneLocal(store, ir, ln.value, rhs, true);
      } else if rn.Some? {
        r, l, rr := GenOneLocal(store, ir, rn.value, lhs, false);
      } else {
        r, l, rr := GenTwoTemps(store, ir, lhs, rhs);
      }
    }

    /** One operand is the local `x`, used in place; the other is evaluated
        into a temporary. With `localLeft` the local is the left operand
        and is looked up first. */
    method GenOneLocal(store: FnStore, ir: IrContext, x: Ast.Ident, other: Ast.Node, localLeft: bool)
      returns (r: Res, l: BcReg, rr: BcReg)
      requires Consistent(Data(), ir.State())
      modifies this, ir, store`functions
      decreases Ast.Size(other), 7
      ensures r.Ok? ==> Consistent(Data(), ir.State()) && Extends(old(Data()), Data(), old(ir.State()), ir.State(), old(store.functions), store.functions)
      ensures r.Ok? ==> Weight(store.functions) < Weight(old(store.functions)) + Ast.Size(other)
      ensures r.Ok? && Ast.ReturnFree(other) ==> temp == old(temp) && RegsFrom(ir.State(), old(|ir.ir|), |locals|, regNum)
      ensures r.Ok? ==> RegOk(l, |locals|, regNum) && RegOk(rr, |locals|, regNum)
      ensures r.Ok? ==> (if localLeft then l.Local? && rr.Temp? else l.Temp? && rr.Local?)
    {
      l, rr := SelfReg, SelfReg;
      if localLeft {
        var a := FindLocal(x);
        var t;
        r, t := GenTempExpr(store, ir, other);
        l, rr := Local(a), Temp(t);
      } else {
        var t;
        r, t := GenTempExpr(store, ir, other);
        if !r.Ok? {
          return;
        }
        ghost var d1 := Data();
        var b := FindLocal(x);
        if Ast.ReturnFree(other) {
          RegsGrow(ir.State(), old(|ir.ir|), d1, Data());
        }
        l, rr := Temp(t), Local(b);
      }
    }

    /** Both operands are evaluated onto the stack, the lhs first. */
    method GenPair(store: FnStore, ir: IrContext, lhs: Ast.Node, rhs: Ast.Node) returns (r: Res)
      requires Consistent(Data(), ir.State())
      modifies this, ir, store`functions
      decreases Ast.Size(lhs) + Ast.Size(rhs), 4
      ensures r.Ok? ==> Consistent(Data(), ir.State()) && Extends(old(Data()), Data(), old(ir.State()), ir.State(), old(store.functions), store.functions)
      ensures r.Ok? ==> Weight(store.functions) < Weight(old(store.functions)) + Ast.Size(lhs) + Ast.Size(rhs)
      ensures r.Ok? && Ast.ReturnFree(lhs) && Ast.ReturnFree(rhs) ==> temp == old(temp) + 2 && RegsFrom(ir.State(), old(|ir.ir|), |locals|, regNum)
    {
      ghost var k := |ir.ir|;
      r := GenExpr(store, ir, lhs, true);
      if !r.Ok? {
        return;
      }
      ghost var s1, d1 := ir.State(), Data();
      r := GenExpr(store, ir, rhs, true);
      if r.Ok? && Ast.ReturnFree(lhs) && Ast.ReturnFree(rhs) {
        Extend(s1, d1, ir.State(), Data(), k);
      }
    }

    /** Both operands are evaluated onto the stack and popped again. */
    method GenTwoTemps(store: FnStore, ir: IrContext, lhs: Ast.Node, rhs: Ast.Node) returns (r: Res, l: BcReg, rr: BcReg)
      requires Consistent(Data(), ir.State())
      modifies this, ir, store`functions
      decreases Ast.Size(lhs) + Ast.Size(rhs), 5
      ensures r.Ok? ==> Consistent(Data(), ir.State()) && Extends(old(Data()), Data(), old(ir.State()), ir.State(), old(store.functions), store.functions)
      ensures r.Ok? ==> Weight(store.functions) < Weight(old(store.functions)) + Ast.Size(lhs) + Ast.Size(rhs)
      ensures r.Ok? && Ast.ReturnFree(lhs) && Ast.ReturnFree(rhs) ==> temp == old(temp) + 0 && RegsFrom(ir.State(), old(|ir.ir|), |locals|, regNum)
      ensures r.Ok? ==> RegOk(l, |locals|, regNum) && RegOk(rr, |locals|, regNum)
    {
      l, rr := SelfReg, SelfReg;
      r := GenPair(store, ir, lhs, rhs);
      if !r.Ok? {
        return;
      }
      ghost var d2 := Data();
      var ok1, t1 := Pop();
      if !ok1 {
        return Panic, l, rr;
      }
      PopStep(old(Data()), d2, old(ir.State()), ir.State(), old(store.functions), store.functions);
      ghost var d3 := Data();
      var ok2, t2 := Pop();
      if !ok2 {
        return Panic, l, rr;
      }
      PopStep(old(Data()), d3, old(ir.State()), ir.State(), old(store.functions), store.functions);
      l, rr := Temp(t2), Temp(t1);
    }

    /** `gen_singular`: the one-operand form of `gen_binary`. */
    method GenSingular(store: FnStore, ir: IrContext, dst: Option<nat>, lhs: Ast.Node) returns (r: Res, d: BcReg, l: BcReg)
      requires Consistent(Data(), ir.State()) && (dst.Some? ==> dst.value < |locals|)
      modifies this, ir, store`functions
      decreases Ast.Size(lhs), 7
      ensures r.Ok? ==> Consistent(Data(), ir.State()) && Extends(old(Data()), Data(), old(ir.State()), ir.State(), old(store.functions), store.functions)
      ensures r.Ok? ==> Weight(store.functions) < Weight(old(store.functions)) + Ast.Size(lhs)
      ensures r.Ok? && Ast.ReturnFree(lhs) ==> temp == old(temp) + (if dst.None? then 1 else 0) && RegsFrom(ir.State(), old(|ir.ir|), |locals|, regNum)
      ensures r.Ok? ==> RegOk(d, |locals|, regNum) && RegOk(l, |locals|, regNum)
      ensures r.Ok? && dst.Some? ==> d == Local(dst.value)
      ensures r.Ok? && dst.None? ==> temp > 0 && d == Temp(temp - 1)
    {
      d, l := SelfReg, SelfReg;
      var name := IsLocal(lhs);
      if name.Some? {
        var a := FindLocal(name.value);
        l := Local(a);
      } else {
        var t;
        r, t := GenTempExpr(store, ir, lhs);
        if !r.Ok? {
          return;
        }
        l := Temp(t);
      }
      ghost var d1 := Data();
      d := DestReg(dst);
      if Ast.ReturnFree(lhs) {
        RegsGrow(ir.State(), old(|ir.ir|), d1, Data());
      }
      r := Ok;
    }

    /** `compile_ast`: compiles the whole body for its value and returns
        it when it is left on the stack. */
    method CompileAst(store: FnStore) returns (r: Res, ir: IrContext)
      requires Wf(Data())
      modifies this, store`functions
      ensures fresh(ir)
      ensures old(ast).None? ==> r == Panic
      ensures r.Ok? ==> Wf(Data()) && Grows(old(Data()).(ast := None), Data())
      ensures r.Ok? ==> StoreGrows(old(store.functions), store.functions)
      ensures r.Ok? ==> Weight(store.functions) < Weight(old(store.functions)) + Ast.Size(old(ast).value)
      ensures r.Ok? ==> IrWf(ir.State(), |literals|) && BoundFrom(ir.labels, 0)
      ensures r.Ok? && old(temp) == 0 && Ast.ReturnFree(old(ast).value) ==>
        RegsFrom(ir.State(), 0, |locals|, regNum) && temp == 0 && |ir.ir| > 0 && ir.ir[|ir.ir| - 1].Ret?
    {
      ir := new IrContext();
      if ast.None? {
        return Panic, ir;
      }
      var a := ast.value;
      ast := None;
      r := GenExpr(store, ir, a, true);
      if !r.Ok? {
        return;
      }
      if temp == 1 {
        ghost var s1, d1 := ir.State(), Data();
        r := GenRet(ir, None);
        if old(temp) == 0 && Ast.ReturnFree(a) {
          Extend(s1, d1, ir.State(), Data(), 0);
        }
      }
    }

    /** `ir_to_bytecode`: the loop over the IR, one instruction at a time. */
    method IrToBytecode(ir: IrContext) returns (ok: bool)
      modifies this
      ensures ok <==> ToBytecode(ir.ir, ir.labels, |locals|).Some?
      ensures ok ==> Data() == old(Data()).(bc := ToBytecode(ir.ir, ir.labels, |locals|).value)
      ensures !ok ==> Data() == old(Data())
    {
      var ops: seq<BcOp> := [];
      var i := 0;
      while i < |ir.ir|
        invariant 0 <= i <= |ir.ir|
        invariant Data() == old(Data())
        invariant ToBytecode(ir.ir[..i], ir.labels, |locals|) == Some(ops)
      {
        var op := Lower(ir.ir[i], ir.labels, |locals|);
        if op.None? {
          return false;
        }
        assert ir.ir[..i + 1][..i] == ir.ir[..i];
        ops := ops + [op.value];
        i := i + 1;
      }
      assert ir.ir[..i] == ir.ir;
      bc := ops;
      ok := true;
    }
  }

  // ---------------------------------------------------------------------
  // FnStore: every function of the program, by id
  // ---------------------------------------------------------------------

  class FnStore {
    var functions: seq<FuncInfo>
    var funcMap: map<Ast.Ident, nat>

    /** A function's id is its position, and names map to existing ids. */
    ghost predicate Valid()
      reads this
    {
      (forall i :: 0 <= i < |functions| ==>
         functions[i].id == i && (functions[i].kind.Normal? ==> Wf(functions[i].kind.info))) &&
      (forall n :: n in funcMap ==> funcMap[n] < |functions|)
    }

    constructor ()
      ensures Valid() && functions == [] && funcMap == map[]
    {
      functions := [];
      funcMap := map[];
    }

    function NextFuncId(): nat
      reads this
    {
      |functions|
    }

    method AddBuiltinFunc(name: Ast.Ident, address: nat, arity: nat) returns (id: nat)
      requires Valid()
      modifies this
      ensures Valid()
      ensures id == old(|functions|)
      ensures functions == old(functions) + [FuncInfo(id, name, arity, Builtin(address))]
      ensures funcMap == old(funcMap)[name := id]
    {
      id := NextFuncId();
      funcMap := funcMap[name := id];
      functions := functions + [FuncInfo(id, name, arity, Builtin(address))];
    }

    /** `ctx.push(FuncInfo::new_normal(..))`: registers a function with the
        next id, its parameters as its first locals and its body waiting to
        be compiled; a repeated parameter name fails the assertion in
        `add_local`. */
    method PushNormal(name: Ast.Ident, args: seq<Ast.Ident>, body: Ast.Node) returns (ok: bool, id: nat)
      modifies this`functions
      ensures id == old(|functions|)
      ensures ok <==> NoDup(args)
      ensures !ok ==> functions == old(functions)
      ensures ok ==> |functions| == id + 1 && old(functions) < functions && Pending(functions[id], id)
      ensures ok ==> functions[id].name == name && functions[id].arity == |args|
      ensures ok ==> functions[id].kind.info.args == args && functions[id].kind.info.ast == Some(body)
      ensures ok ==> Weight(functions) == Weight(old(functions)) + Ast.Size(body)
    {
      id := |functions|;
      NewNormalLocals(id, name, args, body);
      var info := NewNormal(id, name, args, body);
      if info.None? {
        return false, id;
      }
      var f := FuncInfo(id, name, |args|, Normal(info.value));
      WeightAppend(functions, f);
      functions := functions + [f];
      ok := true;
    }

    /** `compile_func`: takes the function's state out of the store,
        compiles its body (which may register more functions) and puts the
        result back. */
    method CompileFunc(fid: nat) returns (r: Res)
      requires Valid() && fid < |functions|
      modifies this`functions
      ensures r.Ok? ==> old(functions[fid].kind.Normal? && functions[fid].kind.info.ast.Some?)
      ensures r.Ok? ==> Valid() && |functions| >= old(|functions|)
      ensures r.Ok? ==> forall i :: 0 <= i < old(|functions|) && i != fid ==> functions[i] == old(functions[i])
      ensures r.Ok? ==> forall i :: old(|functions|) <= i < |functions| ==> Pending(functions[i], i)
      ensures r.Ok? ==> functions[fid] == old(functions[fid]).(kind := functions[fid].kind) && Compiled(functions[fid])
      ensures r.Ok? ==> Weight(functions) < Weight(old(functions))
      ensures r.Ok? && old(Pending(functions[fid], fid) && Ast.ReturnFree(functions[fid].kind.info.ast.value)) ==>
        SlotsInFrame(functions[fid].kind.info) && |functions[fid].kind.info.bc| > 0 &&
        functions[fid].kind.info.bc[|functions[fid].kind.info.bc| - 1].Ret?
    {
      if !functions[fid].kind.Normal? {
        return Panic;
      }
      ghost var fs0 := functions;
      var f := functions[fid];
      functions := functions[fid := f.(kind := Normal(EMPTY_INFO))];
      WeightUpdate(fs0, fid, functions[fid]);
      var data;
      r, data := CompileData(f.kind.info);
      if !r.Ok? {
        return;
      }
      ghost var fs2 := functions;
      functions := functions[fid := f.(kind := Normal(data))];
      WeightUpdate(fs2, fid, functions[fid]);
    }

    /** The body of `compile_func` between taking the syntax tree out of
        a function and putting the finished function back: generation,
        then the conversion to bytecode. */
    method CompileData(data: NormalData) returns (r: Res, out: NormalData)
      requires Valid() && Wf(data)
      modifies this`functions
      ensures r.Ok? ==> data.ast.Some? && Wf(out) && out.ast.None? && BranchesWithin(out.bc)
      ensures r.Ok? ==> out.id == data.id && out.nameId == data.nameId && out.args == data.args
      ensures r.Ok? ==> Valid() && StoreGrows(old(functions), functions)
      ensures r.Ok? ==> Weight(functions) < Weight(old(functions)) + Ast.Size(data.ast.value)
      ensures r.Ok? && data.temp == 0 && Ast.ReturnFree(data.ast.value) ==>
        SlotsInFrame(out) && |out.bc| > 0 && out.bc[|out.bc| - 1].Ret?
    {
      out := data;
      var info := new NormalFuncInfo.FromData(data);
      var ir;
      r, ir := info.CompileAst(this);
      if !r.Ok? {
        return;
      }
      Lowered(info.Data(), ir.State());
      if RegsFrom(ir.State(), 0, |info.locals|, info.regNum) {
        LoweredSlots(info.Data(), ir.State());
      }
      var ok := info.IrToBytecode(ir);
      assert ok;
      out := info.Data();
    }

    /** `compile_main`: registers the top level as a function and compiles
        functions in id order until no uncompiled one is left. */
    method CompileMain(ast: Ast.Node) returns (r: Res)
      requires Valid()
      modifies this
      ensures funcMap == old(funcMap)[Ast.MAIN := old(|functions|)]
      ensures r.Ok? ==> Valid() && |functions| > old(|functions|)
      ensures r.Ok? ==> functions[old(|functions|)].name == Ast.MAIN
      ensures r.Ok? ==> forall i :: 0 <= i < old(|functions|) ==> functions[i] == old(functions[i])
      ensures r.Ok? ==> forall i :: old(|functions|) <= i < |functions| ==> Compiled(functions[i])
    {
      var fid := NextFuncId();
      ghost var start := fid;
      NewNormalLocals(fid, Ast.MAIN, [], ast);
      var info := NewNormal(fid, Ast.MAIN, [], ast).value;
      functions := functions + [FuncInfo(fid, Ast.MAIN, 0, Normal(info))];
      funcMap := funcMap[Ast.MAIN := fid];
      while NextFuncId() > fid
        invariant Valid()
        invariant start <= fid <= |functions| && start < |functions|
        invariant funcMap == old(funcMap)[Ast.MAIN := start]
        invariant functions[start].name == Ast.MAIN
        invariant forall i :: 0 <= i < start ==> functions[i] == old(functions[i])
        invariant forall i :: start <= i < fid ==> Compiled(functions[i])
        invariant forall i :: fid <= i < |functions| ==> Pending(functions[i], i)
        decreases Weight(functions)
      {
        r := CompileFunc(fid);
        if !r.Ok? {
          return;
        }
        fid := fid + 1;
      }
      r := Ok;
    }
  }
}
