# monoruby compilation pipeline, modelled in Dafny

monoruby runs a small subset of Ruby in two ways. The bytecode executor
lowers a parsed program into register bytecode. An experimental JIT path
lowers a tiny expression language to SSA form (HIR), then to two-address
machine IR (McIR), and then to x86-64 code. A basic-block HIR interpreter
decides, per function, whether to run the JIT-compiled code or to
interpret. This project models six parts of that pipeline, one Dafny module
per source file, and proves what each stage promises.

- `Bytecodegen` and `Bytecode` model `src/executor/bytecodegen.rs`. The
  class `NormalFuncInfo` owns the temporary-register stack (`temp`, with
  `reg_num` as its high-water mark), the local table, the literal pool
  and the AST that still needs compiling. The class `IrContext` holds the
  label-based `BcIr` list and its label table. The class `FnStore` keeps
  the dense table of functions. The `gen_*` methods are methods of
  `NormalFuncInfo`. `ir_to_bytecode` with `get_index` lowers `BcIr` to
  register-indexed `BcOp`. The generator's methods are proved against
  the pure functions `PushTemp`, `PopTemp`, `AddLocalTo`, `FindLocalIn`,
  `NewConstantIn`, `NewLabelIn`, `ApplyLabelIn` and `ToBytecode`. Every
  generator method states three things about its success path:
  - the IR stays consistent with the tables, with labels and literals in
    range and `temp <= reg_num`;
  - the IR, the tables and the function store only grow;
  - the net effect on `temp` is +1 when a value is wanted and 0 otherwise.
- `Op` models the integer paths of the runtime helpers in
  `src/executor/op.rs`: arithmetic, bitwise operations, shifts,
  comparisons and negation, all on i64.
- `Hir` models `src/hir.rs`. The class `HirContext` appends SSA
  instructions and their result types. `Gen` lowers an expression and
  inserts `IntAsFloat` wherever an integer meets a float. The invariant
  `Valid` requires three things: one type per defined register, each
  register defined once, and operands that are defined earlier and have
  the right type.
- `McIr` models `src/mcir.rs`. The class `MachineIrContext` maps SSA
  registers to virtual machine registers, reusing the lowest free one
  (first fit). In a two-address operation the result takes the lhs
  register and the rhs register is freed.
- `Codegen` models the parts of `src/codegen.rs` that are arithmetic or
  control rather than machine-code bytes:
  - the mapping from virtual registers to physical registers and stack
    slots;
  - the spill offsets and the aligned frame size;
  - the choice of condition code;
  - eliding a jump to the next block;
  - the return-type check;
  - the label bookkeeping of `compile_and_run`.
- `Eval` models `src/eval.rs`. The class `Evaluator` keeps the per-function
  JIT memo (`jit_state`). The class `FuncContext` holds the frame: SSA
  registers, locals, `cur_bb`, `prev_bb` and `pc`. `Step` is the meaning
  of every instruction but `Call`.

Shared conventions (module `Base`):
- Integers are unbounded and the source's widths are checked explicitly.
- Rust's debug-build overflow checks, `unwrap` of `None`, out-of-range
  indexing, `assert!` and `unreachable!` all become an explicit panic or
  fault result.
- Floats are an opaque `F64`. Float arithmetic and comparison come from an
  `Fpu` parameter.

## Model

| member | source | states |
|---|---|---|
| Op.IntArith | src/executor/op.rs:15 | an integer result is always within i64; the result is a division-by-zero fault exactly for division by 0 |
| Op.Fit | src/executor/op.rs:15 | a mathematical result is kept exactly when it fits in i64, and is an overflow otherwise |
| Op.BinopValues | src/executor/op.rs:10-30 | add/sub/mul/div accept exactly integer and float operand pairs (anything else is unreachable) and an integer pair that does not overflow; the result is an integer exactly when both operands are integers |
| Op.IntDivTruncates | src/executor/op.rs:10-30 | integer division by zero faults; i64::MIN / -1 overflows; otherwise the quotient truncates toward zero (its magnitude is the floor of the magnitudes' quotient, and a nonzero quotient is negative exactly when the signs differ) |
| Op.IntArithExact | src/executor/op.rs:10-30 | integer add, sub and mul give the exact mathematical result when it fits in i64, and an overflow fault otherwise |
| Op.BitValues | src/executor/op.rs:32-49 | bitor, bitand and bitxor are defined exactly on integer pairs, give an integer, and any other pair is unreachable |
| Op.XorInvolution | src/executor/op.rs:32-49 | xor with the same integer twice gives back the original i64, negative values included |
| Op.AndAllOnesIdentity | src/executor/op.rs:32-49 | and with -1 leaves every i64 unchanged |
| Op.OrZeroIdentity | src/executor/op.rs:32-49 | or with 0 leaves every i64 unchanged |
| Op.AsU32 | src/executor/op.rs:53-56 | the cast `as u64 as u32` of a non-negative count keeps its low 32 bits: below 2^32 and equal to the count when the count is already below 2^32 |
| Op.CheckedShr | src/executor/op.rs:54 | `checked_shr` succeeds exactly for counts below 64 |
| Op.CheckedShl | src/executor/op.rs:56 | `checked_shl` succeeds exactly for counts below 64 |
| Op.ShrValues | src/executor/op.rs:51-60 | `shr_values` as written succeeds exactly on an integer pair whose count is not i64::MIN (negating that count overflows), and its result is an integer |
| Op.ShlValues | src/executor/op.rs:62-71 | `shl_values` succeeds exactly on an integer pair whose count is not i64::MIN, and its result is an integer |
| Op.ShrIsArithmeticShift | src/executor/op.rs:53-54 | for counts 0..63 the right shift is floor division by 2^n, i.e. an arithmetic shift |
| Op.ShrOverRangeIsZero | src/executor/op.rs:53-57 | for counts from 64 up to 2^32-1 both shifts give 0, whatever the sign of the shifted value |
| Op.ShiftCountTruncated | src/executor/op.rs:53-56 | a non-negative count is reduced modulo 2^32 before shifting, for both shifts |
| Op.NegativeCountReverses | src/executor/op.rs:55-56 | a negative count shifts the other way: shr(l, n) = shl(l, -n) and shl(l, n) = shr(l, -n) |
| Op.ShlKeepsLowBits | src/executor/op.rs:62-71 | a left shift by 0..63 never fails, agrees with l * 2^n modulo 2^64, and equals l * 2^n whenever that fits in i64 |
| Op.ShrCorrected | src/executor/op.rs:51-60 | the corrected right shift accepts exactly the same operands as `shr_values` |
| Op.ShrCorrectedIsFloorDivision | src/executor/op.rs:51-60 | the corrected right shift is floor division by 2^n for every non-negative count, and agrees with `shr_values` for counts below 64 |
| Op.ShrOverRangeDiscrepancy | src/executor/op.rs:53-54 | -157 >> 64 is 0 as written but -1 as floor division; 157 >> (2^32+1) is 78 as written but 0 as floor division |
| Op.CmpValues | src/executor/op.rs:73-118 | a comparison succeeds exactly on numeric pairs, and also on bool pairs for == and !=; its result is a bool |
| Op.EqNeComplementary | src/executor/op.rs:96-118 | == and != accept the same pairs and always give opposite answers, bool pairs included |
| Op.IntOrderingDuality | src/executor/op.rs:73-94 | on integers < is the negation of >=, > is the negation of <=, and a < b is b > a |
| Op.CmpRiValues | src/executor/op.rs:120-139 | the register-immediate comparison succeeds exactly when the lhs is numeric, and gives a bool |
| Op.CmpRiAgreesWithCmp | src/executor/op.rs:120-139 | comparing with an immediate gives the same result as comparing with that integer as a value |
| Op.NegValue | src/executor/op.rs:141-147 | negation succeeds on floats and on every integer but i64::MIN; an integer result is the additive inverse |
| Op.NegNegIdentity | src/executor/op.rs:141-147 | negating an integer twice gives it back, except i64::MIN, which is exactly the one that overflows |
| Bytecode.GetIndex | src/executor/bytecodegen.rs:1057-1063 | `self` is slot 0 and nothing else is; locals occupy 1..1+locals; temporaries lie at or above 1+locals |
| Bytecode.GetIndexInjective | src/executor/bytecodegen.rs:246-248 | distinct in-range registers get distinct slots, all below `total_reg_num` = 1 + locals + reg_num |
| Bytecode.ToBytecode | src/executor/bytecodegen.rs:1065-1152 | lowering succeeds exactly when every instruction lowers, and then yields one `BcOp` per `BcIr`, in order |
| Bytecode.ToBytecodeSucceeds | src/executor/bytecodegen.rs:1065-1152 | with every label bound and every reference in range, lowering succeeds, each `Br` jumps to its label's bound position, and every register index is below the frame size |
| Bytecode.BranchTargetsInRange | src/executor/bytecodegen.rs:1065-1152 | when labels are bound within the IR, every branch of the bytecode targets a position within it |
| Bytecode.FnCallEncoding | src/executor/bytecodegen.rs:1139-1147 | a call without a result register encodes `u16::MAX`; a result register is encoded through `get_index`; the first argument slot is 1 + locals + the argument's temporary |
| Bytecodegen.PushThenPop | src/executor/bytecodegen.rs:272-284 | `push` returns the old `temp`, keeps `temp <= reg_num`, raises `reg_num` only to the new maximum, and a following `pop` restores `temp` and returns the same register |
| Bytecodegen.AddLocalKeepsDense | src/executor/bytecodegen.rs:301-305 | a new name gets the next index 0,1,2,… and the local numbering stays dense |
| Bytecodegen.FindLocalIdempotent | src/executor/bytecodegen.rs:293-298 | `find_local` returns an index of the table, and a second call returns the same index without growing it |
| Bytecodegen.ConstantRoundTrip | src/executor/bytecodegen.rs:256-265 | `get_constant` of the index `new_constant` returned yields the registered literal, and earlier literals stay at their indices |
| Bytecodegen.AddLocalsNumbering | src/executor/bytecodegen.rs:117-126 | registering parameters succeeds exactly when their names are distinct, and numbers them in order |
| Bytecodegen.NewNormalLocals | src/executor/bytecodegen.rs:227-243 | a new normal function succeeds exactly when its parameter names are distinct; its parameters are locals 0..n-1 in order, and its body waits to be compiled |
| Bytecodegen.NewThenApply | src/executor/bytecodegen.rs:192-202 | `new_label` returns the previous label count and leaves it unbound; `apply_label` binds it to the current IR length and leaves every other label as it was |
| Bytecodegen.IfGrows | src/executor/bytecodegen.rs:650-669 | binding the `then` label and then the join label of an `if` keeps the IR consistent and only grows it |
| Bytecodegen.WhileGrows | src/executor/bytecodegen.rs:1036-1053 | binding the loop-head label before the condition and the exit label after the loop keeps the IR consistent and only grows it |
| Bytecodegen.IsSmi | src/executor/bytecodegen.rs:469-476 | `is_smi` gives the value exactly for integer literals that fit in i16 |
| Bytecodegen.ParamNames | src/executor/bytecodegen.rs:726-750 | parameter names are accepted exactly when every parameter is a plain one, and are then listed in order |
| Bytecodegen.BinInstMeaning | src/executor/bytecodegen.rs:955-1034 | the instruction chosen for a binary operator performs that operator and writes the destination register |
| Bytecodegen.BinInstRegs | src/executor/bytecodegen.rs:955-1034 | the instruction chosen for a binary operator names only the registers it was given (no rhs register when the rhs is an immediate) and no label or literal |
| Bytecodegen.Lowered | src/executor/bytecodegen.rs:1065-1152 | IR whose labels are all bound in range lowers, and all its branches stay within the bytecode |
| Bytecodegen.LoweredSlots | src/executor/bytecodegen.rs:1065-1152 | when every register of the IR is in range, every slot of the bytecode lies in the frame, and a final `Ret` stays the final op |
| Bytecodegen.IrContext.constructor | src/executor/bytecodegen.rs:180-185 | a new context has no instructions and no labels |
| Bytecodegen.IrContext.Push | src/executor/bytecodegen.rs:187-189 | appends one instruction and leaves the labels alone |
| Bytecodegen.IrContext.NewLabel | src/executor/bytecodegen.rs:192-196 | returns the previous label count and appends an unbound label |
| Bytecodegen.IrContext.ApplyLabel | src/executor/bytecodegen.rs:199-202 | binds the label to the current IR length and changes nothing else |
| Bytecodegen.NormalFuncInfo.Push | src/executor/bytecodegen.rs:272-279 | is `PushTemp`; with `PushThenPop`, it returns the old `temp` and raises the high-water mark |
| Bytecodegen.NormalFuncInfo.Pop | src/executor/bytecodegen.rs:281-284 | succeeds exactly when `temp` is positive, returns the top register, and panics otherwise with the state unchanged |
| Bytecodegen.NormalFuncInfo.DestReg | src/executor/bytecodegen.rs:307-338 | the destination is the given local, or else a freshly pushed temporary |
| Bytecodegen.NormalFuncInfo.LoadLocal | src/executor/bytecodegen.rs:286-291 | a known name gives its index; an unknown one gives `UndefinedLocal` |
| Bytecodegen.NormalFuncInfo.AddLocal | src/executor/bytecodegen.rs:301-305 | adds the name at the next index, or panics on a duplicate with the table unchanged |
| Bytecodegen.NormalFuncInfo.FindLocal | src/executor/bytecodegen.rs:293-298 | returns the name's index and adds the name first when it is new; the table only grows |
| Bytecodegen.NormalFuncInfo.NewConstant | src/executor/bytecodegen.rs:261-265 | appends the literal and returns its index |
| Bytecodegen.NormalFuncInfo.GenConst | src/executor/bytecodegen.rs:319-326 | registers the literal and emits one `Const` that loads it into the destination |
| Bytecodegen.NormalFuncInfo.GenInteger | src/executor/bytecodegen.rs:307-317 | emits `Integer` exactly when the value fits in i32, and otherwise `Const` of a new literal; a temporary destination pushes once |
| Bytecodegen.NormalFuncInfo.GenNil | src/executor/bytecodegen.rs:332-338 | emits one `Nil` into the destination |
| Bytecodegen.NormalFuncInfo.GenNeg | src/executor/bytecodegen.rs:340-352 | negates a local in place, or the top of the stack in place; it panics exactly when there is no local and the stack is empty |
| Bytecodegen.NormalFuncInfo.GenRet | src/executor/bytecodegen.rs:354-361 | succeeds exactly when the stack is left empty (a local with no temporaries, or exactly one temporary popped) and emits one `Ret` |
| Bytecodegen.NormalFuncInfo.GenTempMov | src/executor/bytecodegen.rs:367-370 | copies the register onto a newly pushed temporary |
| Bytecodegen.NormalFuncInfo.GenTempExpr | src/executor/bytecodegen.rs:523-531 | the value is left in a temporary that is popped again, so `temp` is unchanged for return-free code |
| Bytecodegen.NormalFuncInfo.GenExpr | src/executor/bytecodegen.rs:534-724 | the IR stays consistent and only grows; for return-free code `temp` rises by one when the value is used and is unchanged otherwise; a non-minus unary operator, a multiple assignment that is not one-to-one, `begin` with `rescue` and neither `else` nor `ensure`, and a call with a non-plain argument list panic (the `assert!`s at 562, 591-592, 701 and, through `check_fast_call`, 879-882) and leave the state unchanged |
| Bytecodegen.NormalFuncInfo.GenControl | src/executor/bytecodegen.rs:650-691 | `if`, `while` and `return` keep the same stack discipline as `GenExpr` |
| Bytecodegen.NormalFuncInfo.GenBlock | src/executor/bytecodegen.rs:692-718 | statement blocks, `begin` without `rescue`, `else` or `ensure`, and node kinds reported as unimplemented keep the same stack discipline as `GenExpr` |
| Bytecodegen.NormalFuncInfo.GenDefinition | src/executor/bytecodegen.rs:590-649 | assignments, calls, identifiers and method definitions keep the same stack discipline as `GenExpr` |
| Bytecodegen.NormalFuncInfo.GenValueExpr | src/executor/bytecodegen.rs:552-610 | literals, negation, binary operations and locals leave one temporary when the value is used and none otherwise, the unused value being popped again |
| Bytecodegen.NormalFuncInfo.GenValue | src/executor/bytecodegen.rs:552-610 | an expression compiled for its value leaves exactly one more temporary |
| Bytecodegen.NormalFuncInfo.GenNegExpr | src/executor/bytecodegen.rs:561-571 | a negation leaves one more temporary: the operand's value, negated in place |
| Bytecodegen.NormalFuncInfo.GenCall | src/executor/bytecodegen.rs:626-639 | the last instruction is `FnCall` with the arguments starting at the old `temp` and with a result register exactly when the value is used |
| Bytecodegen.NormalFuncInfo.CheckFastCallInner | src/executor/bytecodegen.rs:886-896 | the arguments start at the old `temp`, their count is the argument count, they lie below `reg_num`, and they are popped again |
| Bytecodegen.NormalFuncInfo.GenArgs | src/executor/bytecodegen.rs:860-871 | each argument pushes exactly one temporary, starting at the old `temp` |
| Bytecodegen.NormalFuncInfo.GenCompStmts | src/executor/bytecodegen.rs:497-521 | all but the last statement leave nothing; the last gives the value (or is stored into the given local) |
| Bytecodegen.NormalFuncInfo.GenStmts | src/executor/bytecodegen.rs:497-521 | statements compiled for effect leave `temp` unchanged |
| Bytecodegen.NormalFuncInfo.GenIf | src/executor/bytecodegen.rs:650-669 | an `if` leaves one temporary when used and none otherwise, whichever branch is taken |
| Bytecodegen.NormalFuncInfo.GenIfArms | src/executor/bytecodegen.rs:657-666 | the condition, the `else` part and the `then` part together leave one temporary when used; the IR grows with the `then` label bound in between |
| Bytecodegen.NormalFuncInfo.GenThen | src/executor/bytecodegen.rs:665-666 | the `then` part starts at the bound `then` label |
| Bytecodegen.NormalFuncInfo.GenCondElse | src/executor/bytecodegen.rs:657-664 | the condition and the `else` part together leave `temp` unchanged |
| Bytecodegen.NormalFuncInfo.GenCondBr | src/executor/bytecodegen.rs:652-655 | the condition is popped into the conditional branch, so `temp` is unchanged |
| Bytecodegen.NormalFuncInfo.GenJumpOver | src/executor/bytecodegen.rs:656-664 | the `else` value is dropped again before the jump to the join label, so the net effect is zero |
| Bytecodegen.NormalFuncInfo.GenWhile | src/executor/bytecodegen.rs:670-681 | a `while` leaves one temporary when its value is used and none otherwise |
| Bytecodegen.NormalFuncInfo.GenWhileLoop | src/executor/bytecodegen.rs:1036-1053 | the loop leaves `temp` unchanged |
| Bytecodegen.NormalFuncInfo.GenLoop | src/executor/bytecodegen.rs:1040-1052 | the condition, the exit branch, the body and the back jump leave `temp` unchanged |
| Bytecodegen.NormalFuncInfo.GenReturn | src/executor/bytecodegen.rs:682-691 | a successful `return` empties the stack and ends with a `Ret` |
| Bytecodegen.NormalFuncInfo.GenMethodDef | src/executor/bytecodegen.rs:726-750 | registers the body as the next function with its parameters as locals and emits `MethodDef` for it; non-plain parameters give `Unimplemented`, a repeated name panics |
| Bytecodegen.NormalFuncInfo.GenStoreExpr | src/executor/bytecodegen.rs:752-858 | storing into a local keeps the stack discipline: one more temporary when the value is used; a non-minus unary operator, a multiple assignment that is not one-to-one, or a call with a non-plain argument list panics unchanged (the `assert!`s at 771, 800-801 and 879-882) |
| Bytecodegen.NormalFuncInfo.GenStoreValue | src/executor/bytecodegen.rs:761-839 | an expression stored directly ends with an instruction that writes the local, leaving `temp` unchanged |
| Bytecodegen.NormalFuncInfo.GenStoreLeaf | src/executor/bytecodegen.rs:761-769 | a literal, `self` or a local is written to the local in one instruction |
| Bytecodegen.NormalFuncInfo.GenStoreLiteral | src/executor/bytecodegen.rs:761-769 | a literal is written straight into the local without touching the stack |
| Bytecodegen.NormalFuncInfo.GenStoreArith | src/executor/bytecodegen.rs:770-798 | a negation or binary operation writes its result into the local |
| Bytecodegen.NormalFuncInfo.GenStoreNested | src/executor/bytecodegen.rs:799-839 | a nested assignment or a call writes its result into the local |
| Bytecodegen.NormalFuncInfo.GenStoreNeg | src/executor/bytecodegen.rs:770-780 | a negation's operand is computed into the local and negated there |
| Bytecodegen.NormalFuncInfo.GenStoreMulAssign | src/executor/bytecodegen.rs:799-816 | `a = b = v` stores v into b and then copies b into a |
| Bytecodegen.NormalFuncInfo.GenStoreCopy | src/executor/bytecodegen.rs:799-816 | the last instruction copies the inner local into the target local |
| Bytecodegen.NormalFuncInfo.GenStoreCall | src/executor/bytecodegen.rs:821-839 | a call's result register is the local itself |
| Bytecodegen.NormalFuncInfo.GenStoreOther | src/executor/bytecodegen.rs:841-856 | any other expression is computed on the stack and copied into the local; `begin` with `rescue` and neither `else` nor `ensure` panics through `gen_expr` with the state unchanged |
| Bytecodegen.NormalFuncInfo.CopyTemp | src/executor/bytecodegen.rs:854-856 | copies the top temporary into the local, popping it unless the value is used; it panics exactly when an unused value meets an empty stack |
| Bytecodegen.NormalFuncInfo.GenBinOp | src/executor/bytecodegen.rs:572-589 | the last instruction is the one chosen for the operator, and it writes the given local or the new top temporary |
| Bytecodegen.NormalFuncInfo.GenBinary | src/executor/bytecodegen.rs:898-935 | the destination is the local or the new top temporary, and all three registers are in range |
| Bytecodegen.NormalFuncInfo.GenOperands | src/executor/bytecodegen.rs:898-935 | the operands of a binary operation come back as in-range registers with the stack as before |
| Bytecodegen.NormalFuncInfo.GenOneLocal | src/executor/bytecodegen.rs:905-926 | when exactly one operand is a local, it is used directly and the other comes from a temporary, in the original order |
| Bytecodegen.NormalFuncInfo.GenPair | src/executor/bytecodegen.rs:923-924 | the lhs and then the rhs are evaluated onto the stack, two temporaries more than before |
| Bytecodegen.NormalFuncInfo.GenTwoTemps | src/executor/bytecodegen.rs:922-928 | both operands are pushed and popped again, so the stack is as before |
| Bytecodegen.NormalFuncInfo.GenSingular | src/executor/bytecodegen.rs:937-953 | the one-operand form writes the local or the new top temporary, with in-range registers |
| Bytecodegen.NormalFuncInfo.CompileAst | src/executor/bytecodegen.rs:487-495 | compiling takes the AST (a missing AST panics), gives well-formed IR with all labels bound, and for a return-free body starting with an empty stack ends with `Ret` and an empty stack |
| Bytecodegen.NormalFuncInfo.IrToBytecode | src/executor/bytecodegen.rs:1065-1155 | the loop stores exactly `ToBytecode` of the IR and fails when it does |
| Bytecodegen.FnStore.constructor | src/executor/bytecodegen.rs:27-32 | a new store has no functions and no names |
| Bytecodegen.FnStore.AddBuiltinFunc | src/executor/bytecodegen.rs:83-94 | the new function's id is the number of stored functions (`next_func_id`), it is appended there, and its name maps to that id |
| Bytecodegen.FnStore.PushNormal | src/executor/bytecodegen.rs:104-126 | a normal function is appended under the next id with its parameters and its body awaiting compilation; a repeated parameter fails and leaves the store unchanged |
| Bytecodegen.FnStore.CompileFunc | src/executor/bytecodegen.rs:75-81 | compiling one function replaces only that entry, keeps ids dense, appends only functions that still await compilation, and strictly decreases the amount of uncompiled AST |
| Bytecodegen.FnStore.CompileData | src/executor/bytecodegen.rs:75-81 | the compiled function keeps its id, name and parameters, its branches stay within its bytecode, and a return-free body ends with `Ret` |
| Bytecodegen.FnStore.CompileMain | src/executor/bytecodegen.rs:60-72 | the top level is registered under the next id as `main`, earlier functions are untouched, and when it succeeds every function from there on is compiled |
| Hir.AsI | src/hir.rs:103-108 | `as_i` gives the integer exactly for integer constants |
| Hir.AsF | src/hir.rs:110-115 | `as_f` gives the float exactly for float constants |
| Hir.DefinitionsPrecedeUses | src/hir.rs:368-553 | in well-formed HIR each register is defined by one instruction, and every register any instruction reads is defined by an earlier one and has the type the instruction's kind expects (integer for the integer operations and the conversion, float for the float operations) |
| Hir.HirContext.constructor | src/hir.rs:238-243 | a new context has no instructions and no registers |
| Hir.HirContext.RegisterNum | src/hir.rs:252-254 | the number of registers equals the number of instructions that define one |
| Hir.HirContext.AddAssign | src/hir.rs:245-258 | the new register is the old register count; the instruction and its type each grow their lists by one; well-formed input stays well formed |
| Hir.HirContext.NewInteger | src/hir.rs:260-262 | appends an integer constant whose register has type Integer |
| Hir.HirContext.NewFloat | src/hir.rs:264-266 | appends a float constant whose register has type Float |
| Hir.HirContext.NewAsFloat | src/hir.rs:268-277 | converts an Integer register into a new Float register |
| Hir.HirContext.NewAsFloatImm | src/hir.rs:279-288 | converts an integer immediate into a new Float register |
| Hir.HirContext.NewINeg | src/hir.rs:290-299 | an integer negation defines an Integer register from an Integer operand |
| Hir.HirContext.NewFNeg | src/hir.rs:301-310 | a float negation defines a Float register from a Float operand |
| Hir.HirContext.NewIArith2 | src/hir.rs:312-325 | `IAdd`/`ISub` define an Integer register from two Integer operands |
| Hir.HirContext.NewIArith | src/hir.rs:332-345 | `IMul`/`IDiv` define an Integer register from two Integer registers |
| Hir.HirContext.NewFArith | src/hir.rs:317-350 | the float operations define a Float register from two Float operands |
| Hir.HirContext.NewRet | src/hir.rs:352-355 | appends the return without defining a register |
| Hir.HirContext.Gen | src/hir.rs:368-553 | succeeds exactly unless i32::MIN is negated; then the HIR stays well formed (never mixing integer and float operands), the result is the newest register, its type is Float exactly when the expression contains a float literal, and a negated literal folds into one constant |
| Hir.HirContext.GenAddSub | src/hir.rs:384-511 | addition and subtraction have type Float exactly when either side contains a float, with integer sides converted first |
| Hir.HirContext.GenIntLhs | src/hir.rs:385-403 | an integer-literal lhs stays an immediate against an integer rhs and is converted against a float one |
| Hir.HirContext.GenIntReg | src/hir.rs:392-403 | an integer immediate meeting a compiled rhs takes the rhs register's type |
| Hir.HirContext.GenFloatLhs | src/hir.rs:404-423 | a float-literal lhs always gives a Float result, converting an integer rhs first |
| Hir.HirContext.GenFloatReg | src/hir.rs:412-423 | a float immediate meeting a compiled rhs gives a Float register |
| Hir.HirContext.GenMixed | src/hir.rs:424-445 | two compiled sides give Float exactly when either is Float, converting the integer side |
| Hir.HirContext.GenMulDiv | src/hir.rs:512-551 | multiplication and division have type Float exactly when either side contains a float |
| Hir.HirContext.FromAst | src/hir.rs:360-365 | the HIR is complete: well-formed instructions followed by exactly one `Ret` naming the result register, with no new register, and the result type is returned |
| McIr.Apply | src/mcir.rs:377-384 | after `apply` the register is owned by the given SSA register |
| McIr.Invalidate | src/mcir.rs:377-384 | after `invalidate` the register is free |
| McIr.FirstFree | src/mcir.rs:281-296 | the index found is the lowest free register, or the register count when all are taken |
| McIr.Start | src/mcir.rs:164 | `ssa_map` has one empty entry per HIR register |
| McIr.AllocGEffect | src/mcir.rs:281-296 | `alloc_greg` takes the lowest free general register, or appends one (growing by at most one); the SSA register now owns it and maps to it; nothing else changes |
| McIr.AllocFEffect | src/mcir.rs:299-314 | `alloc_freg` follows the same first-fit and append rule for float registers |
| McIr.RegRegIntEffect | src/mcir.rs:187-223 | register–register `IAdd`/`ISub`: the result maps to the lhs register, the rhs register becomes free, and one two-address instruction is emitted |
| McIr.RegRegMulDivEffect | src/mcir.rs:247-260 | the same for `IMul` and `IDiv` |
| McIr.RegRegFloatEffect | src/mcir.rs:110-116 | the same for the float operations |
| McIr.ConstLhsIntEffect | src/mcir.rs:201-215 | with a constant lhs, a fresh register is allocated for the result and loaded with the constant before the operation |
| McIr.ConstLhsFloatEffect | src/mcir.rs:125-139 | the float counterpart: load the constant into a fresh register, then operate |
| McIr.RetEffect | src/mcir.rs:265-274 | `Ret` emits `IRet` for an Integer register and `FRet` for a Float one, through its mapped register, and changes no mapping |
| McIr.StepIArith2Mapped | src/mcir.rs:187-246 | well-typed `IAdd`/`ISub` lower without panicking and map their result to a general register |
| McIr.StepFArithMapped | src/mcir.rs:261-264 | well-typed float operations lower without panicking and map their result to a float register |
| McIr.StepIntAsFloatMapped | src/mcir.rs:175-186 | a well-typed conversion lowers without panicking and maps its result to a float register |
| McIr.StepNegMapped | src/mcir.rs:275 | the corrected lowering of `INeg`/`FNeg` maps the result to the operand's register |
| McIr.StepFixedMapped | src/mcir.rs:163-278 | with the correction, every well-typed instruction lowers and keeps every defined SSA register mapped to a register of its type |
| McIr.RunFixedSucceeds | src/mcir.rs:163-278 | with the correction, every complete HIR lowers without panicking and ends with `IRet` or `FRet` as its result type says |
| McIr.RunAgreesWithoutNeg | src/mcir.rs:275 | on HIR without negations, `from_hir` as written and the corrected lowering agree |
| McIr.RunSucceedsWithoutNeg | src/mcir.rs:163-278 | `from_hir` as written does not panic on complete HIR without negations |
| McIr.NegOfSumPanics | src/mcir.rs:265-275 | the complete HIR of `-(1 + 2)` panics as written, because the `INeg` is skipped and its register never mapped; the corrected lowering returns through the sum's register |
| McIr.PanicPropagates | src/mcir.rs:165-276 | once a prefix of the HIR panics, the whole lowering does |
| McIr.MachineIrContext.constructor | src/mcir.rs:146-153 | a new context has no instructions, registers or mappings |
| McIr.MachineIrContext.GRegNum | src/mcir.rs:155-157 | the number of general registers in use so far |
| McIr.MachineIrContext.FRegNum | src/mcir.rs:159-161 | the number of float registers in use so far |
| McIr.MachineIrContext.AllocGReg | src/mcir.rs:281-296 | returns the lowest free general register and grows the table by at most one, as `AllocGEffect` describes |
| McIr.MachineIrContext.AllocFReg | src/mcir.rs:299-314 | returns the lowest free float register and grows the table by at most one |
| McIr.MachineIrContext.Push | src/mcir.rs:167-274 | appends one machine instruction |
| McIr.MachineIrContext.Map | src/mcir.rs:167-274 | sets one `ssa_map` entry; an index out of range panics |
| McIr.MachineIrContext.FreeG | src/mcir.rs:188-193 | frees a general register; out of range panics |
| McIr.MachineIrContext.FreeF | src/mcir.rs:110-116 | frees a float register; out of range panics |
| McIr.MachineIrContext.LowerIArith2 | src/mcir.rs:187-246 | the `IAdd`/`ISub` arms, with the effects `RegRegIntEffect` and `ConstLhsIntEffect` describe |
| McIr.MachineIrContext.LowerFArith | src/mcir.rs:261-264 | the float arms, with the effects `RegRegFloatEffect` and `ConstLhsFloatEffect` describe |
| McIr.MachineIrContext.LowerIArith | src/mcir.rs:247-260 | the `IMul`/`IDiv` arms, with the effect `RegRegMulDivEffect` describes |
| McIr.MachineIrContext.LowerIntAsFloat | src/mcir.rs:175-186 | the conversion arm: a fresh float register receives the converted value |
| McIr.MachineIrContext.LowerInst | src/mcir.rs:166-276 | one iteration of the `from_hir` loop, including the skipped `INeg`/`FNeg` |
| McIr.MachineIrContext.FromHir | src/mcir.rs:163-278 | the loop computes exactly `Run` from a map sized to the HIR's registers, and panics when it does |
| Codegen.GPhysReg | src/codegen.rs:57-64 | general registers 0–4 are r8–r12; the others are 8-aligned stack slots above the locals |
| Codegen.FPhysReg | src/codegen.rs:71-78 | float registers 0–14 are xmm1–xmm15; the others are 8-aligned stack slots above the general spills |
| Codegen.PhysRegsInjective | src/codegen.rs:57-78 | distinct virtual registers never share a physical register or a stack slot |
| Codegen.FrameBytes | src/codegen.rs:972-982 | the reserved frame is 16-byte aligned, at least 8 bytes per slot and less than 16 bytes more, and empty exactly when there are no slots |
| Codegen.GSpillSlotInFrame | src/codegen.rs:372-385 | every general spill slot (registers past r12) lies above the local slots and within the frame `prologue` reserves, whether or not any float register spills |
| Codegen.FSpillSlotInFrame | src/codegen.rs:376-385 | every float spill slot (registers past xmm15) lies above the local slots and within the reserved frame, whether or not any general register spills |
| Codegen.SpillAreasDisjoint | src/codegen.rs:380-382 | when both kinds spill, every float spill slot lies strictly above every general spill slot |
| Codegen.IntCond | src/codegen.rs:80-170 | integer comparisons use the signed condition codes, with equal/not-equal shared |
| Codegen.FloatCond | src/codegen.rs:103-216 | float comparisons use the unsigned (above/below) condition codes, with equal/not-equal shared |
| Codegen.IntCondIsSignedCompare | src/codegen.rs:80-102 | after `cmp`, the chosen integer condition holds exactly when the signed comparison is true |
| Codegen.FloatCondIsOrderedCompare | src/codegen.rs:103-125 | after `ucomisd`, the chosen float condition holds exactly when the ordered comparison is true |
| Codegen.ConditionsNotInterchangeable | src/codegen.rs:80-125 | swapping the two tables gives a wrong answer for `<`, so the signed/unsigned choice matters |
| Codegen.PrologueCode | src/codegen.rs:972-982 | the prologue saves and sets `rbp`, then reserves the aligned frame only when there are slots |
| Codegen.JmpFallThrough | src/codegen.rs:846-853 | a `Jmp` to the next block emits nothing; any other emits one jump to its label |
| Codegen.RetTypeChecked | src/codegen.rs:690-744 | a return fails exactly when its type differs from the function's return type, and otherwise ends with the epilogue |
| Codegen.CompiledRetsAgree | src/codegen.rs:690-744 | in a block that compiles, every return has the function's return type |
| Codegen.CompiledJmpCount | src/codegen.rs:846-853 | a compiled block has exactly one jump per `Jmp` that does not fall through |
| Codegen.LowerInstJmpCount | src/codegen.rs:846-853 | one instruction emits a jump exactly when it is a `Jmp` that does not fall through |
| Codegen.CompileFuncOffsets | src/codegen.rs:369-390 | `compile_func` sets `g_offset` to the locals count and `f_offset` above the general spills, keeps the code so far, emits the prologue and binds the function's label |
| Codegen.BbsKeep | src/codegen.rs:387-389 | compiling blocks keeps the offsets, the earlier code and the bound labels |
| Codegen.LowerInstsPanicPropagates | src/codegen.rs:396 | a fatal error in a block's prefix fails the whole block |
| Codegen.BbsPanicPropagates | src/codegen.rs:387-389 | a fatal error in an earlier block fails the function |
| Codegen.FuncsPanicPropagates | src/codegen.rs:324-326 | a fatal error in an earlier function fails the program |
| Codegen.Codegen.constructor | src/codegen.rs:42-50 | a new generator has no code, no labels and zero offsets |
| Codegen.Codegen.NewLabel | src/codegen.rs:316-322 | a fresh label distinct from all earlier ones, changing nothing else |
| Codegen.Codegen.Emit | src/codegen.rs:392-944 | appends code and changes nothing else |
| Codegen.Codegen.CompileBb | src/codegen.rs:392-944 | binds the block's label and emits exactly the lowered instructions, failing when a return has the wrong type |
| Codegen.Codegen.EmitInsts | src/codegen.rs:396 | the loop emits exactly `LowerInsts` of the block |
| Codegen.Codegen.CompileFunc | src/codegen.rs:369-390 | computes exactly `CompileFuncSpec`; see `CompileFuncOffsets` |
| Codegen.Codegen.CompileBbs | src/codegen.rs:387-389 | the loop over the blocks computes exactly `CompileBbsSpec` |
| Codegen.Codegen.CompileAll | src/codegen.rs:315-367 | one fresh label per block and then per function, in order, then every function compiled; a program without functions fails |
| Eval.ArithValues | src/eval.rs:146-189 | integer pairs give an integer unless the i32 operation fails; any pair with a float gives a float; other kinds fail |
| Eval.IntArithExact | src/eval.rs:146-189 | i32 add, sub and mul are exact or overflow; division fails exactly on 0 and i32::MIN / -1 and otherwise truncates toward zero: the magnitude is the floor of the magnitudes' quotient and a nonzero quotient is negative exactly when the signs differ |
| Eval.CompareValues | src/eval.rs:190-201 | comparisons are defined exactly on numeric pairs and are the mathematical comparison on integers |
| Eval.NegValue | src/eval.rs:138-145 | negation succeeds on floats and on every i32 but i32::MIN, giving the additive inverse |
| Eval.FindPhi | src/eval.rs:246-249 | the register paired with the first entry for the block, or none when no entry names it |
| Eval.InitFrame | src/eval.rs:100-111 | the frame exists exactly when the arguments fit in the locals; locals are the arguments then `nil`, registers are `nil`, execution starts at the entry block with `prev_bb` 0 and `pc` 0 |
| Eval.Jump | src/eval.rs:278-282 | `goto` sets `prev_bb` to the old `cur_bb`, `cur_bb` to the target and `pc` to 0, keeping registers and locals |
| Eval.CallArgs | src/eval.rs:226-234 | the arguments are every operand's value, in order, and fail when any operand does |
| Eval.CondBrTruthiness | src/eval.rs:238-245 | only `false` takes the else branch; every other value, `nil` included, takes the then branch |
| Eval.PhiSelectsPredecessor | src/eval.rs:246-249 | `Phi` copies the register paired with the block execution came from |
| Eval.LocalStoreEffect | src/eval.rs:217-222 | `LocalStore` writes the local and, when present, the result register with the same value; nothing else changes |
| Eval.IntArithStaysInt | src/eval.rs:146-150 | integer operands give an integer result, or a panic exactly when the i32 operation fails |
| Eval.FuncContext.constructor | src/eval.rs:255-261 | the context holds the given frame |
| Eval.FuncContext.Goto | src/eval.rs:278-282 | moves to the block as `Jump` does |
| Eval.FuncContext.Set | src/eval.rs:271-275 | writes one register; out of range panics and leaves the frame alone |
| Eval.Evaluator.constructor | src/eval.rs:31-38 | no JIT decision has been taken |
| Eval.Evaluator.EvalFunction | src/eval.rs:80-98 | a recorded success runs the compiled code without compiling again; the first call records the outcome of one compilation attempt, and no function is ever attempted twice; decisions already taken never change |
| Eval.Evaluator.RunFrame | src/eval.rs:112-119 | the interpreter loop keeps every recorded decision and only adds compilation attempts |
| Eval.Evaluator.Eval | src/eval.rs:122-252 | every instruction but `Call` is exactly `Step` and touches no JIT state; a `Call` panics unchanged when an argument cannot be evaluated; without a result register it does not call; with one, success changes only that register, and when the callee has already compiled, or compiles on this first call, the value written is the native run's result |
| Eval.Evaluator.EvalStep | src/eval.rs:129-249 | performs exactly `Step` on the frame |
| Eval.Evaluator.EvalValue | src/eval.rs:129-201 | the value-computing arms perform exactly `Step` |
| Eval.Evaluator.EvalControl | src/eval.rs:202-249 | the control arms perform exactly `Step` |
| Eval.Evaluator.EvalCall | src/eval.rs:226-234 | every JIT decision already taken is kept; without a result register the callee is not invoked, the frame and JIT state are unchanged, and it panics exactly when an argument cannot be evaluated; with a result register, success writes only that register and any other outcome leaves the frame unchanged, and when the callee has already compiled, or compiles on this call, the call succeeds exactly when the register is in range and writes the native run's result |

## Left out

- Parsing and the AST types: the parser lies outside the model. The node
  kinds the generator reads are an abstract datatype.
- The AST kinds, operators and parameter kinds the generator reports as
  unimplemented are one constructor each. The shapes it refuses with
  `assert!` have their own constructors and panic:
  - a unary operator other than minus;
  - a multiple assignment that is not one-to-one;
  - `begin` with a `rescue` clause and neither `else` nor `ensure`;
  - a call with keyword arguments, a hash splat, a block or delegation
    (`check_fast_call`, src/executor/bytecodegen.rs:879-882).

  A `begin` with `else` or `ensure` is reported as unimplemented. The
  operands of these shapes are not kept, because the assertion fires
  before any of them is compiled.
- A method call on `self` is the same node as a function call.
- The `Value` encoding (`Value::integer`, `unpack`, bignum promotion):
  values are abstract datatypes.
- Float semantics: floats are opaque, and float arithmetic and comparison
  come from a parameter. Conversions such as `cvtsi2sd` and `ucomisd` are
  not modelled beyond the flags they set.
- Op.BinopValues: covers only the integer results. Float results are
  whatever the float parameter returns.
- Bytecodegen.NormalFuncInfo.GenExpr: the net effect on `temp` is stated
  only for code without `return`. A `return` nested in an expression
  leaves the stack in a state the source does not balance. For example,
  `(if c then return 1 else 2 end) + 3` pops an empty stack. The model
  panics there, as the source does.
- Bytecodegen.NormalFuncInfo.GenExpr: on the error path the state is left
  unspecified, because the source abandons compilation there.
- u16 limits: `temp`, `reg_num`, the local count and register indices are
  unbounded. Their u16 overflow is not modelled.
- Termination of `compile_main` is proved by a weight, the total size of
  AST still to compile. This weight is a proof device, not state of the
  source.
- `dump`, `dump_code`, `eprintln!` diagnostics and every other printing
  or file I/O.
- Machine-code bytes: the `monoasm!` bodies, `JitMemory`, `finalize`,
  `get_label_addr` and calling emitted code. Instruction lowering is
  modelled only as far as jumps, returns and the prologue and epilogue.
- `Evaluator::jit_compile` and `Codegen::run` are parameters. They call
  into compilers and native code.
- `FuncInfo::jit_label` is not part of this model. It is always `None` in these files.
- `while` is modelled only in its condition-first form. The source asserts `cond_op` for every `while` it compiles.
- Eval.Evaluator.RunFrame: the interpreter loop and call depth are bounded
  by a fuel parameter, since a source program need not terminate. Running
  out of fuel is a separate outcome.
- Eval.Evaluator.RunFrame: states only JIT-memo facts about the whole
  loop. Each step's effect is stated on `Eval`, with one gap. When a
  called function is interpreted because its compilation failed, `Eval`
  states only that the result register alone changes, not the value
  written, because that value is the result of the loop.
- Codegen.FloatCondIsOrderedCompare: only ordered outcomes of `ucomisd`
  are modelled. With a NaN operand `ucomisd` sets ZF and CF, so the
  emitted `==`, `<` and `<=` jumps are taken. Rust's `f64` comparisons
  in src/eval.rs:194-199 return false there. Unordered comparisons are
  not modelled.
- `src/executor/interp.rs`: the pointer arithmetic and transmutes of the
  bytecode interpreter.
- `src/main.rs`: the command line and the REPL.
- Inline caches, deoptimisation and invocation-count promotion: no code
  for them exists in these files.
- JIT compilation is attempted on a function's first call. The code has
  no invocation threshold.
- i64 arithmetic overflow is a debug-build panic. The code does not
  promote to bignum.
- The equivalence of interpreted and compiled results is not stated,
  because the machine code itself is not modelled.
- The comment on `GeneralPhysReg` (src/codegen.rs:11-16) mentions r8–r11,
  but the mapping uses r8–r12. `Codegen.GPhysReg` follows the code.

## Findings

| source | as written | input that shows it | evidently intended | confidence | as-written member | corrected member |
|---|---|---|---|---|---|---|
| src/executor/op.rs:51-60 | a right shift by a count of 64 or more gives 0 (`unwrap_or(0)`), and a non-negative count is first cut to its low 32 bits | `-157 >> 64` gives 0, and `157 >> (2**32 + 1)` gives 78 | Ruby's `>>` is floor division by 2^n: -1 for any negative value shifted by 64 or more, and 0 for a non-negative one | not executed | Op.ShrOverRangeDiscrepancy | Op.ShrCorrectedIsFloorDivision |
| src/mcir.rs:275 | `from_hir` skips `INeg` and `FNeg` (`_ => {}`), so their result register is never mapped and the `unwrap` in the `Ret` arm panics | the HIR of `-(1 + 2)`: an `IAdd`, an `INeg` of it, and a `Ret` | negate the operand's register in place (`McIR::INeg`/`FNeg` exist and the code generator handles them) and map the result to it | not executed | McIr.NegOfSumPanics | McIr.RunFixedSucceeds |
