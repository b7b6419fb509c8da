/** The runtime helpers the bytecode interpreter calls for arithmetic,
    bitwise, shift, comparison and negation on boxed values
    (src/executor/op.rs). Integers are 64-bit and overflow is a panic, as in
    a debug build of the Rust source; floats are opaque and their
    arithmetic comes from an `Fpu`. */
module Op {
  import opened Base

  /** The unpacked runtime value as the helpers see it. */
  datatype Value = Integer(i: Int64) | Float(f: F64) | Bool(b: bool) | Nil

  /** Why a helper did not produce a value: an `unreachable!()` arm, an
      arithmetic overflow or a division by zero (both panic in Rust). */
  datatype Fault = Unreachable | Overflow | DivideByZero

  datatype Outcome = Ok(v: Value) | Fault(fault: Fault)

  datatype ArithOp = Add | Sub | Mul | Div
  datatype BitOp = BitOr | BitAnd | BitXor

  // ---------------------------------------------------------------------
  // add / sub / mul / div
  // ---------------------------------------------------------------------

  /** Rust's checked 64-bit integer operation: `None` stands for the panic
      that a debug build raises. */
  function IntArith(op: ArithOp, a: Int64, b: Int64): (r: Result64)
    ensures r.Value? ==> InI64(r.value)
    ensures op == Div && b == 0 <==> r == DivZero
  {
    match op
    case Add => Fit(a + b)
    case Sub => Fit(a - b)
    case Mul => Fit(a * b)
    case Div => if b == 0 then DivZero else Fit(TruncDiv(a, b))
  }

  datatype Result64 = Value(value: int) | Overflowed | DivZero

  function Fit(x: int): (r: Result64)
    ensures r.Value? <==> InI64(x)
    ensures r.Value? ==> r.value == x
    ensures !r.DivZero?
  {
    if InI64(x) then Value(x) else Overflowed
  }

  function FloatArith(fpu: Fpu, op: ArithOp, a: F64, b: F64): F64
  {
    match op
    case Add => fpu.add(a, b)
    case Sub => fpu.sub(a, b)
    case Mul => fpu.mul(a, b)
    case Div => fpu.div(a, b)
  }

  /** `add_values`, `sub_values`, `mul_values`, `div_values`: integer pairs
      stay integer, a mixed pair converts the integer side to float, and any
      other pair is unreachable. */
  function BinopValues(fpu: Fpu, op: ArithOp, lhs: Value, rhs: Value): (r: Outcome)
    ensures r.Ok? <==> (lhs.Integer? || lhs.Float?) && (rhs.Integer? || rhs.Float?)
                       && !(lhs.Integer? && rhs.Integer? && !IntArith(op, lhs.i, rhs.i).Value?)
    ensures r.Ok? ==> (r.v.Integer? <==> lhs.Integer? && rhs.Integer?)
  {
    match (lhs, rhs)
    case (Integer(a), Integer(b)) =>
      (match IntArith(op, a, b)
       case Value(x) => Ok(Integer(x))
       case Overflowed => Fault(Overflow)
       case DivZero => Fault(DivideByZero))
    case (Integer(a), Float(b)) => Ok(Float(FloatArith(fpu, op, fpu.fromInt(a), b)))
    case (Float(a), Integer(b)) => Ok(Float(FloatArith(fpu, op, a, fpu.fromInt(b))))
    case (Float(a), Float(b)) => Ok(Float(FloatArith(fpu, op, a, b)))
    case _ => Fault(Unreachable)
  }

  /** Integer `/` on two integers truncates toward zero: the quotient's
      magnitude is the floor of |a|/|b|, a nonzero quotient is negative
      exactly when the signs differ, and division by zero is a fault rather than a value. */
  lemma IntDivTruncates(fpu: Fpu, a: Int64, b: Int64)
    ensures b == 0 ==> BinopValues(fpu, Div, Integer(a), Integer(b)) == Fault(DivideByZero)
    ensures b != 0 && !(a == I64_MIN && b == -1) ==>
      var r := BinopValues(fpu, Div, Integer(a), Integer(b));
      r.Ok? && r.v.Integer? &&
      Abs(r.v.i) * Abs(b) <= Abs(a) < (Abs(r.v.i) + 1) * Abs(b) &&
      (r.v.i < 0 ==> (a < 0) != (b < 0)) && (r.v.i > 0 ==> (a < 0) == (b < 0))
    ensures b == -1 && a == I64_MIN ==>
      BinopValues(fpu, Div, Integer(a), Integer(b)) == Fault(Overflow)
  {
    if b != 0 && !(a == I64_MIN && b == -1) {
      TruncDivBrackets(a, b);
      TruncDivFits(a, b);
    }
    if b == -1 && a == I64_MIN {
      assert TruncDiv(a, b) == 0x8000_0000_0000_0000;
    }
  }

  /** Only i64::MIN / -1 leaves the i64 range. */
  lemma TruncDivFits(a: Int64, b: Int64)
    requires b != 0 && !(a == I64_MIN && b == -1)
    ensures InI64(TruncDiv(a, b))
  {
    var q := TruncDiv(a, b);
    TruncDivBrackets(a, b);
    if Abs(b) == 1 {
      assert q == a || q == -a;
    } else {
      assert Abs(q) * 2 <= Abs(q) * Abs(b) by {
        MulMonotone2(Abs(q), 2, Abs(b));
      }
    }
  }

  /** Integer add, sub and mul are exact while the result fits in i64 and
      overflow otherwise. */
  lemma IntArithExact(fpu: Fpu, op: ArithOp, a: Int64, b: Int64)
    requires op != Div
    ensures var exact := match op
                         case Add => a + b
                         case Sub => a - b
                         case Mul => a * b
                         case Div => 0;
            BinopValues(fpu, op, Integer(a), Integer(b))
              == (if InI64(exact) then Ok(Integer(exact)) else Fault(Overflow))
  {
  }

  // ---------------------------------------------------------------------
  // Bitwise operations, in two's complement
  // ---------------------------------------------------------------------

  /** The low 64 bits of an i64 read as an unsigned number. */
  function Unsigned64(x: Int64): (u: nat)
    ensures u < U64_LIMIT
    ensures x >= 0 ==> u == x
  {
    x % U64_LIMIT
  }

  /** The i64 whose low 64 bits are u. */
  function Signed64(u: nat): (x: Int64)
    requires u < U64_LIMIT
    ensures Unsigned64(x) == u
  {
    if u <= I64_MAX then u else u - U64_LIMIT
  }

  function BitOf(op: BitOp, x: nat, y: nat): (r: nat)
    ensures r <= 1
  {
    match op
    case BitOr => if x == 1 || y == 1 then 1 else 0
    case BitAnd => if x == 1 && y == 1 then 1 else 0
    case BitXor => if x != y then 1 else 0
  }

  /** The operation applied bit by bit to the low n bits of a and b. */
  function Bits(op: BitOp, a: nat, b: nat, n: nat): (r: nat)
    ensures r < Pow2(n)
  {
    if n == 0 then 0
    else BitOf(op, a % 2, b % 2) + 2 * Bits(op, a / 2, b / 2, n - 1)
  }

  /** The 64-bit two's-complement bitwise operation on two i64. */
  function BitInt(op: BitOp, a: Int64, b: Int64): Int64
  {
    Pow2Of63And64();
    Signed64(Bits(op, Unsigned64(a), Unsigned64(b), 64))
  }

  /** `bitor_values`, `bitand_values`, `bitxor_values`: defined on integer
      pairs only. */
  function BitValues(op: BitOp, lhs: Value, rhs: Value): (r: Outcome)
    ensures r.Ok? <==> lhs.Integer? && rhs.Integer?
    ensures r.Ok? ==> r.v.Integer?
    ensures !r.Ok? ==> r == Fault(Unreachable)
  {
    match (lhs, rhs)
    case (Integer(a), Integer(b)) => Ok(Integer(BitInt(op, a, b)))
    case _ => Fault(Unreachable)
  }

  lemma {:induction false} XorTwice(a: nat, b: nat, n: nat)
    requires a < Pow2(n)
    ensures Bits(BitXor, Bits(BitXor, a, b, n), b, n) == a
  {
    if n > 0 {
      var r := Bits(BitXor, a, b, n);
      var r' := Bits(BitXor, a / 2, b / 2, n - 1);
      assert r % 2 == BitOf(BitXor, a % 2, b % 2) && r / 2 == r';
      XorTwice(a / 2, b / 2, n - 1);
    }
  }

  lemma {:induction false} AndAllOnes(a: nat, n: nat)
    requires a < Pow2(n)
    ensures Bits(BitAnd, a, Pow2(n) - 1, n) == a
  {
    if n > 0 {
      assert (Pow2(n) - 1) % 2 == 1 && (Pow2(n) - 1) / 2 == Pow2(n - 1) - 1;
      AndAllOnes(a / 2, n - 1);
    }
  }

  lemma {:induction false} OrZero(a: nat, n: nat)
    requires a < Pow2(n)
    ensures Bits(BitOr, a, 0, n) == a
  {
    if n > 0 {
      OrZero(a / 2, n - 1);
    }
  }

  /** Reading an i64's low bits back as an i64 gives it unchanged. */
  lemma SignedUnsigned(a: Int64)
    ensures Signed64(Unsigned64(a)) == a
  {
    Pow2Of63And64();
  }

  /** Exclusive or with the same operand undoes itself. */
  lemma XorInvolution(a: Int64, b: Int64)
    ensures BitValues(BitXor, BitValues(BitXor, Integer(a), Integer(b)).v, Integer(b)) == Ok(Integer(a))
  {
    Pow2Of63And64();
    XorTwice(Unsigned64(a), Unsigned64(b), 64);
    SignedUnsigned(a);
  }

  /** And with -1 (all ones) leaves an i64 unchanged. */
  lemma AndAllOnesIdentity(a: Int64)
    ensures BitValues(BitAnd, Integer(a), Integer(-1)) == Ok(Integer(a))
  {
    Pow2Of63And64();
    AndAllOnes(Unsigned64(a), 64);
    assert Unsigned64(-1) == Pow2(64) - 1;
    SignedUnsigned(a);
  }

  /** Or with 0 leaves an i64 unchanged. */
  lemma OrZeroIdentity(a: Int64)
    ensures BitValues(BitOr, Integer(a), Integer(0)) == Ok(Integer(a))
  {
    Pow2Of63And64();
    OrZero(Unsigned64(a), 64);
    SignedUnsigned(a);
  }

  // ---------------------------------------------------------------------
  // Shifts
  // ---------------------------------------------------------------------

  /** `rhs as u64 as u32` for a non-negative rhs: the low 32 bits. */
  function AsU32(x: nat): (n: nat)
    ensures n < U32_LIMIT
    ensures x < U32_LIMIT ==> n == x
  {
    x % U32_LIMIT
  }

  /** Arithmetic (sign-propagating) right shift by n: n successive
      halvings rounded toward minus infinity. It moves toward zero but
      never crosses it. */
  function ShiftRight(l: int, n: nat): (r: int)
    decreases n
    ensures 0 <= l ==> 0 <= r <= l
    ensures l < 0 ==> l <= r < 0
  {
    if n == 0 then l else ShiftRight(l / 2, n - 1)
  }

  /** The arithmetic shift is floor division by 2^n. */
  lemma {:induction false} ShiftRightIsFloor(l: int, n: nat)
    decreases n
    ensures ShiftRight(l, n) * Pow2(n) <= l < ShiftRight(l, n) * Pow2(n) + Pow2(n)
  {
    if n > 0 {
      var q := ShiftRight(l / 2, n - 1);
      ShiftRightIsFloor(l / 2, n - 1);
      assert q * Pow2(n) == 2 * (q * Pow2(n - 1));
    }
  }

  /** `i64::checked_shr`: `None` when the count is 64 or more, otherwise an
      arithmetic right shift. */
  function CheckedShr(l: Int64, n: nat): (r: Option<Int64>)
    ensures r.Some? <==> n < 64
  {
    if n < 64 then
      var q: Int64 := ShiftRight(l, n);
      Some(q)
    else None
  }

  /** `i64::checked_shl`: `None` when the count is 64 or more, otherwise a
      left shift that keeps the low 64 bits. */
  function CheckedShl(l: Int64, n: nat): (r: Option<Int64>)
    ensures r.Some? <==> n < 64
  {
    if n < 64 then Some(Wrap64(l * Pow2(n))) else None
  }

  function UnwrapOr(o: Option<Int64>, d: Int64): Int64
  {
    if o.Some? then o.value else d
  }

  /** `shr_values` as written: a non-negative count is cut to 32 bits and
      shifts right, a negative count shifts left by its magnitude, an
      over-range shift yields 0, and negating i64::MIN overflows. */
  function ShrValues(lhs: Value, rhs: Value): (r: Outcome)
    ensures r.Ok? ==> r.v.Integer?
    ensures r.Ok? <==> lhs.Integer? && rhs.Integer? && rhs.i != I64_MIN
  {
    match (lhs, rhs)
    case (Integer(l), Integer(n)) =>
      if n >= 0 then Ok(Integer(UnwrapOr(CheckedShr(l, AsU32(n)), 0)))
      else if n == I64_MIN then Fault(Overflow)
      else Ok(Integer(UnwrapOr(CheckedShl(l, AsU32(-n)), 0)))
    case _ => Fault(Unreachable)
  }

  /** `shl_values` as written: the mirror image of `shr_values`. */
  function ShlValues(lhs: Value, rhs: Value): (r: Outcome)
    ensures r.Ok? ==> r.v.Integer?
    ensures r.Ok? <==> lhs.Integer? && rhs.Integer? && rhs.i != I64_MIN
  {
    match (lhs, rhs)
    case (Integer(l), Integer(n)) =>
      if n >= 0 then Ok(Integer(UnwrapOr(CheckedShl(l, AsU32(n)), 0)))
      else if n == I64_MIN then Fault(Overflow)
      else Ok(Integer(UnwrapOr(CheckedShr(l, AsU32(-n)), 0)))
    case _ => Fault(Unreachable)
  }

  /** For a count below 64, `>>` is an arithmetic shift: the result q is
      the floor of l / 2^n, i.e. q·2^n <= l < (q+1)·2^n. */
  lemma ShrIsArithmeticShift(l: Int64, n: Int64)
    requires 0 <= n < 64
    ensures var q := ShrValues(Integer(l), Integer(n)).v.i;
            q * Pow2(n) <= l < q * Pow2(n) + Pow2(n)
  {
    ShiftRightIsFloor(l, n);
  }

  /** A count of 64 up to 2^32-1 makes `checked_shr` fail, and the helper
      answers 0 whatever the sign of l. */
  lemma ShrOverRangeIsZero(l: Int64, n: Int64)
    requires 64 <= n < U32_LIMIT
    ensures ShrValues(Integer(l), Integer(n)) == Ok(Integer(0))
    ensures ShlValues(Integer(l), Integer(n)) == Ok(Integer(0))
  {
  }

  /** The count is first truncated to its low 32 bits. */
  lemma ShiftCountTruncated(l: Int64, n: Int64)
    requires n >= 0
    ensures ShrValues(Integer(l), Integer(n)) == ShrValues(Integer(l), Integer(n % U32_LIMIT))
    ensures ShlValues(Integer(l), Integer(n)) == ShlValues(Integer(l), Integer(n % U32_LIMIT))
  {
    assert AsU32(n % U32_LIMIT) == AsU32(n);
  }

  /** A negative count reverses the direction of either shift. */
  lemma NegativeCountReverses(l: Int64, n: Int64)
    requires I64_MIN < n < 0
    ensures ShrValues(Integer(l), Integer(n)) == ShlValues(Integer(l), Integer(-n))
    ensures ShlValues(Integer(l), Integer(n)) == ShrValues(Integer(l), Integer(-n))
  {
  }

  /** For a count below 64, `<<` keeps the low 64 bits of l·2^n: it is exact
      when that fits and wraps silently otherwise, never a fault. */
  lemma ShlKeepsLowBits(l: Int64, n: Int64)
    requires 0 <= n < 64
    ensures ShlValues(Integer(l), Integer(n)).Ok?
    ensures (ShlValues(Integer(l), Integer(n)).v.i - l * Pow2(n)) % U64_LIMIT == 0
    ensures InI64(l * Pow2(n)) ==> ShlValues(Integer(l), Integer(n)) == Ok(Integer(l * Pow2(n)))
  {
  }

  /** What Ruby's `>>` means for a non-negative count of any size: floor
      division by 2^n, which is -1 for every negative l once n >= 63 and 0
      for every non-negative l once n >= 63. A negative count shifts left
      as `shr_values` does. */
  function ShrCorrected(lhs: Value, rhs: Value): (r: Outcome)
    ensures r.Ok? <==> lhs.Integer? && rhs.Integer? && rhs.i != I64_MIN
  {
    match (lhs, rhs)
    case (Integer(l), Integer(n)) =>
      if n >= 64 then Ok(Integer(if l < 0 then -1 else 0))
      else if n >= 0 then Ok(Integer(UnwrapOr(CheckedShr(l, n), 0)))
      else ShrValues(lhs, rhs)
    case _ => Fault(Unreachable)
  }

  lemma SignedBelowPow63(l: Int64, n: nat)
    requires n >= 63
    ensures 0 <= l + Pow2(n) && l < Pow2(n)
  {
    Pow2Of63And64();
    Pow2Monotone(63, n);
  }

  /** Below the power of two on both sides, the floor quotient is -1 or 0. */
  lemma FloorOfSmall(l: int, p: int)
    requires p > 0 && -p <= l < p
    ensures var q := if l < 0 then -1 else 0;
            q * p <= l < q * p + p
  {
  }

  /** The corrected right shift is floor division by 2^n for every
      non-negative count, including 64 and beyond and counts of 2^32 or
      more, and it agrees with `shr_values` below 64. */
  lemma ShrCorrectedIsFloorDivision(l: Int64, n: Int64)
    requires n >= 0
    ensures var q := ShrCorrected(Integer(l), Integer(n)).v.i;
            q * Pow2(n) <= l < q * Pow2(n) + Pow2(n)
    ensures n < 64 ==> ShrCorrected(Integer(l), Integer(n)) == ShrValues(Integer(l), Integer(n))
  {
    if n >= 64 {
      SignedBelowPow63(l, n);
      FloorOfSmall(l, Pow2(n));
      assert ShrCorrected(Integer(l), Integer(n)) == Ok(Integer(if l < 0 then -1 else 0));
    } else {
      assert AsU32(n) == n;
      assert ShrCorrected(Integer(l), Integer(n)) == ShrValues(Integer(l), Integer(n));
      ShrIsArithmeticShift(l, n);
    }
  }

  /** `-157 >> 64` as written answers 0 where the floor of -157 / 2^64 is
      -1, and `157 >> (2^32 + 1)` as written shifts by 1 (giving 78) where
      the floor of 157 / 2^(2^32+1) is 0. */
  lemma ShrOverRangeDiscrepancy()
    ensures ShrValues(Integer(-157), Integer(64)) == Ok(Integer(0))
    ensures ShrCorrected(Integer(-157), Integer(64)) == Ok(Integer(-1))
    ensures ShrValues(Integer(157), Integer(U32_LIMIT + 1)) == Ok(Integer(78))
    ensures ShrCorrected(Integer(157), Integer(U32_LIMIT + 1)) == Ok(Integer(0))
  {
    assert AsU32(U32_LIMIT + 1) == 1;
  }

  // ---------------------------------------------------------------------
  // Comparisons
  // ---------------------------------------------------------------------

  /** `cmp_{eq,ne,ge,gt,le,lt}_values`: numeric pairs compare (a mixed pair
      converts the integer side to float); bool pairs compare only for
      `==` and `!=`; everything else is unreachable. */
  function CmpValues(fpu: Fpu, kind: CmpKind, lhs: Value, rhs: Value): (r: Outcome)
    ensures r.Ok? ==> r.v.Bool?
    ensures r.Ok? <==> ((lhs.Integer? || lhs.Float?) && (rhs.Integer? || rhs.Float?))
                       || (lhs.Bool? && rhs.Bool? && (kind == Eq || kind == Ne))
  {
    match (lhs, rhs)
    case (Integer(a), Integer(b)) => Ok(Bool(CompareInt(kind, a, b)))
    case (Integer(a), Float(b)) => Ok(Bool(CompareFloat(fpu, kind, fpu.fromInt(a), b)))
    case (Float(a), Integer(b)) => Ok(Bool(CompareFloat(fpu, kind, a, fpu.fromInt(b))))
    case (Float(a), Float(b)) => Ok(Bool(CompareFloat(fpu, kind, a, b)))
    case (Bool(a), Bool(b)) =>
      if kind == Eq then Ok(Bool(a == b))
      else if kind == Ne then Ok(Bool(a != b))
      else Fault(Unreachable)
    case _ => Fault(Unreachable)
  }

  /** `==` and `!=` accept exactly the same pairs and always disagree. */
  lemma EqNeComplementary(fpu: Fpu, lhs: Value, rhs: Value)
    ensures CmpValues(fpu, Eq, lhs, rhs).Ok? <==> CmpValues(fpu, Ne, lhs, rhs).Ok?
    ensures CmpValues(fpu, Eq, lhs, rhs).Ok? ==>
              CmpValues(fpu, Ne, lhs, rhs).v.b == !CmpValues(fpu, Eq, lhs, rhs).v.b
  {
  }

  /** On integer pairs the orderings are each other's negations. */
  lemma IntOrderingDuality(fpu: Fpu, a: Int64, b: Int64)
    ensures CmpValues(fpu, Lt, Integer(a), Integer(b)).v.b == !CmpValues(fpu, Ge, Integer(a), Integer(b)).v.b
    ensures CmpValues(fpu, Gt, Integer(a), Integer(b)).v.b == !CmpValues(fpu, Le, Integer(a), Integer(b)).v.b
    ensures CmpValues(fpu, Lt, Integer(a), Integer(b)) == CmpValues(fpu, Gt, Integer(b), Integer(a))
  {
  }

  /** `cmp_<op>_ri_values`: the lhs is a value and the rhs an i64
      immediate; an integer or float lhs compares, anything else is
      unreachable. */
  function CmpRiValues(fpu: Fpu, kind: CmpKind, lhs: Value, rhs: Int64): (r: Outcome)
    ensures r.Ok? <==> lhs.Integer? || lhs.Float?
    ensures r.Ok? ==> r.v.Bool?
  {
    match lhs
    case Integer(a) => Ok(Bool(CompareInt(kind, a, rhs)))
    case Float(a) => Ok(Bool(CompareFloat(fpu, kind, a, fpu.fromInt(rhs))))
    case _ => Fault(Unreachable)
  }

  /** The immediate form agrees with the general comparison against the
      immediate boxed as an integer, for every numeric lhs. */
  lemma CmpRiAgreesWithCmp(fpu: Fpu, kind: CmpKind, lhs: Value, rhs: Int64)
    requires lhs.Integer? || lhs.Float?
    ensures CmpRiValues(fpu, kind, lhs, rhs) == CmpValues(fpu, kind, lhs, Integer(rhs))
  {
  }

  // ---------------------------------------------------------------------
  // Negation
  // ---------------------------------------------------------------------

  /** `neg_value`: integer negation (overflowing only for i64::MIN) or
      float negation. */
  function NegValue(fpu: Fpu, v: Value): (r: Outcome)
    ensures r.Ok? <==> (v.Integer? && v.i != I64_MIN) || v.Float?
    ensures r.Ok? && v.Integer? ==> r.v.Integer? && r.v.i + v.i == 0
  {
    match v
    case Integer(a) => if a == I64_MIN then Fault(Overflow) else Ok(Integer(-a))
    case Float(f) => Ok(Float(fpu.neg(f)))
    case _ => Fault(Unreachable)
  }

  /** Negating an integer twice gives it back, except i64::MIN, whose first
      negation overflows. */
  lemma NegNegIdentity(fpu: Fpu, a: Int64)
    ensures a != I64_MIN ==> NegValue(fpu, NegValue(fpu, Integer(a)).v) == Ok(Integer(a))
    ensures a == I64_MIN <==> NegValue(fpu, Integer(a)) == Fault(Overflow)
  {
  }
}
