/** Definitions shared by every stage of the pipeline: fixed-width integer
    ranges, powers of two, comparison kinds and the opaque floating-point
    values that the model never interprets. */
module Base {

  datatype Option<T> = None | Some(value: T) {
    predicate IsFailure() { None? }
    function PropagateFailure<U>(): Option<U>
      requires None?
    {
      None
    }
    function Extract(): T
      requires Some?
    {
      value
    }
  }

  const I16_MIN: int := -0x8000
  const I16_MAX: int := 0x7FFF
  const I32_MIN: int := -0x8000_0000
  const I32_MAX: int := 0x7FFF_FFFF
  const I64_MIN: int := -0x8000_0000_0000_0000
  const I64_MAX: int := 0x7FFF_FFFF_FFFF_FFFF
  const U16_MAX: int := 0xFFFF
  const U32_LIMIT: int := 0x1_0000_0000
  const U64_LIMIT: int := 0x1_0000_0000_0000_0000

  /** No element occurs twice. */
  predicate NoDup<T(==)>(s: seq<T>)
  {
    forall i, j :: 0 <= i < j < |s| ==> s[i] != s[j]
  }

  /** A sequence without repeats is one whose prefix has none and whose
      last element is new. */
  lemma NoDupSnoc<T>(s: seq<T>)
    requires |s| > 0
    ensures NoDup(s) <==> NoDup(s[..|s| - 1]) && s[|s| - 1] !in s[..|s| - 1]
  {
    var init := s[..|s| - 1];
    if NoDup(init) && s[|s| - 1] !in init {
      forall i, j | 0 <= i < j < |s|
        ensures s[i] != s[j]
      {
        if j < |s| - 1 {
          assert s[i] == init[i] && s[j] == init[j];
        } else {
          assert s[i] in init;
        }
      }
    }
  }

  predicate InI16(x: int) { I16_MIN <= x <= I16_MAX }
  predicate InI32(x: int) { I32_MIN <= x <= I32_MAX }
  predicate InI64(x: int) { I64_MIN <= x <= I64_MAX }

  type Int16 = x: int | I16_MIN <= x <= I16_MAX
  type Int32 = x: int | I32_MIN <= x <= I32_MAX
  type Int64 = x: int | I64_MIN <= x <= I64_MAX

  /** 2 to the power n. */
  function Pow2(n: nat): (r: nat)
    ensures r >= 1
  {
    if n == 0 then 1 else 2 * Pow2(n - 1)
  }

  lemma {:induction false} Pow2Monotone(m: nat, n: nat)
    requires m <= n
    ensures Pow2(m) <= Pow2(n)
  {
    if m < n {
      Pow2Monotone(m, n - 1);
    }
  }

  lemma {:induction false} Pow2Add(m: nat, n: nat)
    ensures Pow2(m + n) == Pow2(m) * Pow2(n)
  {
    if n > 0 {
      Pow2Add(m, n - 1);
      calc {
        Pow2(m + n);
        2 * Pow2(m + n - 1);
        2 * (Pow2(m) * Pow2(n - 1));
        Pow2(m) * (2 * Pow2(n - 1));
      }
    }
  }

  lemma Pow2Of8And16()
    ensures Pow2(7) == 0x80 && Pow2(8) == 0x100
    ensures Pow2(15) == 0x8000 && Pow2(16) == 0x1_0000
  {
    assert Pow2(7) == 0x80;
    Pow2Add(8, 7);
    Pow2Add(8, 8);
  }

  lemma Pow2Of32()
    ensures Pow2(31) == 0x8000_0000 && Pow2(32) == 0x1_0000_0000
  {
    Pow2Of8And16();
    Pow2Add(16, 15);
    Pow2Add(16, 16);
  }

  lemma Pow2Of63And64()
    ensures Pow2(63) == 0x8000_0000_0000_0000
    ensures Pow2(64) == U64_LIMIT
  {
    Pow2Of32();
    Pow2Add(32, 31);
    Pow2Add(32, 32);
  }

  /** Two's-complement reinterpretation of the low 64 bits of x as an i64:
      what a Rust `as i64` cast or a wrapping 64-bit operation yields. */
  function Wrap64(x: int): (r: Int64)
    ensures (r - x) % U64_LIMIT == 0
    ensures InI64(x) ==> r == x
  {
    var m := (x - I64_MIN) % U64_LIMIT;
    m + I64_MIN
  }

  /** Comparison operators shared by bytecode, HIR and machine code. */
  datatype CmpKind = Eq | Ne | Lt | Gt | Le | Ge

  /** Integer comparison as Rust's `PartialOrd`/`PartialEq` on integers. */
  function CompareInt(kind: CmpKind, l: int, r: int): bool
  {
    match kind
    case Eq => l == r
    case Ne => l != r
    case Lt => l < r
    case Gt => l > r
    case Le => l <= r
    case Ge => l >= r
  }

  /** A double-precision float, kept opaque: only its bit pattern. */
  datatype F64 = F64(bits: bv64)

  /** The floating-point unit. The model never interprets floats; whatever
      IEEE-754 computes is supplied by the caller as these functions. Rust's
      `!=` on f64 is the negation of `==`, so there is no separate `ne`. */
  datatype Fpu = Fpu(
    fromInt: int -> F64,
    neg: F64 -> F64,
    add: (F64, F64) -> F64,
    sub: (F64, F64) -> F64,
    mul: (F64, F64) -> F64,
    div: (F64, F64) -> F64,
    eq: (F64, F64) -> bool,
    lt: (F64, F64) -> bool,
    gt: (F64, F64) -> bool,
    le: (F64, F64) -> bool,
    ge: (F64, F64) -> bool)

  function CompareFloat(fpu: Fpu, kind: CmpKind, l: F64, r: F64): bool
  {
    match kind
    case Eq => fpu.eq(l, r)
    case Ne => !fpu.eq(l, r)
    case Lt => fpu.lt(l, r)
    case Gt => fpu.gt(l, r)
    case Le => fpu.le(l, r)
    case Ge => fpu.ge(l, r)
  }

  /** Rust's integer `/`: the quotient truncated toward zero (Dafny's own
      `/` is Euclidean and differs for negative operands). */
  function TruncDiv(a: int, b: int): int
    requires b != 0
  {
    var q := Abs(a) / Abs(b);
    if (a < 0) == (b < 0) then q else -q
  }

  function Abs(x: int): nat { if x < 0 then -x else x }

  /** The truncated quotient's magnitude is the floor of |a| / |b|, and a
      nonzero quotient is negative exactly when the signs differ. */
  lemma TruncDivBrackets(a: int, b: int)
    requires b != 0
    ensures Abs(TruncDiv(a, b)) * Abs(b) <= Abs(a) < (Abs(TruncDiv(a, b)) + 1) * Abs(b)
    ensures TruncDiv(a, b) < 0 ==> (a < 0) != (b < 0)
    ensures TruncDiv(a, b) > 0 ==> (a < 0) == (b < 0)
  {
    var q := Abs(a) / Abs(b);
    DivBounds(Abs(a), Abs(b));
    assert Abs(TruncDiv(a, b)) == q;
    assert (q + 1) * Abs(b) == q * Abs(b) + Abs(b);
  }

  lemma MulMonotone2(q: nat, p: nat, d: nat)
    requires p <= d
    ensures q * p <= q * d
  {
  }

  /** Floor division of a non-negative number by a positive one brackets it. */
  lemma DivBounds(a: nat, p: nat)
    requires p >= 1
    ensures (a / p) * p <= a < (a / p) * p + p
    ensures a / p <= a
  {
    var q := a / p;
    assert a == q * p + a % p;
    assert q <= q * p by {
      MulMonotone(q, p);
    }
  }

  lemma MulMonotone(q: nat, p: nat)
    requires p >= 1
    ensures q <= q * p
  {
  }
}
