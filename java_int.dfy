/** Java's fixed-width integer arithmetic (`int`, `long`) on top of Dafny's unbounded `int`. */
module JavaInt {

  const TWO_32: int := 0x1_0000_0000
  const TWO_63: int := 0x8000_0000_0000_0000
  const TWO_64: int := 0x1_0000_0000_0000_0000

  const MIN_LONG: int := -TWO_63
  const MAX_LONG: int := TWO_63 - 1
  const MIN_INT: int := -0x8000_0000
  const MAX_INT: int := 0x7FFF_FFFF

  /** A value a Java `long` can hold. */
  predicate IsLong(x: int) { MIN_LONG <= x <= MAX_LONG }

  /** A value a Java `int` can hold. */
  predicate IsInt(x: int) { MIN_INT <= x <= MAX_INT }

  /** The two's-complement wrap of `x` to 64 bits: what a Java `long` operation yields. */
  function WrapLong(x: int): (r: int)
    ensures IsLong(r)
    ensures (x - r) % TWO_64 == 0
    ensures IsLong(x) ==> r == x
  {
    (x - MIN_LONG) % TWO_64 + MIN_LONG
  }

  /** The two's-complement wrap of `x` to 32 bits: what a Java `int` operation yields. */
  function WrapInt(x: int): (r: int)
    ensures IsInt(r)
    ensures (x - r) % TWO_32 == 0
    ensures IsInt(x) ==> r == x
  {
    (x - MIN_INT) % TWO_32 + MIN_INT
  }

  /** Java's `a / n`: the quotient rounded toward zero. */
  function JDiv(a: int, n: int): (q: int)
    requires n != 0
    ensures 0 <= a && 0 < n ==> q == a / n
    ensures (a < 0) != (n < 0) ==> q <= 0
    ensures (a < 0) == (n < 0) ==> q >= 0
  {
    var aa: nat := if a < 0 then -a else a;
    var nn: nat := if n < 0 then -n else n;
    var m: int := NatDiv(aa, nn);
    if (a < 0) == (n < 0) then m else -m
  }

  /** Division of naturals, with its sign made explicit for the callers' proofs. */
  function NatDiv(a: nat, n: nat): (m: nat)
    requires 0 < n
    ensures m == a / n
  {
    a / n
  }

  /** Java's `a % n`: the remainder of the quotient rounded toward zero, so it takes the sign of `a`. */
  function JRem(a: int, n: int): (r: int)
    requires n != 0
    ensures r == a - JDiv(a, n) * n
    ensures 0 <= a ==> 0 <= r < (if n < 0 then -n else n)
    ensures a < 0 ==> -(if n < 0 then -n else n) < r <= 0
  {
    a - JDiv(a, n) * n
  }

  /** Java's arithmetic right shift `x >> 1`: the floor of `x / 2`, keeping the sign. */
  function ShiftRight1(x: int): (r: int)
    ensures 2 * r <= x < 2 * r + 2
  {
    x / 2
  }

  /** The shift halves the range of a `long`: `x >> 1` lies in [-2^62, 2^62). */
  lemma ShiftRight1Range(x: int)
    requires IsLong(x)
    ensures -TWO_63 / 2 <= ShiftRight1(x) < TWO_63 / 2
  {
  }

  function Pow2(n: nat): (r: nat)
    ensures r >= 1
  {
    if n == 0 then 1 else 2 * Pow2(n - 1)
  }

  lemma {:induction false} Pow2Add(a: nat, b: nat)
    ensures Pow2(a + b) == Pow2(a) * Pow2(b)
  {
    if a > 0 {
      Pow2Add(a - 1, b);
      assert Pow2(a + b) == 2 * Pow2(a - 1 + b);
    }
  }

  lemma Pow2Of32()
    ensures Pow2(32) == TWO_32
  {
    assert Pow2(1) == 2;
    Pow2Add(1, 1);
    Pow2Add(2, 2);
    Pow2Add(4, 4);
    Pow2Add(8, 8);
    Pow2Add(16, 16);
  }

  /** The low `width` bits of the exclusive or of `a` and `b`. */
  function XorBits(a: nat, b: nat, width: nat): (r: nat)
    ensures r < Pow2(width)
  {
    if width == 0 then 0
    else (if a % 2 == b % 2 then 0 else 1) + 2 * XorBits(a / 2, b / 2, width - 1)
  }

  /** Exclusive or with zero keeps a value that fits the width. */
  lemma {:induction false} XorZero(a: nat, width: nat)
    requires a < Pow2(width)
    ensures XorBits(a, 0, width) == a
  {
    if width > 0 {
      XorZero(a / 2, width - 1);
    }
  }

  /**
   * `(int) (x ^ (x >>> 32))`: the high and low 32-bit halves of a `long` combined by
   * exclusive or and read as a signed `int`, as id-based hash codes are built.
   */
  function FoldLong(x: int): (r: int)
    ensures IsInt(r)
  {
    var u: nat := x % TWO_64;
    var folded := XorBits(u, u / TWO_32, 32);
    Pow2Of32();
    if folded <= MAX_INT then folded else folded - TWO_32
  }

  /** A non-negative `int`-sized value folds to itself. */
  lemma FoldSmall(x: int)
    requires 0 <= x <= MAX_INT
    ensures FoldLong(x) == x
  {
    Pow2Of32();
    assert x % TWO_64 == x && x / TWO_32 == 0;
    XorZero(x, 32);
  }

  /** The "not stored" id -1 (all bits set) folds to 0. */
  lemma FoldMinusOne()
    ensures FoldLong(-1) == 0
  {
    Pow2Of32();
    Pow2Add(32, 32);
    var u: nat := -1 % TWO_64;
    assert u == Pow2(64) - 1;
    assert u / TWO_32 == Pow2(32) - 1;
    AllOnes(64, 32);
    AllOnes(32, 32);
    XorOnes(u, u / TWO_32, 32);
  }

  /** The low `width` bits of `a` are all set. */
  predicate LowOnes(a: nat, width: nat)
  {
    width == 0 || (a % 2 == 1 && LowOnes(a / 2, width - 1))
  }

  /** `2^n - 1` has its low `n` bits set. */
  lemma {:induction false} AllOnes(n: nat, width: nat)
    requires width <= n
    ensures LowOnes(Pow2(n) - 1, width)
  {
    if width > 0 {
      assert (Pow2(n) - 1) / 2 == Pow2(n - 1) - 1;
      AllOnes(n - 1, width - 1);
    }
  }

  lemma {:induction false} XorOnes(a: nat, b: nat, width: nat)
    requires LowOnes(a, width) && LowOnes(b, width)
    ensures XorBits(a, b, width) == 0
  {
    if width > 0 {
      XorOnes(a / 2, b / 2, width - 1);
    }
  }
}
