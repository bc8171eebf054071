/**
 * `ro.undef.patois.Random.nextLong(n)`: a value drawn from `java.util.Random`'s
 * `nextLong()` and reduced modulo `n` by range rejection.
 *
 * The generator is an oracle: `draws` lists the successive values its `nextLong()`
 * returns. Because the draw is performed in a do-while loop with no bound, the model
 * consumes a finite prefix and reports `DrawsExhausted` when every listed draw was
 * rejected.
 */
module JavaRandom {
  import opened JavaInt

  datatype NextLongResult =
    | Drawn(value: int, used: nat)  // the returned value and how many raw draws were consumed
    | IllegalArgument               // `n <= 0`: IllegalArgumentException
    | DrawsExhausted                // every draw of the oracle was rejected

  /** `nextLong() >> 1`: the bits actually reduced modulo `n`. */
  function Bits(raw: int): int
  {
    ShiftRight1(raw)
  }

  /** The loop's exit test: `bits - val + (n - 1)` does not come out negative in 64-bit arithmetic. */
  predicate Accepts(bits: int, n: int)
  {
    n > 0 && WrapLong(WrapLong(bits - JRem(bits, n)) + (n - 1)) >= 0
  }

  method NextLong(n: int, draws: seq<int>) returns (r: NextLongResult)
    requires IsLong(n)
    requires forall k :: 0 <= k < |draws| ==> IsLong(draws[k])
    ensures (n <= 0) <==> (r == IllegalArgument)
    ensures r.Drawn? ==>
      && 1 <= r.used <= |draws|
      && Accepts(Bits(draws[r.used - 1]), n)
      && r.value == JRem(Bits(draws[r.used - 1]), n)
      && (forall k :: 0 <= k < r.used - 1 ==> !Accepts(Bits(draws[k]), n))
    ensures r.DrawsExhausted? ==> forall k :: 0 <= k < |draws| ==> !Accepts(Bits(draws[k]), n)
    ensures r.Drawn? ==> -n < r.value < n
  {
    if n <= 0 {
      return IllegalArgument;
    }
    var i := 0;
    while i < |draws|
      invariant 0 <= i <= |draws|
      invariant forall k :: 0 <= k < i ==> !Accepts(Bits(draws[k]), n)
    {
      var bits := Bits(draws[i]);
      var val := JRem(bits, n);
      i := i + 1;
      if WrapLong(WrapLong(bits - val) + (n - 1)) >= 0 {
        return Drawn(val, i);
      }
    }
    return DrawsExhausted;
  }

  /** A draw with non-negative bits yields a value in [0, n). */
  lemma NonNegativeBitsInRange(bits: int, n: int)
    requires 0 <= bits && Accepts(bits, n)
    ensures 0 <= JRem(bits, n) < n
  {
  }

  /**
   * A non-negative draw is accepted exactly when the whole block of `n` values
   * starting at `bits - bits % n` fits below 2^63: the range rejection that
   * keeps the reduction unbiased.
   */
  lemma NonNegativeAcceptance(bits: int, n: int)
    requires 0 <= bits < TWO_63 / 2 && 0 < n && IsLong(n)
    ensures Accepts(bits, n) <==> bits - JRem(bits, n) + n <= TWO_63
  {
    var base := bits - JRem(bits, n);
    assert 0 <= base <= bits;
    if base + (n - 1) <= MAX_LONG {
      assert WrapLong(base + (n - 1)) == base + (n - 1);
    } else {
      assert WrapLong(base + (n - 1)) == base + (n - 1) - TWO_64;
    }
  }

  /**
   * A negative draw is accepted exactly when `-n < bits`, and then the value
   * returned is `bits` itself, which is negative: the right shift does not make
   * the bits non-negative.
   */
  lemma NegativeAcceptance(bits: int, n: int)
    requires -TWO_63 / 2 <= bits < 0 && 0 < n && IsLong(n)
    ensures Accepts(bits, n) <==> -n < bits
    ensures -n < bits ==> JRem(bits, n) == bits
  {
    if -n < bits {
      SmallNegativeAccepted(bits, n);
    } else {
      LargeNegativeRejected(bits, n);
    }
  }

  lemma SmallNegativeAccepted(bits: int, n: int)
    requires -n < bits < 0 && IsLong(n)
    ensures JRem(bits, n) == bits && Accepts(bits, n)
  {
    var a: nat := -bits;
    assert a / n == 0;
    assert JDiv(bits, n) == 0;
    assert WrapLong(bits - JRem(bits, n)) == 0;
  }

  lemma LargeNegativeRejected(bits: int, n: int)
    requires -TWO_63 / 2 <= bits <= -n && 0 < n
    ensures !Accepts(bits, n)
  {
    var a: nat := -bits;
    DivideAtLeastOnce(a, n);
    var base := bits - JRem(bits, n);
    assert base == -((a / n) * n);
    assert WrapLong(base) == base;
    assert WrapLong(base + (n - 1)) == base + (n - 1);
  }

  /** If `n <= a`, then `n` goes into `a` at least once, and `(a / n) * n` neither exceeds `a` nor falls below `n`. */
  lemma DivideAtLeastOnce(a: int, n: int)
    requires 0 < n <= a
    ensures a / n >= 1
    ensures n <= (a / n) * n <= a
  {
    var m := a / n;
    assert a == m * n + a % n;
    assert m * n >= n by { MulAtLeast(m, n); }
  }

  /** Arithmetic helper of `DivideAtLeastOnce`. */
  lemma MulAtLeast(m: int, n: int)
    requires m >= 1 && n > 0
    ensures m * n >= n
  {
  }

  /** A generator output of -1 becomes bits -1, and for any `n >= 2` it is accepted and returned as -1. */
  lemma NegativeValueWitness(n: int)
    requires 2 <= n && IsLong(n)
    ensures Bits(-1) == -1
    ensures Accepts(Bits(-1), n) && JRem(Bits(-1), n) == -1
  {
    NegativeAcceptance(-1, n);
  }

  /** Every accepted value lies strictly between -n and n. */
  lemma AcceptedValueBound(raw: int, n: int)
    requires IsLong(raw) && Accepts(Bits(raw), n)
    ensures -n < JRem(Bits(raw), n) < n
    ensures -TWO_63 / 2 <= Bits(raw) < TWO_63 / 2
  {
    ShiftRight1Range(raw);
  }
}
