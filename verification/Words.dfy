/** Machine words: the 16-, 32- and 64-bit wrap-around the sources rely on. */
module Words {
  const W16: nat := 0x1_0000
  const W32: nat := 0x1_0000_0000
  const W64: nat := 0x1_0000_0000_0000_0000

  type Byte = b: nat | b < 256 witness 0

  function Wrap16(n: int): (r: nat)
    ensures r < W16
  {
    n % W16
  }

  /** How many entries lie between two ring indices. */
  function Span(lo: nat, hi: nat): nat {
    Wrap16(hi - lo)
  }

  /** The queue sizes the split-ring index arithmetic works for. */
  predicate RingSize(size: nat) {
    0 < size <= 0x8000 && W16 % size == 0
  }

  function Pow2(k: nat): (r: nat)
    ensures r > 0
  {
    if k == 0 then 1 else 2 * Pow2(k - 1)
  }

  lemma ModOfMultiple(q: nat, size: nat, r: nat)
    requires size > 0
    ensures (q * size + r) % size == r % size
  {
    var d, m := r / size, r % size;
    assert q * size + r == (q + d) * size + m by {
      assert r == d * size + m;
      assert (q + d) * size == q * size + d * size;
    }
    DivModUnique(q * size + r, size, q + d, m);
  }

  lemma NonZeroMultiple(k: int, size: int)
    requires k != 0 && size >= 0
    ensures k * size >= size || k * size <= -size
  {
    if k >= 1 {
      assert (k - 1) * size >= 0;
    } else {
      assert (-k - 1) * size >= 0;
    }
  }

  lemma DivModUnique(n: nat, size: nat, q: nat, r: nat)
    requires r < size && n == q * size + r
    ensures n / size == q && n % size == r
  {
    var q', r' := n / size, n % size;
    var k := q' - q;
    assert k * size == r - r' by {
      assert n == q' * size + r';
      assert (q' - q) * size == q' * size - q * size;
    }
    if k != 0 {
      NonZeroMultiple(k, size);
    }
  }

  lemma ModPlus(n: nat, k: nat, size: nat)
    requires size > 0
    ensures (n % size + k) % size == (n + k) % size
  {
    assert n + k == n / size * size + (n % size + k);
    ModOfMultiple(n / size, size, n % size + k);
  }

  /** A slot computed from a wrapped index is the slot of the unwrapped counter. */
  lemma SlotOfWrapped(size: nat, n: nat)
    requires size > 0 && W16 % size == 0
    ensures Wrap16(n) % size == n % size
  {
    var c := W16 / size;
    assert W16 == c * size;
    var q := n / W16;
    assert n == q * W16 + Wrap16(n);
    assert q * W16 == (q * c) * size by {
      assert q * (c * size) == (q * c) * size;
    }
    ModOfMultiple(q * c, size, Wrap16(n));
  }

  /** ... and divisibility of 2^16 is exactly what that needs. */
  lemma SlotContinuityIsExact(size: nat)
    requires size > 0
    ensures (forall n: nat :: Wrap16(n) % size == n % size) <==> W16 % size == 0
  {
    if W16 % size == 0 {
      forall n: nat
        ensures Wrap16(n) % size == n % size
      {
        SlotOfWrapped(size, n);
      }
    } else {
      assert Wrap16(W16) % size == 0;
    }
  }

  /** Two counters less than 2^16 apart have equal wrapped indices only when they are equal. */
  lemma WrapDecidesEquality(a: nat, b: nat)
    requires a <= b < a + W16
    ensures Wrap16(a) == Wrap16(b) <==> a == b
  {
  }

  lemma WrapSuccessor(n: nat)
    ensures Wrap16(Wrap16(n) + 1) == Wrap16(n + 1)
  {
  }

  lemma WrapOffset(n: nat, k: nat)
    ensures Wrap16(Wrap16(n) + k) == Wrap16(n + k)
  {
  }

  /** The index difference is the counter difference, below 2^16. */
  lemma SpanOfCounters(lo: nat, hi: nat)
    requires lo <= hi < lo + W16
    ensures Span(Wrap16(lo), Wrap16(hi)) == hi - lo
  {
  }

  /** ... and from the later to the earlier index it is the rest of the way round. */
  lemma SpanBack(lo: nat, hi: nat)
    requires lo < hi < lo + W16
    ensures Span(Wrap16(hi), Wrap16(lo)) == W16 + lo - hi
  {
  }

  /** Slots of two counters at most size - 1 apart differ. */
  lemma SlotsDiffer(size: nat, a: nat, b: nat)
    requires size > 0 && a < b < a + size
    ensures a % size != b % size
  {
    var k := b / size - a / size;
    if a % size == b % size {
      assert k * size == b - a by {
        assert a == a / size * size + a % size;
        assert b == b / size * size + b % size;
        assert (b / size - a / size) * size == b / size * size - a / size * size;
      }
      NonZeroMultiple(k, size);
      assert false;
    }
  }

  /** Serving a queue with another queue's size reads the right slots only when the sizes agree. */
  lemma SharedSizeIsExact(served: nat, used: nat)
    requires 0 < served && 0 < used
    ensures (forall n: nat :: n % served == n % used) <==> served == used
  {
    if served != used {
      var n := if served < used then served else used;
      assert n % n == 0;
      assert n % served != n % used;
    }
  }

  /** The admissible sizes are the powers of two up to 2^15. */
  lemma RingSizesArePowersOfTwo(size: nat)
    ensures RingSize(size) <==> exists k: nat :: k <= 15 && size == Pow2(k)
  {
    Pow2Values();
    if RingSize(size) {
      var k := DivisorOfPow2(size, 16);
      assert Pow2(16) == W16;
      assert k <= 15;
    } else {
      forall k: nat | k <= 15
        ensures size != Pow2(k)
      {
        Pow2Divides(k, 16);
      }
    }
  }

  lemma Pow2Values()
    ensures Pow2(15) == 0x8000 && Pow2(16) == W16
    ensures forall k: nat | k <= 15 :: Pow2(k) <= 0x8000
  {
    assert Pow2(4) == 16;
    assert Pow2(8) == 256;
    assert Pow2(12) == 4096;
    assert Pow2(15) == 0x8000;
    forall k: nat | k <= 15
      ensures Pow2(k) <= 0x8000
    {
      Pow2Monotone(k, 15);
    }
  }

  lemma {:induction false} Pow2Monotone(a: nat, b: nat)
    requires a <= b
    ensures Pow2(a) <= Pow2(b)
    decreases b - a
  {
    if a < b {
      Pow2Monotone(a, b - 1);
    }
  }

  lemma {:induction false} Pow2Divides(a: nat, b: nat)
    requires a <= b
    ensures Pow2(b) % Pow2(a) == 0
    decreases b - a
  {
    if a < b {
      Pow2Divides(a, b - 1);
      var q := Pow2(b - 1) / Pow2(a);
      assert Pow2(b) == (2 * q) * Pow2(a);
      DivModUnique(Pow2(b), Pow2(a), 2 * q, 0);
    } else {
      DivModUnique(Pow2(b), Pow2(a), 1, 0);
    }
  }

  lemma HalfFactor(q: nat, e: nat, d: nat, n: nat)
    requires n > 0 && e > 0 && q * d == Pow2(n) && d == 2 * e
    ensures Pow2(n - 1) % e == 0
  {
    assert q * (2 * e) == 2 * (q * e);
    DivModUnique(Pow2(n - 1), e, q, 0);
  }

  lemma HalfQuotient(q: nat, h: nat, d: nat, n: nat)
    requires n > 0 && d > 0 && q * d == Pow2(n) && q == 2 * h
    ensures Pow2(n - 1) % d == 0
  {
    assert (2 * h) * d == 2 * (h * d);
    DivModUnique(Pow2(n - 1), d, h, 0);
  }

  /** Every divisor of a power of two is a power of two; the result is its exponent. */
  lemma {:induction false} DivisorOfPow2(d: nat, n: nat) returns (k: nat)
    requires d > 0 && Pow2(n) % d == 0
    ensures k <= n && d == Pow2(k)
    decreases n
  {
    var q := Pow2(n) / d;
    assert q * d == Pow2(n);
    if n == 0 {
      k := 0;
    } else if d % 2 == 0 {
      HalfFactor(q, d / 2, d, n);
      k := DivisorOfPow2(d / 2, n - 1);
      k := k + 1;
    } else {
      OddFactor(q, d, n);
      HalfQuotient(q, q / 2, d, n);
      k := DivisorOfPow2(d, n - 1);
    }
  }

  lemma OddFactor(q: nat, d: nat, n: nat)
    requires n > 0 && d % 2 == 1 && q * d == Pow2(n)
    ensures q % 2 == 0
  {
    var a, b := q / 2, d / 2;
    assert (2 * a + q % 2) * (2 * b + 1) == 2 * (2 * (a * b) + a + q % 2 * b) + q % 2;
  }
}
