/** Powers of two and shifts, as the tree arithmetic needs them. Shl(m, h) is
    m * 2^h, kept as a function of its own so that no proof multiplies. */
module PowersOfTwo {

  function Shl(m: nat, h: nat): nat {
    if h == 0 then m else 2 * Shl(m, h - 1)
  }

  /** x halved h times, rounding down: Math.floor(x / 2) repeated. */
  function Shr(x: nat, h: nat): nat {
    if h == 0 then x else Shr(x / 2, h - 1)
  }

  function Pow2(h: nat): nat { Shl(1, h) }

  ghost predicate IsPow2(k: nat) { exists h: nat :: k == Pow2(h) }

  lemma {:induction false} ShlAdd(a: nat, b: nat, h: nat)
    ensures Shl(a + b, h) == Shl(a, h) + Shl(b, h)
    decreases h
  {
    if h > 0 {
      ShlAdd(a, b, h - 1);
    }
  }

  lemma {:induction false} ShlMonotone(a: nat, b: nat, h: nat)
    requires a <= b
    ensures Shl(a, h) <= Shl(b, h)
    ensures a < b ==> Shl(a, h) + Pow2(h) <= Shl(b, h)
    decreases h
  {
    if h > 0 {
      ShlMonotone(a, b, h - 1);
    }
  }

  lemma {:induction false} ShlPositive(m: nat, h: nat)
    ensures m >= 1 ==> Shl(m, h) >= 1
    ensures m == 0 ==> Shl(m, h) == 0
    decreases h
  {
    if h > 0 {
      ShlPositive(m, h - 1);
    }
  }

  lemma {:induction false} ShlMore(m: nat, d: nat, g: nat)
    ensures Shl(Shl(m, d), g) == Shl(m, d + g)
    decreases g
  {
    if g > 0 {
      ShlMore(m, d, g - 1);
    }
  }

  lemma {:induction false} ShlDouble(m: nat, h: nat)
    ensures Shl(m, h + 1) == Shl(2 * m, h) == 2 * Shl(m, h)
    decreases h
  {
    if h > 0 {
      ShlDouble(m, h - 1);
    }
  }

  lemma {:induction false} Pow2Monotone(g: nat, h: nat)
    requires g <= h
    ensures 1 <= Pow2(g) <= Pow2(h)
    ensures g < h ==> 2 * Pow2(g) <= Pow2(h)
    decreases h - g
  {
    ShlPositive(1, g);
    if g < h {
      Pow2Monotone(g + 1, h);
    }
  }

  lemma {:induction false} ShrStep(x: nat, h: nat)
    ensures Shr(x, h + 1) == Shr(x, h) / 2
    decreases h
  {
    if h == 0 {
      assert Shr(x, 1) == Shr(x / 2, 0);
    } else {
      ShrStep(x / 2, h - 1);
    }
  }

  lemma {:induction false} ShrMore(x: nat, g: nat, h: nat)
    ensures Shr(x, g + h) == Shr(Shr(x, g), h)
    decreases g
  {
    if g > 0 {
      ShrMore(x / 2, g - 1, h);
    }
  }

  /** Shifting back drops exactly what lies below the multiple. */
  lemma {:induction false} ShrOfShl(m: nat, h: nat, r: nat)
    requires r < Pow2(h)
    ensures Shr(Shl(m, h) + r, h) == m
    decreases h
  {
    if h > 0 {
      assert (Shl(m, h) + r) / 2 == Shl(m, h - 1) + r / 2;
      ShrOfShl(m, h - 1, r / 2);
    }
  }

  lemma {:induction false} ShrAtLeast(x: nat, h: nat, m: nat)
    requires x >= Shl(m, h)
    ensures Shr(x, h) >= m
    decreases h
  {
    if h > 0 {
      ShrAtLeast(x / 2, h - 1, m);
    }
  }

  // ----- logarithms -----

  ghost predicate IsLog2(h: nat, n: nat) { Pow2(h) <= n < 2 * Pow2(h) }

  /** The exponent of the largest power of two not above n, by what it is
      rather than by how it is found. */
  ghost function Log2(n: nat): (h: nat)
    requires n >= 1
    ensures IsLog2(h, n)
  {
    Log2Exists(n);
    var h: nat :| IsLog2(h, n);
    h
  }

  lemma {:induction false} Log2Exists(n: nat)
    requires n >= 1
    ensures exists h: nat :: IsLog2(h, n)
  {
    if n == 1 {
      assert IsLog2(0, 1);
    } else {
      Log2Exists(n / 2);
      var h: nat :| IsLog2(h, n / 2);
      assert IsLog2(h + 1, n);
    }
  }

  lemma {:induction false} Log2Unique(n: nat, h: nat)
    requires n >= 1 && IsLog2(h, n)
    ensures Log2(n) == h
  {
    if Log2(n) < h {
      Pow2Monotone(Log2(n), h);
    } else if h < Log2(n) {
      Pow2Monotone(h, Log2(n));
    }
  }
}
