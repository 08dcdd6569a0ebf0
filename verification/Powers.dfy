/** Powers of two, and the odd part of a number. */
module Powers {

  function Pow2(n: nat): (p: nat)
    ensures p > 0
  {
    if n == 0 then 1 else 2 * Pow2(n - 1)
  }

  lemma {:induction false} Pow2Add(a: nat, b: nat)
    ensures Pow2(a + b) == Pow2(a) * Pow2(b)
  {
    if a == 0 {
    } else {
      Pow2Add(a - 1, b);
      assert a + b - 1 == (a - 1) + b;
    }
  }

  lemma {:induction false} Pow2Mono(a: nat, b: nat)
    requires a < b
    ensures Pow2(a) < Pow2(b)
    decreases b
  {
    if a < b - 1 {
      Pow2Mono(a, b - 1);
    }
  }

  /** The powers that fit in a byte, as numbers. */
  lemma SmallPowers()
    ensures Pow2(0) == 1 && Pow2(1) == 2 && Pow2(2) == 4 && Pow2(3) == 8
    ensures Pow2(4) == 16 && Pow2(5) == 32 && Pow2(6) == 64 && Pow2(7) == 128 && Pow2(8) == 256
  {
    assert Pow2(2) == 4;
    assert Pow2(4) == 16;
    assert Pow2(6) == 64;
  }

  lemma MulAssoc(x: int, y: int, z: int)
    ensures x * y * z == x * (y * z)
  {
  }

  lemma MulSplit(x: int, y: int, f: int)
    ensures (x + y) * f == x * f + y * f
  {
  }

  lemma MulStep(x: int, y: int, f: int)
    requires f > 0 && x < y
    ensures x * f + f <= y * f
  {
    MulSplit(x, y - x, f);
    MulSplit(1, y - x - 1, f);
  }

  lemma Cancel(x: int, y: int, f: int)
    requires f > 0 && x * f == y * f
    ensures x == y
  {
    if x < y {
      MulStep(x, y, f);
    } else if y < x {
      MulStep(y, x, f);
    }
  }

  lemma EvenProduct(x: int, d: int)
    ensures x * (2 * d) == 2 * (x * d)
  {
  }

  lemma Quotient(n: nat, p: nat, k: nat)
    requires p > 0 && n == k * p
    ensures n / p == k
  {
    assert n == (n / p) * p + n % p;
    if n / p < k {
      MulStep(n / p, k, p);
    }
  }

  lemma QuotientRest(n: nat, p: nat, k: nat, r: nat)
    requires p > 0 && n == k * p + r && r < p
    ensures n / p == k
  {
    var q := n / p;
    assert n == q * p + n % p;
    if q < k {
      MulStep(q, k, p);
    } else if k < q {
      MulStep(k, q, p);
    }
  }

  /** An odd multiple of 2^e that is also a multiple of 2^w has e >= w, and e == w exactly when
      the factor is odd. */
  lemma OddPart(o: nat, e: nat, a: nat, w: nat)
    requires o % 2 == 1
    requires o * Pow2(e) == a * Pow2(w)
    ensures e >= w
    ensures e == w <==> a % 2 == 1
  {
    if e < w {
      Pow2Add(w - e, e);
      MulAssoc(a, Pow2(w - e), Pow2(e));
      Cancel(o, a * Pow2(w - e), Pow2(e));
      EvenProduct(a, Pow2(w - e - 1));
      assert false;
    }
    Pow2Add(e - w, w);
    MulAssoc(o, Pow2(e - w), Pow2(w));
    Cancel(o * Pow2(e - w), a, Pow2(w));
    if e > w {
      EvenProduct(o, Pow2(e - w - 1));
    }
  }
}
