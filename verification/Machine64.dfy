/**
 Unsigned 64-bit arithmetic and bit operations as the C++ code uses them,
 written out on natural numbers so that every wrap-around is visible.
 */
module Machine64 {
  const TWO_63: nat := 0x8000_0000_0000_0000
  const TWO_64: nat := 0x1_0000_0000_0000_0000

  type Word = n: nat | n < TWO_64

  /** `a + b` on uint64_t. */
  function Add(a: nat, b: nat): Word {
    (a + b) % TWO_64
  }

  /** `a - b` on uint64_t. */
  function Sub(a: nat, b: nat): Word {
    (a - b) % TWO_64
  }

  /** Bitwise `&`, one binary digit at a time. */
  function And(a: nat, b: nat): nat {
    if a == 0 || b == 0 then 0 else 2 * And(a / 2, b / 2) + (a % 2) * (b % 2)
  }

  function Pow2(k: nat): (p: nat)
    ensures p >= 1
  {
    if k == 0 then 1 else 2 * Pow2(k - 1)
  }

  lemma MulStep(a: nat, b: nat, c: nat)
    requires a < b
    ensures a * c + c <= b * c
  {
    assert b * c == a * c + (b - a) * c;
    assert (b - a - 1) * c >= 0;
    assert (b - a) * c == (b - a - 1) * c + c;
  }

  /** A number has one quotient and one remainder. */
  lemma DivModUnique(q: nat, r: nat, q': nat, r': nat, c: nat)
    requires r < c && r' < c
    requires q * c + r == q' * c + r'
    ensures q == q' && r == r'
  {
    if q < q' {
      MulStep(q, q', c);
    } else if q' < q {
      MulStep(q', q, c);
    }
  }

  lemma RemainderIsUnique(x: nat, c: nat, q: nat, r: nat)
    requires r < c && x == q * c + r
    ensures x / c == q && x % c == r
  {
    assert x == x / c * c + x % c;
    DivModUnique(q, r, x / c, x % c, c);
  }

  /** Cells of a window no longer than the capacity are all different. */
  lemma CellsDiffer(a: nat, b: nat, c: nat)
    requires a < b < a + c
    ensures a % c != b % c
  {
    assert a == a / c * c + a % c && b == b / c * c + b % c;
    if a / c < b / c {
      MulStep(a / c, b / c, c);
    } else if b / c < a / c {
      MulStep(b / c, a / c, c);
    }
  }

  lemma {:induction false} Pow2Adds(a: nat, b: nat)
    ensures Pow2(a + b) == Pow2(a) * Pow2(b)
  {
    if a > 0 {
      Pow2Adds(a - 1, b);
      assert (2 * Pow2(a - 1)) * Pow2(b) == 2 * (Pow2(a - 1) * Pow2(b));
    }
  }

  lemma {:induction false} Pow2Strict(a: nat, b: nat)
    requires a < b
    ensures Pow2(a) < Pow2(b)
  {
    if a + 1 < b {
      Pow2Strict(a, b - 1);
    }
  }

  lemma Pow2Of64()
    ensures Pow2(64) == TWO_64 && Pow2(63) == TWO_63
  {
    assert Pow2(4) == 16;
    Pow2Adds(4, 4);
    Pow2Adds(8, 8);
    Pow2Adds(16, 16);
    Pow2Adds(32, 32);
  }

  lemma AndHalves(x: nat, m: nat)
    requires x > 0 && m > 0
    ensures And(x, m) == 2 * And(x / 2, m / 2) + (x % 2) * (m % 2)
  {
  }

  /** `x & (2^k - 1)` is the remainder modulo `2^k`. */
  lemma {:induction false} MaskIsModulo(x: nat, k: nat)
    ensures And(x, Pow2(k) - 1) == x % Pow2(k)
  {
    if x == 0 || k == 0 {
      RemainderIsUnique(x, Pow2(k), if k == 0 then x else 0, 0);
    } else {
      var h := Pow2(k - 1);
      AndHalves(x, 2 * h - 1);
      MaskIsModulo(x / 2, k - 1);
      DoubleRemainder(x, h);
    }
  }

  lemma DoubleRemainder(x: nat, h: nat)
    requires h > 0
    ensures x % (2 * h) == 2 * ((x / 2) % h) + x % 2
  {
    var y := x / 2;
    var q, r := y / h, y % h;
    assert y == q * h + r;
    assert q * (2 * h) == 2 * (q * h);
    RemainderIsUnique(x, 2 * h, q, 2 * r + x % 2);
  }

  lemma ModOfMod(x: nat, c: nat, d: nat)
    requires c > 0 && d > 0
    ensures c * d > 0 && (x % (c * d)) % c == x % c
  {
    MulStep(0, d, c);
    var m := c * d;
    var q, w := x / m, x % m;
    DivModParts(x, m);
    DivModParts(w, c);
    Factor(q, c, d, w / c);
    RemainderIsUnique(x, c, q * d + w / c, w % c);
  }

  lemma DivModParts(x: nat, c: nat)
    requires c > 0
    ensures x == x / c * c + x % c
  {
  }

  lemma Factor(q: nat, c: nat, d: nat, r: nat)
    ensures (q * d + r) * c == q * (c * d) + r * c
  {
    assert q * (c * d) == (q * d) * c;
    Distribute(q * d, r, c);
  }

  lemma Distribute(a: nat, b: nat, c: nat)
    ensures (a + b) * c == a * c + b * c
  {
  }

  /** Reducing modulo 2^64 first does not change the cell of a power-of-two ring. */
  lemma WrapKeepsCell(x: nat, k: nat)
    requires k <= 63
    ensures Pow2(k) <= TWO_63
    ensures And(x % TWO_64, Pow2(k) - 1) == x % Pow2(k)
  {
    Pow2Of64();
    if k < 63 {
      Pow2Strict(k, 63);
    }
    Pow2Adds(k, 64 - k);
    MaskIsModulo(x % TWO_64, k);
    ModOfMod(x, Pow2(k), Pow2(64 - k));
  }
}
