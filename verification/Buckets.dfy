/**
 The log-linear bucket arithmetic of the latency histogram: which bucket a
 sample falls into and which value a bucket reports.
 */
module Buckets {
  import opened Machine64

  const SUB: nat := 32
  const BUCKETS: nat := 2048

  /** The first sample whose bucket bound no longer fits int64_t: 63 * 2^57. */
  const OVERFLOW: int := 63 * 0x200_0000_0000_0000

  /** The sample, clamped at zero, with its lowest bit set. */
  function Value(ns: int): (v: nat)
    ensures v >= 1 && v % 2 == 1
    ensures if ns < 0 then v == 1 else ns <= v <= ns + 1
  {
    var x := if ns < 0 then 0 else ns;
    x + 1 - x % 2
  }

  /** `63 - clz(v)`: the position of the leading one. */
  function Log2Floor(v: nat): (m: nat)
    requires v >= 1
    ensures Pow2(m) <= v < 2 * Pow2(m)
  {
    if v == 1 then 0 else 1 + Log2Floor(v / 2)
  }

  function IndexOf(v: nat): nat
    requires v >= 1
  {
    var maj := Log2Floor(v);
    var sub := if maj >= 5 then (v / Pow2(maj - 5)) % SUB else v % SUB;
    maj * SUB + sub
  }

  /** The bucket `record` increments. */
  function Index(ns: int): nat {
    IndexOf(Value(ns))
  }

  /** Reduction to int64_t. */
  function ToInt64(x: int): int {
    var w := x % TWO_64;
    if w >= TWO_63 then w - TWO_64 else w
  }

  function Upper(idx: nat): int {
    UpperOf(idx / SUB, idx % SUB)
  }

  function UpperOf(maj: nat, sub: nat): int {
    if maj < 5 then Pow2(maj) + sub
    else ToInt64((SUB + sub + 1) * Pow2(maj - 5))
  }

  lemma Log2Unique(v: nat, m: nat)
    requires v >= 1 && Pow2(m) <= v < 2 * Pow2(m)
    ensures Log2Floor(v) == m
  {
    var n := Log2Floor(v);
    Pow2Gap(n, m);
    Pow2Gap(m, n);
  }

  lemma Pow2Gap(a: nat, b: nat)
    ensures a < b ==> 2 * Pow2(a) <= Pow2(b)
  {
    if a < b {
      Pow2Mono(a + 1, b);
    }
  }

  lemma MulLe(a: nat, b: nat, p: nat)
    ensures a <= b ==> a * p <= b * p
  {
  }

  lemma Pow2Mono(a: nat, b: nat)
    requires a <= b
    ensures Pow2(a) <= Pow2(b)
  {
    if a < b {
      Pow2Strict(a, b);
    }
  }

  lemma Log2Mono(v: nat, w: nat)
    requires 1 <= v <= w
    ensures Log2Floor(v) <= Log2Floor(w)
  {
    if Log2Floor(w) < Log2Floor(v) {
      Pow2Mono(Log2Floor(w) + 1, Log2Floor(v));
    }
  }

  lemma DivBounds(v: nat, p: nat, a: nat, b: nat)
    requires p > 0 && a * p <= v < b * p
    ensures a <= v / p < b
  {
    var q, r := v / p, v % p;
    assert v == q * p + r;
    if q < a {
      MulStep(q, a, p);
    } else if b <= q {
      if b < q {
        MulStep(b, q, p);
      }
    }
  }

  lemma DivMono(v: nat, w: nat, p: nat)
    requires p > 0 && v <= w
    ensures v / p <= w / p
  {
    var q, q' := v / p, w / p;
    assert v == q * p + v % p && w == q' * p + w % p;
    if q' < q {
      MulStep(q', q, p);
    }
  }

  /** Samples of at least 32: the top six bits choose the bucket. */
  lemma Coarse(v: nat) returns (s: nat, p: nat, q: nat)
    requires v >= 32
    ensures p == Pow2(s) && q == v / p && 32 <= q < 64
    ensures Log2Floor(v) == s + 5 && q * p <= v < q * p + p
    ensures IndexOf(v) == (s + 5) * SUB + (q - 32)
  {
    s, p := LeadingBits(v);
    q := CoarseQuotient(v, p);
    IndexOfCoarse(v, s, p, q);
  }

  lemma CoarseQuotient(v: nat, p: nat) returns (q: nat)
    requires p > 0 && 32 * p <= v < 64 * p
    ensures q == v / p && 32 <= q < 64 && q * p <= v < q * p + p
  {
    q := v / p;
    DivBounds(v, p, 32, 64);
    DivParts(v, p);
  }

  lemma IndexOfCoarse(v: nat, s: nat, p: nat, q: nat)
    requires v >= 1 && Log2Floor(v) == s + 5 && p == Pow2(s) && p > 0 && q == v / p && 32 <= q < 64
    ensures IndexOf(v) == (s + 5) * SUB + (q - 32)
  {
    RemainderIsUnique(q, 32, 1, q - 32);
  }

  lemma LeadingBits(v: nat) returns (s: nat, p: nat)
    requires v >= 32
    ensures Log2Floor(v) == s + 5 && p == Pow2(s) && 32 * p <= v < 64 * p
  {
    assert Pow2(5) == 32;
    Pow2Gap(Log2Floor(v), 5);
    s := Log2Floor(v) - 5;
    p := Pow2(s);
    Pow2Adds(5, s);
  }

  lemma DivParts(v: nat, p: nat)
    requires p > 0
    ensures v / p * p <= v < v / p * p + p
  {
    assert v == v / p * p + v % p;
  }

  /** Samples below 32: one bucket per value. */
  lemma Fine(v: nat)
    requires 1 <= v < 32
    ensures Log2Floor(v) < 5 && IndexOf(v) == Log2Floor(v) * SUB + v
  {
    assert Pow2(5) == 32;
    if Log2Floor(v) >= 5 {
      Pow2Mono(5, Log2Floor(v));
    }
  }

  /** Larger samples never fall into an earlier bucket. */
  lemma IndexMono(v: nat, w: nat)
    requires 1 <= v <= w
    ensures IndexOf(v) <= IndexOf(w)
  {
    if v >= 32 {
      IndexMonoCoarse(v, w);
    } else {
      Fine(v);
      if w < 32 {
        Fine(w);
        Log2Mono(v, w);
      } else {
        var s, p, q := Coarse(w);
      }
    }
  }

  lemma IndexMonoCoarse(v: nat, w: nat)
    requires 32 <= v <= w
    ensures IndexOf(v) <= IndexOf(w)
  {
    var s, p, q := Coarse(v);
    var s', p', q' := Coarse(w);
    Log2Mono(v, w);
    assert p' == p ==> q <= q' by {
      DivMono(v, w, p);
    }
    IndexOrder(s, q, s', q');
  }

  lemma IndexOrder(s: nat, q: nat, s': nat, q': nat)
    requires 32 <= q < 64 && 32 <= q' < 64 && s <= s' && (s == s' ==> q <= q')
    ensures (s + 5) * SUB + (q - 32) <= (s' + 5) * SUB + (q' - 32)
  {
  }

  lemma IndexInRange(ns: int)
    requires ns < TWO_63
    ensures Index(ns) < 63 * SUB
  {
    var v := Value(ns);
    Pow2Of64();
    Pow2Gap(62, Log2Floor(v));
    if v < 32 {
      Fine(v);
    } else {
      var s, p, q := Coarse(v);
    }
  }

  /** The exact bound the bucket of such a sample reports. */
  lemma UpperOfCoarse(idx: nat, s: nat, q: nat)
    requires 32 <= q < 64 && idx == (s + 5) * SUB + (q - 32)
    ensures Upper(idx) == ToInt64(q * Pow2(s) + Pow2(s))
  {
    RemainderIsUnique(idx, SUB, s + 5, q - 32);
    assert (SUB + (q - 32) + 1) * Pow2(s) == q * Pow2(s) + Pow2(s);
  }

  lemma FineUpper(v: nat)
    requires 1 <= v < 32
    ensures Upper(IndexOf(v)) == Pow2(Log2Floor(v)) + v
  {
    Fine(v);
    RemainderIsUnique(IndexOf(v), 32, Log2Floor(v), v);
  }

  lemma Powers()
    ensures Pow2(0) == 1 && Pow2(1) == 2 && Pow2(2) == 4 && Pow2(3) == 8 && Pow2(4) == 16 && Pow2(5) == 32
    ensures 64 * Pow2(57) == TWO_63 && 63 * Pow2(57) == OVERFLOW
  {
    Pow2Of64();
    assert Pow2(6) == 64;
    Pow2Adds(57, 6);
  }

  /** Below the overflow bound no reported value wraps. */
  lemma NoWrap(v: nat, s: nat, p: nat, q: nat)
    requires p == Pow2(s) && 32 <= q < 64 && q * p <= v < q * p + p && v < OVERFLOW
    ensures q * p + p < TWO_63
  {
    Powers();
    Pow2Gap(s, 57);
    Pow2Gap(57, s);
    MulLe(32, q, p);
    MulLe(q, 63, p);
    MulLe(63, q, p);
    MulLe(q, 62, p);
  }

  /** The reported value of a sample of at least 32, when it does not wrap. */
  lemma CoarseReport(v: nat) returns (s: nat, p: nat, q: nat)
    requires 32 <= v < OVERFLOW
    ensures p == Pow2(s) && 32 <= q < 64 && Log2Floor(v) == s + 5 && q * p <= v < q * p + p
    ensures Upper(IndexOf(v)) == q * p + p && 32 * p <= q * p && q * p + p <= 64 * p
  {
    s, p, q := Coarse(v);
    UpperOfCoarse(IndexOf(v), s, q);
    NoWrap(v, s, p, q);
    Unwrapped(q * p + p);
    MulLe(32, q, p);
    MulLe(q, 63, p);
  }

  lemma Unwrapped(x: int)
    ensures 0 <= x < TWO_63 ==> ToInt64(x) == x
    ensures x == TWO_63 ==> ToInt64(x) == -(TWO_63 as int)
  {
  }

  /**
   What a percentile may report for a sample: more than its value, by at most
   one part in 32 (for values of at least 32), at most twofold below that.
   */
  lemma ReportedBound(ns: int)
    requires ns < OVERFLOW
    ensures var v, u := Value(ns), Upper(Index(ns));
      v < u <= (if v >= 32 then v + v / 32 else 2 * v)
  {
    var v := Value(ns);
    if v < 32 {
      FineUpper(v);
    } else {
      var s, p, q := CoarseReport(v);
    }
  }

  /** From the overflow bound on, the reported value is the smallest int64_t. */
  lemma ReportedWraps(ns: int)
    requires OVERFLOW <= ns < TWO_63
    ensures Upper(Index(ns)) == -(TWO_63 as int)
  {
    var v := Value(ns);
    Powers();
    Pow2Of64();
    Pow2Adds(57, 5);
    Log2Unique(v, 62);
    var s, p, q := Coarse(v);
    UpperOfCoarse(IndexOf(v), s, q);
    MulLe(q, 62, p);
    Unwrapped(q * p + p);
  }

  /** Where a larger sample can be reported lower: only from major 4 into major 5. */
  predicate Inverted(v: nat, w: nat) {
    16 <= v < 32 <= w < 64 && 16 + v > w + 1
  }

  /** Two ordered samples are reported in order: outside that corner, and not across the overflow bound. */
  predicate InOrder(x: int, y: int) {
    if y < OVERFLOW then !Inverted(Value(x), Value(y)) else x >= OVERFLOW
  }

  lemma UpperOrder(x: int, y: int)
    requires x <= y < TWO_63
    ensures Upper(Index(x)) <= Upper(Index(y)) <==> InOrder(x, y)
  {
    if y < OVERFLOW {
      OrderBelow(x, y);
    } else {
      ReportedWraps(y);
      if x < OVERFLOW {
        ReportedBound(x);
      } else {
        ReportedWraps(x);
      }
    }
  }

  lemma OrderBelow(x: int, y: int)
    requires x <= y < OVERFLOW
    ensures Upper(Index(x)) <= Upper(Index(y)) <==> !Inverted(Value(x), Value(y))
  {
    var v, w := Value(x), Value(y);
    assert v <= w < OVERFLOW;
    Log2Mono(v, w);
    if w < 32 {
      FineUpper(v);
      FineUpper(w);
      Pow2Mono(Log2Floor(v), Log2Floor(w));
    } else if v >= 32 {
      CoarseOrder(v, w);
    } else {
      FineBelowCoarse(v, w);
    }
  }

  lemma CoarseOrder(v: nat, w: nat)
    requires 32 <= v <= w < OVERFLOW
    ensures Upper(IndexOf(v)) <= Upper(IndexOf(w))
  {
    var s, p, q := CoarseReport(v);
    var s', p', q' := CoarseReport(w);
    Log2Mono(v, w);
    Pow2Gap(s, s');
    MulLe(q, q', p);
    if s == s' && q' < q {
      MulStep(q', q, p);
    }
  }

  lemma FineBelowCoarse(v: nat, w: nat)
    requires 1 <= v < 32 <= w < OVERFLOW && v % 2 == 1 && w % 2 == 1
    ensures Upper(IndexOf(v)) <= Upper(IndexOf(w)) <==> !Inverted(v, w)
  {
    Powers();
    FineUpper(v);
    var s, p, q := CoarseReport(w);
    var m := Log2Floor(v);
    Pow2Gap(m, 4);
    Pow2Gap(4, m);
    if w < 64 {
      Log2Unique(w, 5);
      assert s == 0 && q * 1 == w;
    } else {
      Pow2Gap(5, s + 5);
      Pow2Gap(0, s);
      MulLe(q, 63, p);
    }
  }
}
