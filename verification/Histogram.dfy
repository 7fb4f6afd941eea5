/**
 The latency histogram: recording, and the percentile snapshot that walks the
 buckets while other threads keep recording.
 */
module Histogram {
  import opened Machine64
  import opened Buckets

  // ----------------------- counting samples by bucket -----------------------

  /** Samples that fall into bucket `i`. */
  ghost function CountAt(xs: seq<int>, i: nat): nat {
    if xs == [] then 0 else CountAt(xs[..|xs| - 1], i) + (if Index(xs[|xs| - 1]) == i then 1 else 0)
  }

  /** Samples that fall into a bucket below `i`. */
  ghost function CountBelow(xs: seq<int>, i: nat): nat {
    if xs == [] then 0 else CountBelow(xs[..|xs| - 1], i) + (if Index(xs[|xs| - 1]) < i then 1 else 0)
  }

  ghost function CountLess(xs: seq<int>, x: int): nat {
    if xs == [] then 0 else CountLess(xs[..|xs| - 1], x) + (if xs[|xs| - 1] < x then 1 else 0)
  }

  ghost function CountAtMost(xs: seq<int>, x: int): nat {
    if xs == [] then 0 else CountAtMost(xs[..|xs| - 1], x) + (if xs[|xs| - 1] <= x then 1 else 0)
  }

  /** `x` is the `r`-th smallest sample. */
  ghost predicate IsRanked(xs: seq<int>, r: nat, x: int) {
    x in xs && CountLess(xs, x) < r <= CountAtMost(xs, x)
  }

  ghost predicate NonNegative(xs: seq<int>) {
    forall x | x in xs :: 0 <= x < TWO_63
  }

  lemma Prefix(xs: seq<int>)
    requires NonNegative(xs) && xs != []
    ensures NonNegative(xs[..|xs| - 1]) && 0 <= xs[|xs| - 1] < TWO_63
  {
    var init := xs[..|xs| - 1];
    assert xs[|xs| - 1] in xs && forall x :: x in init ==> x in xs;
  }

  lemma CountSnoc(xs: seq<int>, x: int, i: nat)
    ensures CountAt(xs + [x], i) == CountAt(xs, i) + (if Index(x) == i then 1 else 0)
    ensures CountBelow(xs + [x], i) == CountBelow(xs, i) + (if Index(x) < i then 1 else 0)
  {
    assert (xs + [x])[..|xs|] == xs;
  }

  lemma {:induction false} BelowStep(xs: seq<int>, i: nat)
    ensures CountBelow(xs, i + 1) == CountBelow(xs, i) + CountAt(xs, i)
  {
    if xs != [] {
      BelowStep(xs[..|xs| - 1], i);
    }
  }

  lemma {:induction false} BelowBounds(xs: seq<int>)
    requires NonNegative(xs)
    ensures CountBelow(xs, 0) == 0 && CountBelow(xs, BUCKETS) == |xs|
    ensures forall i | 63 * SUB <= i :: CountAt(xs, i) == 0
  {
    if xs != [] {
      Prefix(xs);
      IndexInRange(xs[|xs| - 1]);
      BelowBounds(xs[..|xs| - 1]);
    }
  }

  /** Buckets respect the order of the samples. */
  lemma {:induction false} BelowAgainstSamples(xs: seq<int>, x: int)
    requires NonNegative(xs) && 0 <= x
    ensures CountBelow(xs, Index(x)) <= CountLess(xs, x)
    ensures CountAtMost(xs, x) <= CountBelow(xs, Index(x) + 1)
  {
    if xs != [] {
      var y := xs[|xs| - 1];
      Prefix(xs);
      BelowAgainstSamples(xs[..|xs| - 1], x);
      if y <= x {
        IndexMono(Value(y), Value(x));
      } else {
        IndexMono(Value(x), Value(y));
      }
    }
  }

  // ------------------------------ percentiles ------------------------------

  datatype Percentiles = Percentiles(p50: int, p90: int, p99: int, max: int, count: nat)

  /** The bucket in which the running count first reaches `t`. */
  ghost predicate Reaches(xs: seq<int>, t: nat, i: nat) {
    CountBelow(xs, i) < t <= CountBelow(xs, i + 1)
  }

  /** `ceil(k * n / 100)`, the rank of the k-th percentile. */
  function Rank(k: nat, n: nat): nat {
    (n * k + 99) / 100
  }

  lemma {:induction false} BelowMono(xs: seq<int>, i: nat, j: nat)
    requires i <= j
    ensures CountBelow(xs, i) <= CountBelow(xs, j)
    decreases j - i
  {
    if i < j {
      BelowStep(xs, i);
      BelowMono(xs, i + 1, j);
    }
  }

  lemma ReachesOnce(xs: seq<int>, t: nat, i: nat, j: nat)
    requires Reaches(xs, t, i) && Reaches(xs, t, j)
    ensures i == j
  {
    if i < j {
      BelowMono(xs, i + 1, j);
    } else if j < i {
      BelowMono(xs, j + 1, i);
    }
  }

  /** The bucket that reaches rank `r` is the bucket of the r-th smallest sample. */
  lemma RankedReaches(xs: seq<int>, r: nat, x: int)
    requires NonNegative(xs) && IsRanked(xs, r, x)
    ensures Reaches(xs, r, Index(x))
  {
    BelowAgainstSamples(xs, x);
  }

  /** `p` is the bound of the bucket that holds the `r`-th smallest sample. */
  ghost predicate Percentile(xs: seq<int>, r: nat, p: int) {
    forall x | IsRanked(xs, r, x) :: p == Upper(Index(x))
  }

  /** What a snapshot over the samples `xs` must report. */
  ghost predicate Reports(xs: seq<int>, out: Percentiles) {
    && out.count == |xs|
    && (xs == [] ==> out.p50 == 0 && out.p90 == 0 && out.p99 == 0)
    && (xs != [] ==>
          && Percentile(xs, Rank(50, |xs|), out.p50)
          && Percentile(xs, Rank(90, |xs|), out.p90)
          && Percentile(xs, Rank(99, |xs|), out.p99))
  }

  /**
   `x` is the k-th percentile sample: fewer than k per cent of the samples are
   smaller, and at least k per cent are not larger.
   */
  ghost predicate IsPercentileOf(xs: seq<int>, k: nat, x: int) {
    && x in xs
    && 100 * |set i | 0 <= i < |xs| && xs[i] < x| < k * |xs|
    && k * |xs| <= 100 * |set i | 0 <= i < |xs| && xs[i] <= x|
  }

  lemma CountStep(xs: seq<int>, n: nat, x: int)
    requires n < |xs|
    ensures CountLess(xs[..n + 1], x) == CountLess(xs[..n], x) + if xs[n] < x then 1 else 0
    ensures CountAtMost(xs[..n + 1], x) == CountAtMost(xs[..n], x) + if xs[n] <= x then 1 else 0
  {
    assert xs[..n + 1][..n] == xs[..n];
  }

  lemma SizeStep(xs: seq<int>, n: nat, x: int)
    requires n < |xs|
    ensures |set i | 0 <= i < n + 1 && xs[i] < x| == |set i | 0 <= i < n && xs[i] < x| + if xs[n] < x then 1 else 0
    ensures |set i | 0 <= i < n + 1 && xs[i] <= x| == |set i | 0 <= i < n && xs[i] <= x| + if xs[n] <= x then 1 else 0
  {
    var less, less' := set i | 0 <= i < n && xs[i] < x, set i | 0 <= i < n + 1 && xs[i] < x;
    assert less' == if xs[n] < x then less + {n} else less;
    var most, most' := set i | 0 <= i < n && xs[i] <= x, set i | 0 <= i < n + 1 && xs[i] <= x;
    assert most' == if xs[n] <= x then most + {n} else most;
  }

  lemma {:induction false} CountsAreSizes(xs: seq<int>, n: nat, x: int)
    requires n <= |xs|
    ensures CountLess(xs[..n], x) == |set i | 0 <= i < n && xs[i] < x|
    ensures CountAtMost(xs[..n], x) == |set i | 0 <= i < n && xs[i] <= x|
  {
    if n > 0 {
      var m := n - 1;
      CountsAreSizes(xs, m, x);
      CountStep(xs, m, x);
      SizeStep(xs, m, x);
    }
  }

  /** The sample of the rank the walk looks for is the percentile sample. */
  lemma RankedIsPercentile(xs: seq<int>, k: nat, x: int)
    ensures IsRanked(xs, Rank(k, |xs|), x) <==> IsPercentileOf(xs, k, x)
  {
    CountsAreSizes(xs, |xs|, x);
    assert xs[..|xs|] == xs;
    CeilingBetween(|xs| * k, CountLess(xs, x), CountAtMost(xs, x));
  }

  lemma CeilingBetween(n: nat, a: nat, b: nat)
    ensures a < (n + 99) / 100 <= b <==> 100 * a < n <= 100 * b
  {
  }

  /** The value reported for k per cent is the bound of the bucket of every k-th percentile sample. */
  ghost predicate ReportsFor(xs: seq<int>, k: nat, p: int) {
    forall x | IsPercentileOf(xs, k, x) :: p == Upper(Index(x))
  }

  /** So that is what a snapshot reports, and there is such a sample for each. */
  lemma ReportsPercentiles(xs: seq<int>, out: Percentiles) returns (x50: int, x90: int, x99: int)
    requires xs != [] && Reports(xs, out)
    ensures ReportsFor(xs, 50, out.p50) && ReportsFor(xs, 90, out.p90) && ReportsFor(xs, 99, out.p99)
    ensures IsPercentileOf(xs, 50, x50) && IsPercentileOf(xs, 90, x90) && IsPercentileOf(xs, 99, x99)
  {
    RanksInOrder(|xs|);
    x50 := PercentileReported(xs, 50, out.p50);
    x90 := PercentileReported(xs, 90, out.p90);
    x99 := PercentileReported(xs, 99, out.p99);
  }

  lemma PercentileReported(xs: seq<int>, k: nat, p: int) returns (x: int)
    requires Percentile(xs, Rank(k, |xs|), p) && 1 <= Rank(k, |xs|) <= |xs|
    ensures ReportsFor(xs, k, p) && IsPercentileOf(xs, k, x)
  {
    forall y | IsPercentileOf(xs, k, y) ensures p == Upper(Index(y)) {
      RankedIsPercentile(xs, k, y);
    }
    x := RankedExists(xs, Rank(k, |xs|));
    RankedIsPercentile(xs, k, x);
  }

  lemma {:induction false} LargestBelow(xs: seq<int>, x: int) returns (y: int)
    requires CountLess(xs, x) > 0
    ensures y in xs && y < x && CountAtMost(xs, y) == CountLess(xs, x)
  {
    var init, z := xs[..|xs| - 1], xs[|xs| - 1];
    if CountLess(init, x) == 0 {
      y := z;
      NoneLess(init, x, y);
    } else {
      y := LargestBelow(init, x);
      if y < z < x {
        SameBelow(init, x, y, z);
        y := z;
      }
    }
  }

  lemma {:induction false} NoneLess(xs: seq<int>, x: int, y: int)
    requires CountLess(xs, x) == 0 && y < x
    ensures CountAtMost(xs, y) == 0
  {
    if xs != [] {
      NoneLess(xs[..|xs| - 1], x, y);
    }
  }

  /** Between the largest sample below `x` and `x` there is nothing to count. */
  lemma SameBelow(xs: seq<int>, x: int, y: int, z: int)
    requires y <= z < x && CountAtMost(xs, y) == CountLess(xs, x)
    ensures CountAtMost(xs, z) == CountLess(xs, x)
  {
    CountOrder(xs, y, z, x);
  }

  lemma {:induction false} CountOrder(xs: seq<int>, y: int, z: int, x: int)
    requires y <= z < x
    ensures CountAtMost(xs, y) <= CountAtMost(xs, z) <= CountLess(xs, x)
  {
    if xs != [] {
      CountOrder(xs[..|xs| - 1], y, z, x);
    }
  }

  lemma {:induction false} RankedBelow(xs: seq<int>, r: nat, x: int) returns (y: int)
    requires 1 <= r <= CountAtMost(xs, x) && x in xs
    ensures IsRanked(xs, r, y)
    decreases CountLess(xs, x)
  {
    if CountLess(xs, x) < r {
      y := x;
    } else {
      var z := LargestBelow(xs, x);
      CountOrder(xs, z, z, x);
      LessIsFewer(xs, z);
      y := RankedBelow(xs, r, z);
    }
  }

  lemma {:induction false} LessIsFewer(xs: seq<int>, z: int)
    ensures CountLess(xs, z) <= CountAtMost(xs, z)
    ensures z in xs ==> CountLess(xs, z) < CountAtMost(xs, z)
  {
    if xs != [] {
      LessIsFewer(xs[..|xs| - 1], z);
      assert xs == xs[..|xs| - 1] + [xs[|xs| - 1]];
    }
  }

  lemma {:induction false} Maximum(xs: seq<int>) returns (x: int)
    requires xs != []
    ensures x in xs && CountAtMost(xs, x) == |xs|
  {
    var init, z := xs[..|xs| - 1], xs[|xs| - 1];
    assert xs == init + [z];
    if init == [] {
      x := z;
    } else {
      x := Maximum(init);
      if x < z {
        CountOrder(init, x, z, z + 1);
        CountAll(init, z);
        x := z;
      }
    }
  }

  lemma {:induction false} CountAll(xs: seq<int>, z: int)
    ensures CountAtMost(xs, z) <= |xs|
  {
    if xs != [] {
      CountAll(xs[..|xs| - 1], z);
    }
  }

  /** Every rank from 1 to n belongs to some sample. */
  lemma RankedExists(xs: seq<int>, r: nat) returns (x: int)
    requires 1 <= r <= |xs|
    ensures IsRanked(xs, r, x)
  {
    var m := Maximum(xs);
    x := RankedBelow(xs, r, m);
  }

  /**
   Nearest-rank accuracy. For each percentile k there is a k-th percentile sample
   x, and the reported value exceeds v = x|1 by at most v/32 (twofold below 32).
   */
  lemma PercentileAccuracy(xs: seq<int>, out: Percentiles, k: nat) returns (x: int)
    requires NonNegative(xs) && xs != [] && Reports(xs, out) && k in {50, 90, 99}
    requires forall y | y in xs :: y < OVERFLOW
    ensures IsRanked(xs, Rank(k, |xs|), x) && IsPercentileOf(xs, k, x)
    ensures var v, p := Value(x), if k == 50 then out.p50 else if k == 90 then out.p90 else out.p99;
      v < p <= if v >= 32 then v + v / 32 else 2 * v
  {
    RanksInOrder(|xs|);
    x := RankedExists(xs, Rank(k, |xs|));
    RankedIsPercentile(xs, k, x);
    ReportedBound(x);
  }

  lemma {:induction false} RanksOrdered(xs: seq<int>, r: nat, x: int, t: nat, y: int)
    requires r <= t && IsRanked(xs, r, x) && IsRanked(xs, t, y)
    ensures x <= y
  {
    if y < x {
      CountOrder(xs, y, y, x);
    }
  }

  /** Two reported percentiles are in order exactly when the bounds of their samples are. */
  lemma PercentilesOrdered(xs: seq<int>, r: nat, x: int, t: nat, y: int)
    requires r <= t && IsRanked(xs, r, x) && IsRanked(xs, t, y) && y < TWO_63
    ensures Upper(Index(x)) <= Upper(Index(y)) <==> InOrder(x, y)
  {
    RanksOrdered(xs, r, x, t, y);
    UpperOrder(x, y);
  }

  lemma RanksInOrder(n: nat)
    requires n >= 1
    ensures 1 <= Rank(50, n) <= Rank(90, n) <= Rank(99, n) <= n
  {
    HundredthsOrdered(100, n * 50 + 99);
    HundredthsOrdered(n * 50 + 99, n * 90 + 99);
    HundredthsOrdered(n * 90 + 99, n * 99 + 99);
    HundredthsOrdered(n * 99 + 99, n * 100);
  }

  lemma HundredthsOrdered(x: nat, y: nat)
    ensures x <= y ==> x / 100 <= y / 100
    ensures x % 100 == 0 ==> (x / 100) * 100 == x
    ensures y < x + 100 && x % 100 == 0 ==> y / 100 <= x / 100
  {
  }

  /**
   The order of the reported percentiles: each pair is in order exactly when the
   samples of those ranks avoid the corner between majors 4 and 5 and lie on the
   same side of the overflow bound. So p50 <= p90 <= p99 whenever every sample is
   at least 32 and below that bound.
   */
  lemma ReportedInOrder(xs: seq<int>, out: Percentiles) returns (x50: int, x90: int, x99: int)
    requires NonNegative(xs) && xs != [] && Reports(xs, out)
    ensures IsPercentileOf(xs, 50, x50) && IsPercentileOf(xs, 90, x90) && IsPercentileOf(xs, 99, x99)
    ensures out.p50 <= out.p90 <==> InOrder(x50, x90)
    ensures out.p90 <= out.p99 <==> InOrder(x90, x99)
    ensures (forall y | y in xs :: 32 <= y < OVERFLOW) ==> out.p50 <= out.p90 <= out.p99
  {
    var n := |xs|;
    RanksInOrder(n);
    x50 := RankedExists(xs, Rank(50, n));
    x90 := RankedExists(xs, Rank(90, n));
    x99 := RankedExists(xs, Rank(99, n));
    PercentilesOrdered(xs, Rank(50, n), x50, Rank(90, n), x90);
    PercentilesOrdered(xs, Rank(90, n), x90, Rank(99, n), x99);
    RankedIsPercentile(xs, 50, x50);
    RankedIsPercentile(xs, 90, x90);
    RankedIsPercentile(xs, 99, x99);
  }

  // ------------------------- reading while recording -------------------------

  /**
   The samples a snapshot sees when bucket `i` is loaded after the first `t[i]`
   samples of the history `h` were recorded.
   */
  ghost function Seen(h: seq<int>, t: seq<nat>): seq<int>
    requires forall x | x in h :: Index(x) < |t|
  {
    if h == [] then []
    else
      var n := |h| - 1;
      assert h[n] in h && forall x | x in h[..n] :: x in h;
      Seen(h[..n], t) + (if n < t[Index(h[n])] then [h[n]] else [])
  }

  ghost function Min(a: nat, b: nat): nat {
    if a < b then a else b
  }

  /** Bucket by bucket, the snapshot holds exactly what had been recorded when it was loaded. */
  lemma {:induction false} SeenCounts(h: seq<int>, t: seq<nat>, i: nat)
    requires (forall x | x in h :: Index(x) < |t|) && i < |t|
    ensures CountAt(Seen(h, t), i) == CountAt(h[..Min(t[i], |h|)], i)
  {
    if h != [] {
      var n := |h| - 1;
      assert h[n] in h && forall x | x in h[..n] :: x in h;
      SeenCounts(h[..n], t, i);
      var x := h[n];
      TakeOneMore(h, t[i]);
      AppendIf(Seen(h[..n], t), x, n < t[Index(x)], i);
      AppendIf(h[..n][..Min(t[i], n)], x, n < t[i], i);
    }
  }

  lemma AppendIf(xs: seq<int>, x: int, c: bool, i: nat)
    ensures CountAt(xs + (if c then [x] else []), i) == CountAt(xs, i) + (if c && Index(x) == i then 1 else 0)
  {
    if c {
      CountSnoc(xs, x, i);
    } else {
      assert xs + [] == xs;
    }
  }

  /** It contains every sample recorded before the copy began and only samples recorded before it ended. */
  lemma {:induction false} SeenBetween(h: seq<int>, t: seq<nat>, lo: nat, hi: nat)
    requires forall x | x in h :: Index(x) < |t|
    requires forall i | 0 <= i < |t| :: lo <= t[i] <= hi
    ensures multiset(h[..Min(lo, |h|)]) <= multiset(Seen(h, t)) <= multiset(h[..Min(hi, |h|)])
  {
    if h != [] {
      var n := |h| - 1;
      var before, x := SeenSnoc(h, t);
      SeenBetween(h[..n], t, lo, hi);
      BetweenSnoc(h, before, lo, hi, n < t[Index(x)]);
    }
  }

  lemma SeenSnoc(h: seq<int>, t: seq<nat>) returns (before: seq<int>, x: int)
    requires h != [] && forall x | x in h :: Index(x) < |t|
    ensures forall y | y in h[..|h| - 1] :: y in h
    ensures x == h[|h| - 1] && x in h && before == Seen(h[..|h| - 1], t)
    ensures Seen(h, t) == before + if |h| - 1 < t[Index(x)] then [x] else []
  {
    x := h[|h| - 1];
    before := Seen(h[..|h| - 1], t);
  }

  lemma BetweenSnoc(h: seq<int>, before: seq<int>, lo: nat, hi: nat, seen: bool)
    requires h != [] && (|h| - 1 < lo ==> seen) && (seen ==> |h| - 1 < hi)
    requires var init, n := h[..|h| - 1], |h| - 1;
      multiset(init[..Min(lo, n)]) <= multiset(before) <= multiset(init[..Min(hi, n)])
    ensures var after := before + if seen then [h[|h| - 1]] else [];
      multiset(h[..Min(lo, |h|)]) <= multiset(after) <= multiset(h[..Min(hi, |h|)])
  {
    var n := |h| - 1;
    TakeOneMore(h, lo);
    TakeOneMore(h, hi);
    MoreOfOne(h[..n][..Min(lo, n)], before, h[n], n < lo, seen);
    MoreOfOne(before, h[..n][..Min(hi, n)], h[n], seen, n < hi);
  }

  lemma MoreOfOne(a: seq<int>, b: seq<int>, x: int, p: bool, q: bool)
    requires multiset(a) <= multiset(b) && (p ==> q)
    ensures multiset(a + if p then [x] else []) <= multiset(b + if q then [x] else [])
  {
    assert a + [] == a && b + [] == b;
  }

  lemma TakeOneMore(h: seq<int>, m: nat)
    requires h != []
    ensures var n := |h| - 1;
      h[..Min(m, |h|)] == h[..n][..Min(m, n)] + if n < m then [h[n]] else []
  {
  }

  // ------------------------------ the object ------------------------------

  function Clamp(ns: int): int {
    if ns < 0 then 0 else ns
  }

  /** The atomic steps of `record`, each done by some thread. */
  datatype Atom =
    | Bucketed(ns: int)   // the bucket is incremented
    | Counted             // the count is incremented
    | Offered(ns: int)    // the maximum is raised to at least this

  /** The samples bucketed, the number counted and the values offered to the maximum so far. */
  datatype History = History(samples: seq<int>, count: nat, offers: seq<int>)

  function After(h: History, a: Atom): History {
    match a
    case Bucketed(ns) => h.(samples := h.samples + [Clamp(ns)])
    case Counted => h.(count := h.count + 1)
    case Offered(ns) => h.(offers := h.offers + [Clamp(ns)])
  }

  function AfterAll(h: History, atoms: seq<Atom>): History {
    if atoms == [] then h else After(AfterAll(h, atoms[..|atoms| - 1]), atoms[|atoms| - 1])
  }

  /** All arrivals, in the order in which they happen. */
  function Flatten(arrivals: seq<seq<Atom>>): seq<Atom> {
    if arrivals == [] then [] else Flatten(arrivals[..|arrivals| - 1]) + arrivals[|arrivals| - 1]
  }

  lemma {:induction false} AfterConcat(h: History, a: seq<Atom>, b: seq<Atom>)
    ensures AfterAll(h, a + b) == AfterAll(AfterAll(h, a), b)
  {
    if b == [] {
      assert a + b == a;
    } else {
      AfterConcat(h, a, b[..|b| - 1]);
      assert (a + b)[..|a + b| - 1] == a + b[..|b| - 1] && (a + b)[|a + b| - 1] == b[|b| - 1];
    }
  }

  lemma {:induction false} HistoryGrows(h: History, atoms: seq<Atom>)
    ensures h.samples <= AfterAll(h, atoms).samples && h.offers <= AfterAll(h, atoms).offers
  {
    if atoms != [] {
      HistoryGrows(h, atoms[..|atoms| - 1]);
    }
  }

  /** `max` is the largest value offered, 0 before any. */
  ghost predicate IsLargest(max: int, offers: seq<int>) {
    (forall x | x in offers :: x <= max) && max >= 0 && (max == 0 || max in offers)
  }

  /** No `record` is under way: every sample bucketed was counted and offered, and nothing else was. */
  ghost predicate Complete(h: History) {
    h.count == |h.samples| && multiset(h.offers) == multiset(h.samples)
  }

  /** Then the maximum is the largest sample. */
  lemma CompleteMaximum(max: int, h: History)
    requires IsLargest(max, h.offers) && Complete(h)
    ensures IsLargest(max, h.samples)
  {
    forall x | x in h.samples ensures x <= max {
      SameElements(h.samples, h.offers, x);
    }
    SameElements(h.samples, h.offers, max);
  }

  lemma SameElements(a: seq<int>, b: seq<int>, x: int)
    requires multiset(a) == multiset(b)
    ensures x in a <==> x in b
  {
    assert x in a <==> x in multiset(a);
    assert x in b <==> x in multiset(b);
  }

  /** The three steps of one `record` together. */
  function RecordAtoms(ns: int): seq<Atom> {
    [Bucketed(ns), Counted] + [Offered(ns)]
  }

  lemma RecordSteps(h: History, ns: int) returns (h': History)
    ensures h' == AfterAll(h, RecordAtoms(ns))
    ensures var x := if ns < 0 then 0 else ns; h' == History(h.samples + [x], h.count + 1, h.offers + [x])
    ensures Complete(h) ==> Complete(h')
  {
    h' := History(h.samples + [Clamp(ns)], h.count + 1, h.offers + [Clamp(ns)]);
    AfterOne(h, [Bucketed(ns), Counted], Offered(ns));
    AfterTwo(h, ns);
  }

  lemma AfterTwo(h: History, ns: int)
    ensures AfterAll(h, [Bucketed(ns), Counted]) == h.(samples := h.samples + [Clamp(ns)], count := h.count + 1)
  {
    assert [Bucketed(ns)] + [Counted] == [Bucketed(ns), Counted] && [] + [Bucketed(ns)] == [Bucketed(ns)];
    AfterOne(h, [Bucketed(ns)], Counted);
    AfterOne(h, [], Bucketed(ns));
  }

  lemma AfterOne(h: History, atoms: seq<Atom>, a: Atom)
    ensures AfterAll(h, atoms + [a]) == After(AfterAll(h, atoms), a)
  {
    assert (atoms + [a])[..|atoms|] == atoms;
  }

  ghost function Sum(s: seq<nat>): nat {
    if s == [] then 0 else Sum(s[..|s| - 1]) + s[|s| - 1]
  }

  lemma {:induction false} SumIsBelow(xs: seq<int>, local: seq<nat>)
    requires forall j | 0 <= j < |local| :: local[j] == CountAt(xs, j)
    requires NonNegative(xs)
    ensures Sum(local) == CountBelow(xs, |local|)
  {
    if local == [] {
      BelowBounds(xs);
    } else {
      SumIsBelow(xs, local[..|local| - 1]);
      BelowStep(xs, |local| - 1);
    }
  }

  /** A percentile variable during the walk: zero until its rank is reached, then the bound of that bucket. */
  ghost predicate Found(xs: seq<int>, t: nat, i: nat, p: int) {
    if CountBelow(xs, i) < t then p == 0
    else p != 0 && exists j :: 0 <= j < i && Reaches(xs, t, j) && p == Upper(j)
  }

  lemma UpperNonzero(i: nat)
    requires i < 63 * SUB
    ensures Upper(i) != 0
  {
    var maj, sub := i / SUB, i % SUB;
    if maj >= 5 {
      var s, q := maj - 5, sub + 32;
      UpperOfCoarse(i, s, q);
      CoarseNonzero(s, Pow2(s), q);
    }
  }

  lemma CoarseNonzero(s: nat, p: nat, q: nat)
    requires s <= 57 && p == Pow2(s) && 32 <= q < 64
    ensures ToInt64(q * p + p) != 0
  {
    Powers();
    Pow2Mono(s, 57);
    MulLe(0, q, p);
    MulLe(q, 63, p);
    Unwrapped(q * p + p);
  }

  /** Advancing the walk by bucket `i`. */
  lemma FoundStep(xs: seq<int>, t: nat, i: nat, p: int)
    requires NonNegative(xs) && 1 <= t && Found(xs, t, i, p)
    ensures Found(xs, t, i + 1, if p == 0 && CountBelow(xs, i + 1) >= t then Upper(i) else p)
  {
    BelowStep(xs, i);
    if CountBelow(xs, i) < t <= CountBelow(xs, i + 1) {
      BelowBounds(xs);
      assert i < 63 * SUB;
      UpperNonzero(i);
      assert Reaches(xs, t, i);
    }
  }

  lemma FoundReports(xs: seq<int>, t: nat, i: nat, p: int)
    requires NonNegative(xs) && Found(xs, t, i, p) && CountBelow(xs, i) >= t
    ensures Percentile(xs, t, p)
  {
    var j :| 0 <= j < i && Reaches(xs, t, j) && p == Upper(j);
    forall x | IsRanked(xs, t, x) ensures p == Upper(Index(x)) {
      RankedReaches(xs, t, x);
      ReachesOnce(xs, t, j, Index(x));
    }
  }

  /** The rank the walk looks for, computed on uint64_t. */
  function Target(total: nat, k: nat): nat {
    ((total * k) % TWO_64 + 99) % TWO_64 / 100
  }

  /** Below 2^64/99 samples the targets are the ranks, in order, and no rank is zero. */
  lemma TargetsAreRanks(n: nat)
    requires 1 <= n && n * 99 + 99 < TWO_64
    ensures Target(n, 50) == Rank(50, n) && Target(n, 90) == Rank(90, n) && Target(n, 99) == Rank(99, n)
    ensures 1 <= Rank(50, n) <= Rank(90, n) <= Rank(99, n) <= n
  {
    TargetIsRank(n, 50);
    TargetIsRank(n, 90);
    TargetIsRank(n, 99);
    RanksInOrder(n);
  }

  lemma TargetIsRank(n: nat, k: nat)
    requires n * k + 99 < TWO_64
    ensures Target(n, k) == Rank(k, n)
  {
    Small(n * k);
    Small(n * k + 99);
  }

  lemma Small(x: nat)
    requires x < TWO_64
    ensures x % TWO_64 == x
  {
  }

  /** The cumulative walk over the copied buckets, with its early exit. */
  method Walk(local: array<nat>, total: nat, ghost xs: seq<int>) returns (p50: int, p90: int, p99: int)
    requires local.Length == BUCKETS && NonNegative(xs) && xs != [] && total == |xs| && total * 99 + 99 < TWO_64
    requires forall j | 0 <= j < BUCKETS :: local[j] == CountAt(xs, j)
    ensures Percentile(xs, Rank(50, total), p50)
    ensures Percentile(xs, Rank(90, total), p90)
    ensures Percentile(xs, Rank(99, total), p99)
    ensures ReportsFor(xs, 50, p50) && ReportsFor(xs, 90, p90) && ReportsFor(xs, 99, p99)
  {
    p50, p90, p99 := 0, 0, 0;
    var t50, t90, t99 := Target(total, 50), Target(total, 90), Target(total, 99);
    TargetsAreRanks(total);
    var cum, i := 0, 0;
    BelowBounds(xs);
    while i < BUCKETS
      invariant 0 <= i <= BUCKETS && cum == CountBelow(xs, i)
      invariant Found(xs, t50, i, p50) && Found(xs, t90, i, p90) && Found(xs, t99, i, p99)
      invariant CountBelow(xs, i) < t99
    {
      BelowStep(xs, i);
      cum := cum + local[i];
      var v := Upper(i);
      FoundStep(xs, t50, i, p50);
      FoundStep(xs, t90, i, p90);
      FoundStep(xs, t99, i, p99);
      if p50 == 0 && cum >= t50 { p50 := v; }
      if p90 == 0 && cum >= t90 { p90 := v; }
      if p99 == 0 && cum >= t99 {
        p99 := v;
        i := i + 1;
        break;
      }
      i := i + 1;
    }
    FoundReports(xs, t50, i, p50);
    FoundReports(xs, t90, i, p90);
    FoundReports(xs, t99, i, p99);
    ghost var x := PercentileReported(xs, 50, p50);
    x := PercentileReported(xs, 90, p90);
    x := PercentileReported(xs, 99, p99);
  }

  class LatencyHistogram {
    const buckets: array<nat>
    var count: nat
    var max: int
    ghost var samples: seq<int>
    ghost var offers: seq<int>

    ghost predicate Valid()
      reads this, buckets
    {
      && buckets.Length == BUCKETS && NonNegative(samples)
      && (forall i | 0 <= i < BUCKETS :: buckets[i] == CountAt(samples, i))
      && IsLargest(max, offers)
    }

    ghost function Past(): History
      reads this
    {
      History(samples, count, offers)
    }

    constructor ()
      ensures Valid() && fresh(buckets) && Past() == History([], 0, [])
    {
      buckets := new nat[BUCKETS](_ => 0);
      count, max, samples, offers := 0, 0, [], [];
    }

    /** One atomic step of a `record`. */
    method Perform(a: Atom)
      requires Valid() && InRange([a])
      modifies this, buckets
      ensures Valid() && Past() == After(old(Past()), a)
    {
      assert [a][0] == a;
      match a {
        case Bucketed(ns) => IncrementBucket(Clamp(ns));
        case Counted => count := count + 1;
        case Offered(ns) => RaiseMax(Clamp(ns));
      }
    }

    method IncrementBucket(x: int)
      requires Valid() && 0 <= x < TWO_63
      modifies this`samples, buckets
      ensures Valid() && samples == old(samples) + [x]
    {
      IndexInRange(x);
      forall i | 0 <= i < BUCKETS
        ensures CountAt(samples + [x], i) == CountAt(samples, i) + (if Index(x) == i then 1 else 0) {
        CountSnoc(samples, x, i);
      }
      buckets[Index(x)] := buckets[Index(x)] + 1;
      samples := samples + [x];
    }

    method RaiseMax(x: int)
      requires Valid() && x >= 0
      modifies this`max, this`offers
      ensures Valid() && offers == old(offers) + [x]
    {
      if x > max {
        max := x;
      }
      offers := offers + [x];
    }

    /** `record`: its three atomic steps, here undisturbed. */
    method Record(ns: int)
      requires Valid() && ns < TWO_63
      modifies this, buckets
      ensures Valid() && Past() == AfterAll(old(Past()), RecordAtoms(ns))
      ensures old(Complete(Past())) ==> Complete(Past())
    {
      var x := Clamp(ns);
      IncrementBucket(x);
      count := count + 1;
      RaiseMax(x);
      ghost var h' := RecordSteps(old(Past()), ns);
    }

    method PerformAll(atoms: seq<Atom>)
      requires Valid() && InRange(atoms)
      modifies this, buckets
      ensures Valid() && Past() == AfterAll(old(Past()), atoms)
    {
      for i := 0 to |atoms|
        invariant Valid() && Past() == AfterAll(old(Past()), atoms[..i])
      {
        assert atoms[..i + 1][..i] == atoms[..i];
        Perform(atoms[i]);
      }
      assert atoms[..|atoms|] == atoms;
    }

    /** A relaxed load, which may miss the latest `lag` increments. */
    method Load(i: nat, lag: nat) returns (c: nat)
      requires Valid() && i < BUCKETS && lag <= CountAt(samples, i)
      ensures c == CountAt(samples, i) - lag
    {
      c := buckets[i] - lag;
    }

    /** Other threads take their steps, and bucket `i` is loaded. */
    method LoadNext(arrivals: seq<seq<Atom>>, lags: seq<nat>, i: nat, ghost before: History, ghost t: seq<nat>,
                    ghost copied: seq<nat>, ghost total: nat, ghost known: nat) returns (c: nat, ghost m: nat)
      requires Valid() && i < |arrivals| == BUCKETS && Recordable(arrivals)
      requires known <= |before.samples| && LagsFit(before, known, arrivals, lags) && |t| == i
      requires Copying(before, Past(), arrivals[..i], t, copied, total, known)
      modifies this, buckets
      ensures Valid() && Copying(before, Past(), arrivals[..i + 1], t + [m], copied + [c], total + c, known)
    {
      ghost var sofar := Past();
      PerformAll(arrivals[i]);
      m := CopiedNext(before, sofar, Past(), arrivals, i, lags, t, copied, total, known);
      c := Load(i, lags[i]);
    }

    /**
     The copy loop of `snapshot()` with other threads at work. `arrivals[i]` are
     the atomic steps they take before bucket `i` is loaded, and the load misses
     `lags[i]` of its increments, though none of the first `known` samples, which
     the reader has seen before. The value is that of the first `t[i]` samples.
     */
    method CopyBuckets(arrivals: seq<seq<Atom>>, lags: seq<nat>, ghost known: nat)
      returns (local: array<nat>, total: nat, ghost t: seq<nat>)
      requires Valid() && |arrivals| == BUCKETS && Recordable(arrivals)
      requires known <= |samples| && LagsFit(Past(), known, arrivals, lags)
      modifies this, buckets
      ensures Valid() && fresh(local) && local.Length == BUCKETS
      ensures Copying(old(Past()), Past(), arrivals, t, local[..], total, known)
    {
      local := new nat[BUCKETS](_ => 0);
      total := 0;
      t := [];
      ghost var before := Past();
      for i := 0 to BUCKETS
        invariant Valid() && Copying(before, Past(), arrivals[..i], t, local[..i], total, known)
      {
        ghost var copied := local[..i];
        var c, m := LoadNext(arrivals, lags, i, before, t, copied, total, known);
        local[i] := c;
        total := total + c;
        t := t + [m];
        assert local[..i + 1] == copied + [c];
      }
      assert arrivals[..BUCKETS] == arrivals && local[..BUCKETS] == local[..];
    }

    /** `snapshot()`: its result is the sequential result on the samples `seen`. */
    method Snapshot(arrivals: seq<seq<Atom>>, lags: seq<nat>, ghost known: nat)
      returns (out: Percentiles, ghost seen: seq<int>)
      requires Valid() && |arrivals| == BUCKETS && Recordable(arrivals)
      requires known <= |samples| && LagsFit(Past(), known, arrivals, lags)
      requires |AfterAll(Past(), Flatten(arrivals)).samples| * 99 + 99 < TWO_64
      modifies this, buckets
      ensures Valid() && Past() == AfterAll(old(Past()), Flatten(arrivals))
      ensures Reports(seen, out) && NonNegative(seen) && IsLargest(out.max, offers)
      ensures seen != [] ==> ReportsFor(seen, 50, out.p50) && ReportsFor(seen, 90, out.p90)
      ensures seen != [] ==> ReportsFor(seen, 99, out.p99)
      ensures multiset(old(samples)[..known]) <= multiset(seen) <= multiset(samples)
    {
      var local, total, t := CopyBuckets(arrivals, lags, known);
      HistoryGrows(old(Past()), Flatten(arrivals));
      seen := CopyIsSeen(old(samples)[..known], samples, t, local[..]);
      out := Percentiles(0, 0, 0, max, total);
      if total == 0 {
        return;
      }
      FewerSeen(seen, samples);
      var p50, p90, p99 := Walk(local, total, seen);
      out := Percentiles(p50, p90, p99, out.max, total);
    }
  }

  /** Each load may be stale, but not beyond what the reader has seen before. */
  ghost predicate LagsFit(before: History, known: nat, arrivals: seq<seq<Atom>>, lags: seq<nat>)
    requires known <= |before.samples|
  {
    |lags| == |arrivals| && forall i | 0 <= i < |arrivals| ::
      CountAt(before.samples[..known], i) + lags[i]
        <= CountAt(AfterAll(before, Flatten(arrivals[..i + 1])).samples, i)
  }

  /** Every value a bucket had since the first `lo` samples is what some longer prefix put there. */
  lemma {:induction false} CountReaches(h: seq<int>, i: nat, lo: nat, c: nat) returns (m: nat)
    requires lo <= |h| && CountAt(h[..lo], i) <= c <= CountAt(h, i)
    ensures lo <= m <= |h| && CountAt(h[..m], i) == c
  {
    assert h[..|h|] == h;
    if c == CountAt(h, i) {
      m := |h|;
    } else {
      var n := |h| - 1;
      assert h[..n][..lo] == h[..lo];
      m := CountReaches(h[..n], i, lo, c);
      assert h[..n][..m] == h[..m];
    }
  }

  /** The prefix of the history whose count a load with this lag returns. */
  lemma LoadsPast(before: History, h: History, h': History, arrived: seq<seq<Atom>>, a: seq<Atom>, i: nat, lag: nat,
                  known: nat) returns (m: nat, c: nat)
    requires h == AfterAll(before, Flatten(arrived)) && h' == AfterAll(h, a) && known <= |before.samples|
    requires CountAt(before.samples[..known], i) + lag <= CountAt(AfterAll(before, Flatten(arrived + [a])).samples, i)
    ensures known <= m <= |h'.samples| && c + lag == CountAt(h'.samples, i) && c == CountAt(h'.samples[..m], i)
  {
    FlattenSnoc(arrived, a);
    AfterConcat(before, Flatten(arrived), a);
    HistoryGrows(before, Flatten(arrived + [a]));
    assert h'.samples[..known] == before.samples[..known];
    c := CountAt(h'.samples, i) - lag;
    m := CountReaches(h'.samples, i, known, c);
  }

  lemma NextArrival(arrivals: seq<seq<Atom>>, i: nat) returns (arrived: seq<seq<Atom>>, a: seq<Atom>)
    requires i < |arrivals|
    ensures arrived == arrivals[..i] && a == arrivals[i] && arrivals[..i + 1] == arrived + [a]
  {
    arrived, a := arrivals[..i], arrivals[i];
  }

  ghost predicate Recordable(arrivals: seq<seq<Atom>>) {
    forall i | 0 <= i < |arrivals| :: InRange(arrivals[i])
  }

  /** Samples are int64 values. */
  ghost predicate InRange(atoms: seq<Atom>) {
    forall i | 0 <= i < |atoms| :: atoms[i].Counted? || atoms[i].ns < TWO_63
  }

  lemma FewerSeen(seen: seq<int>, h: seq<int>)
    requires multiset(seen) <= multiset(h)
    ensures |seen| <= |h|
  {
    assert multiset(h) == multiset(seen) + (multiset(h) - multiset(seen));
    assert |multiset(seen)| == |seen| && |multiset(h)| == |h|;
  }

  /** Bucket by bucket, `local` holds what the first `t[j]` samples of `h` put there. */
  ghost predicate Copied(h: seq<int>, t: seq<nat>, local: seq<nat>, lo: nat) {
    |t| == |local| && forall j | 0 <= j < |t| :: lo <= t[j] && CountedBy(h, t[j], j, local[j])
  }

  ghost predicate CountedBy(h: seq<int>, m: nat, j: nat, c: nat) {
    m <= |h| && c == CountAt(h[..m], j)
  }

  /** Part of the way through the copy: the history so far, the buckets copied and their sum. */
  ghost predicate Copying(before: History, h: History, arrived: seq<seq<Atom>>, t: seq<nat>, local: seq<nat>,
                          total: nat, known: nat) {
    h == AfterAll(before, Flatten(arrived)) && total == Sum(local) && Copied(h.samples, t, local, known)
  }

  lemma CopyingStep(before: History, h: History, h': History, arrived: seq<seq<Atom>>, t: seq<nat>, local: seq<nat>,
                    total: nat, known: nat, a: seq<Atom>, m: nat, c: nat)
    requires Copying(before, h, arrived, t, local, total, known) && h' == AfterAll(h, a)
    requires known <= m <= |h'.samples| && c == CountAt(h'.samples[..m], |t|)
    ensures Copying(before, h', arrived + [a], t + [m], local + [c], total + c, known)
  {
    FlattenSnoc(arrived, a);
    AfterConcat(before, Flatten(arrived), a);
    HistoryGrows(h, a);
    CopiedStays(h.samples, h'.samples, t, local, known);
    CopiedOne(h'.samples, t, local, known, m, c);
    SumSnoc(local, c);
  }

  /** The same for the next bucket and a load with the given lag. */
  lemma CopiedNext(before: History, h: History, h': History, arrivals: seq<seq<Atom>>, i: nat, lags: seq<nat>,
                   t: seq<nat>, local: seq<nat>, total: nat, known: nat) returns (m: nat)
    requires known <= |before.samples| && LagsFit(before, known, arrivals, lags) && |t| == i < |arrivals|
    requires Copying(before, h, arrivals[..i], t, local, total, known) && h' == AfterAll(h, arrivals[i])
    ensures lags[i] <= CountAt(h'.samples, i)
    ensures var c := CountAt(h'.samples, i) - lags[i];
      Copying(before, h', arrivals[..i + 1], t + [m], local + [c], total + c, known)
  {
    var c;
    var arrived, a := NextArrival(arrivals, i);
    m, c := LoadsPast(before, h, h', arrived, a, i, lags[i], known);
    CopyingStep(before, h, h', arrived, t, local, total, known, a, m, c);
  }

  lemma CopiedStays(h: seq<int>, h': seq<int>, t: seq<nat>, local: seq<nat>, lo: nat)
    requires Copied(h, t, local, lo) && h <= h'
    ensures Copied(h', t, local, lo)
  {
    forall j | 0 <= j < |t| ensures CountedBy(h', t[j], j, local[j]) {
      assert h'[..t[j]] == h[..t[j]];
    }
  }

  lemma CopiedOne(h: seq<int>, t: seq<nat>, local: seq<nat>, lo: nat, m: nat, c: nat)
    requires Copied(h, t, local, lo) && CountedBy(h, m, |t|, c) && lo <= m
    ensures Copied(h, t + [m], local + [c], lo)
  {
  }

  lemma SumSnoc(local: seq<nat>, c: nat)
    ensures Sum(local + [c]) == Sum(local) + c
  {
    assert (local + [c])[..|local|] == local;
  }

  lemma FlattenSnoc(arrivals: seq<seq<Atom>>, a: seq<Atom>)
    ensures Flatten(arrivals + [a]) == Flatten(arrivals) + a
  {
    assert (arrivals + [a])[..|arrivals|] == arrivals;
  }

  /** The copied buckets are the buckets of some samples between the two ends of the copy. */
  lemma CopyIsSeen(before: seq<int>, h: seq<int>, t: seq<nat>, local: seq<nat>) returns (seen: seq<int>)
    requires NonNegative(h) && before <= h && |t| == BUCKETS && Copied(h, t, local, |before|)
    ensures NonNegative(seen) && |seen| == Sum(local)
    ensures forall j | 0 <= j < BUCKETS :: local[j] == CountAt(seen, j)
    ensures multiset(before) <= multiset(seen) <= multiset(h)
  {
    forall x | x in h ensures Index(x) < |t| {
      IndexInRange(x);
    }
    seen := Seen(h, t);
    SeenBetween(h, t, |before|, |h|);
    assert h[..|before|] == before && h[..|h|] == h;
    AmongIsNonNegative(seen, h);
    SeenIsCopied(h, t, local, |before|);
    SumIsBelow(seen, local);
    BelowBounds(seen);
  }

  lemma AmongIsNonNegative(seen: seq<int>, h: seq<int>)
    requires NonNegative(h) && multiset(seen) <= multiset(h)
    ensures NonNegative(seen)
  {
    forall x | x in seen ensures x in h {
      assert x in multiset(seen) && x in multiset(h);
    }
  }

  lemma SeenIsCopied(h: seq<int>, t: seq<nat>, local: seq<nat>, lo: nat)
    requires (forall x | x in h :: Index(x) < |t|) && Copied(h, t, local, lo)
    ensures forall j | 0 <= j < |local| :: local[j] == CountAt(Seen(h, t), j)
  {
    forall j | 0 <= j < |local| ensures local[j] == CountAt(Seen(h, t), j) {
      assert CountedBy(h, t[j], j, local[j]);
      SeenCounts(h, t, j);
    }
  }
}
