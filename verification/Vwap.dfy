/**
 The depth-weighted price of a book: the four-lane form and the plain loop, over
 the reals.
 */
module Vwap {
  import opened BookFeed

  function Notional(l: Level): real {
    l.px * l.qty
  }

  function SumPq(ls: seq<Level>): real {
    if ls == [] then 0.0 else SumPq(ls[..|ls| - 1]) + Notional(ls[|ls| - 1])
  }

  function SumQ(ls: seq<Level>): real {
    if ls == [] then 0.0 else SumQ(ls[..|ls| - 1]) + ls[|ls| - 1].qty
  }

  /** The mean price weighted by size; with no size, the given mid price. */
  function Weighted(bids: seq<Level>, asks: seq<Level>, mid: real): real {
    var q := SumQ(bids) + SumQ(asks);
    if q > 0.0 then (SumPq(bids) + SumPq(asks)) / q else mid
  }

  function Mid(bids: seq<Level>, asks: seq<Level>): real
    requires |bids| == |asks| == DEPTH
  {
    0.5 * (asks[0].px + bids[0].px)
  }

  function VwapOf(bids: seq<Level>, asks: seq<Level>): real
    requires |bids| == |asks| == DEPTH
  {
    Weighted(bids, asks, Mid(bids, asks))
  }

  /** The fallback loop. */
  method ScalarVwap(bids: array<Level>, asks: array<Level>) returns (v: real)
    requires bids.Length == asks.Length == DEPTH
    ensures v == VwapOf(bids[..], asks[..])
  {
    var sumPq, sumQ := 0.0, 0.0;
    for i := 0 to DEPTH
      invariant sumPq == SumPq(bids[..i]) + SumPq(asks[..i])
      invariant sumQ == SumQ(bids[..i]) + SumQ(asks[..i])
    {
      assert bids[..i + 1][..i] == bids[..i] && asks[..i + 1][..i] == asks[..i];
      sumPq := sumPq + (bids[i].px * bids[i].qty + asks[i].px * asks[i].qty);
      sumQ := sumQ + (bids[i].qty + asks[i].qty);
    }
    assert bids[..DEPTH] == bids[..] && asks[..DEPTH] == asks[..];
    v := if sumQ > 0.0 then sumPq / sumQ else 0.5 * (asks[0].px + bids[0].px);
  }

  /**
   The mean price weighted by size: times the total size of the ten levels it is
   the total of price times size; without size it is halfway between the best prices.
   */
  lemma VwapIsWeightedMean(bids: seq<Level>, asks: seq<Level>)
    requires |bids| == |asks| == 5
    ensures var q := bids[0].qty + bids[1].qty + bids[2].qty + bids[3].qty + bids[4].qty
                     + asks[0].qty + asks[1].qty + asks[2].qty + asks[3].qty + asks[4].qty;
      if q > 0.0 then
        VwapOf(bids, asks) * q
          == bids[0].px * bids[0].qty + bids[1].px * bids[1].qty + bids[2].px * bids[2].qty + bids[3].px * bids[3].qty
           + bids[4].px * bids[4].qty + asks[0].px * asks[0].qty + asks[1].px * asks[1].qty + asks[2].px * asks[2].qty
           + asks[3].px * asks[3].qty + asks[4].px * asks[4].qty
      else VwapOf(bids, asks) == (bids[0].px + asks[0].px) / 2.0
  {
    FiveTerms(bids);
    FiveTerms(asks);
    var q := SumQ(bids) + SumQ(asks);
    if q > 0.0 {
      QuotientTimes(SumPq(bids) + SumPq(asks), q);
    }
  }

  lemma QuotientTimes(n: real, q: real)
    requires q != 0.0
    ensures n / q * q == n
  {
  }

  /** A register of four lanes. */
  datatype Lanes = Lanes(a: real, b: real, c: real, d: real)
  {
    function Add(o: Lanes): Lanes {
      Lanes(a + o.a, b + o.b, c + o.c, d + o.d)
    }

    /** `this * x + acc` in every lane. */
    function FusedMulAdd(x: Lanes, acc: Lanes): Lanes {
      Lanes(a * x.a + acc.a, b * x.b + acc.b, c * x.c + acc.c, d * x.d + acc.d)
    }
  }

  function Prices(ls: seq<Level>): Lanes
    requires |ls| >= 4
  {
    Lanes(ls[0].px, ls[1].px, ls[2].px, ls[3].px)
  }

  function Sizes(ls: seq<Level>): Lanes
    requires |ls| >= 4
  {
    Lanes(ls[0].qty, ls[1].qty, ls[2].qty, ls[3].qty)
  }

  lemma FiveTerms(ls: seq<Level>)
    requires |ls| == DEPTH
    ensures SumPq(ls) == ls[0].px * ls[0].qty + ls[1].px * ls[1].qty + ls[2].px * ls[2].qty + ls[3].px * ls[3].qty
      + ls[4].px * ls[4].qty
    ensures SumQ(ls) == ls[0].qty + ls[1].qty + ls[2].qty + ls[3].qty + ls[4].qty
  {
    NextTerm(ls, 0);
    NextTerm(ls, 1);
    NextTerm(ls, 2);
    NextTerm(ls, 3);
    NextTerm(ls, 4);
    assert ls[..5] == ls;
  }

  lemma NextTerm(ls: seq<Level>, k: nat)
    requires k < |ls|
    ensures SumPq(ls[..k + 1]) == SumPq(ls[..k]) + ls[k].px * ls[k].qty
      && SumQ(ls[..k + 1]) == SumQ(ls[..k]) + ls[k].qty
  {
    assert ls[..k + 1][..k] == ls[..k];
  }

  const ZERO := Lanes(0.0, 0.0, 0.0, 0.0)

  function LanesPq(bids: seq<Level>, asks: seq<Level>): Lanes
    requires |bids| == |asks| == DEPTH
  {
    Prices(asks).FusedMulAdd(Sizes(asks), Prices(bids).FusedMulAdd(Sizes(bids), ZERO))
  }

  lemma LanesAddUp(bids: seq<Level>, asks: seq<Level>)
    requires |bids| == |asks| == DEPTH
    ensures var l := LanesPq(bids, asks);
      l.a + l.b + l.c + l.d + bids[4].px * bids[4].qty + asks[4].px * asks[4].qty == SumPq(bids) + SumPq(asks)
    ensures var l := ZERO.Add(Sizes(bids).Add(Sizes(asks)));
      l.a + l.b + l.c + l.d + bids[4].qty + asks[4].qty == SumQ(bids) + SumQ(asks)
  {
    FiveTerms(bids);
    FiveTerms(asks);
  }

  /** The vector form, with the fifth level as a scalar tail, computes what the loop computes. */
  method VectorVwap(bids: array<Level>, asks: array<Level>) returns (v: real)
    requires bids.Length == asks.Length == DEPTH
    ensures v == VwapOf(bids[..], asks[..])
  {
    var accPq := Prices(bids[..]).FusedMulAdd(Sizes(bids[..]), ZERO);
    accPq := Prices(asks[..]).FusedMulAdd(Sizes(asks[..]), accPq);
    var accQ := ZERO.Add(Sizes(bids[..]).Add(Sizes(asks[..])));
    LanesAddUp(bids[..], asks[..]);
    var sumPq := accPq.a + accPq.b + accPq.c + accPq.d + bids[4].px * bids[4].qty + asks[4].px * asks[4].qty;
    var sumQ := accQ.a + accQ.b + accQ.c + accQ.d + bids[4].qty + asks[4].qty;
    v := if sumQ > 0.0 then sumPq / sumQ else 0.5 * (asks[0].px + bids[0].px);
  }

  /** Every level with size is priced between `lo` and `hi`; no size is negative. */
  ghost predicate Within(ls: seq<Level>, lo: real, hi: real) {
    forall i | 0 <= i < |ls| :: ls[i].qty >= 0.0 && (ls[i].qty > 0.0 ==> lo <= ls[i].px <= hi)
  }

  /** The level's size at the price `x` instead of its own. */
  function NotionalAt(l: Level, x: real): real {
    x * l.qty
  }

  function SumAt(ls: seq<Level>, x: real): real {
    if ls == [] then 0.0 else SumAt(ls[..|ls| - 1], x) + NotionalAt(ls[|ls| - 1], x)
  }

  lemma {:induction false} SumAtIsProduct(ls: seq<Level>, x: real)
    ensures SumAt(ls, x) == x * SumQ(ls)
  {
    if ls == [] {
      TimesZero(x, 0.0);
    } else {
      SumAtIsProduct(ls[..|ls| - 1], x);
      Distribute(x, SumQ(ls[..|ls| - 1]), ls[|ls| - 1].qty);
    }
  }

  lemma {:induction false} SumsWithin(ls: seq<Level>, lo: real, hi: real)
    requires Within(ls, lo, hi)
    ensures SumAt(ls, lo) <= SumPq(ls) <= SumAt(ls, hi)
  {
    if ls != [] {
      SumsWithin(ls[..|ls| - 1], lo, hi);
      TermWithin(ls[|ls| - 1], lo, hi);
    }
  }

  lemma TermWithin(l: Level, lo: real, hi: real)
    requires l.qty >= 0.0 && (l.qty > 0.0 ==> lo <= l.px <= hi)
    ensures NotionalAt(l, lo) <= Notional(l) <= NotionalAt(l, hi)
  {
    assert NotionalAt(l, lo) == lo * l.qty && Notional(l) == l.px * l.qty && NotionalAt(l, hi) == hi * l.qty;
    if l.qty > 0.0 {
      MulOrder(lo, l.px, l.qty);
      MulOrder(l.px, hi, l.qty);
    } else {
      TimesZero(lo, l.qty);
      TimesZero(l.px, l.qty);
      TimesZero(hi, l.qty);
    }
  }

  lemma TimesZero(a: real, z: real)
    requires z == 0.0
    ensures a * z == 0.0
  {
  }

  lemma MulOrder(a: real, b: real, q: real)
    requires q > 0.0
    ensures a <= b ==> a * q <= b * q
    ensures a < b ==> a * q < b * q
  {
  }

  lemma Distribute(a: real, x: real, y: real)
    ensures a * (x + y) == a * x + a * y
  {
  }

  lemma Quotient(lo: real, hi: real, n: real, q: real)
    requires q > 0.0 && lo * q <= n <= hi * q
    ensures lo <= n / q <= hi
  {
    var x := n / q;
    assert x * q == n;
    MulOrder(x, lo, q);
    MulOrder(hi, x, q);
  }

  /** Some level of the side has size. */
  ghost predicate HasSize(ls: seq<Level>) {
    exists i :: 0 <= i < |ls| && ls[i].qty > 0.0
  }

  lemma {:induction false} SizeIsPositive(ls: seq<Level>, lo: real, hi: real)
    requires Within(ls, lo, hi)
    ensures SumQ(ls) >= 0.0 && (HasSize(ls) ==> SumQ(ls) > 0.0)
  {
    if ls != [] {
      SizeIsPositive(ls[..|ls| - 1], lo, hi);
      if HasSize(ls) && ls[|ls| - 1].qty <= 0.0 {
        var i :| 0 <= i < |ls| && ls[i].qty > 0.0;
        assert ls[..|ls| - 1][i].qty > 0.0;
      }
    }
  }

  /** The price lies between the lowest and the highest price of the levels that have size. */
  lemma VwapIsBetween(bids: seq<Level>, asks: seq<Level>, lo: real, hi: real)
    requires |bids| == |asks| == DEPTH && Within(bids, lo, hi) && Within(asks, lo, hi)
    requires HasSize(bids) || HasSize(asks)
    ensures lo <= VwapOf(bids, asks) <= hi
  {
    SumsWithin(bids, lo, hi);
    SumsWithin(asks, lo, hi);
    SizeIsPositive(bids, lo, hi);
    SizeIsPositive(asks, lo, hi);
    BothSides(bids, asks, lo);
    BothSides(bids, asks, hi);
    Quotient(lo, hi, SumPq(bids) + SumPq(asks), SumQ(bids) + SumQ(asks));
  }

  lemma BothSides(bids: seq<Level>, asks: seq<Level>, x: real)
    ensures x * (SumQ(bids) + SumQ(asks)) == SumAt(bids, x) + SumAt(asks, x)
  {
    SumAtIsProduct(bids, x);
    SumAtIsProduct(asks, x);
    Distribute(x, SumQ(bids), SumQ(asks));
  }

  // ------------------------------ visible levels ------------------------------

  /** The same mean over the levels the book counts, only. */
  function VisibleVwap(b: BookView): real
    requires |b.bids| == |b.asks| == DEPTH && b.nBids <= DEPTH && b.nAsks <= DEPTH
  {
    Weighted(b.bids[..b.nBids], b.asks[..b.nAsks], Mid(b.bids, b.asks))
  }

  /** An event as the decoder leaves it: nothing beyond its counts. */
  ghost predicate Padded(e: MdEvent) {
    && |e.bids| == |e.asks| == DEPTH && e.nBids <= DEPTH && e.nAsks <= DEPTH
    && (forall i | e.nBids <= i < DEPTH :: e.bids[i] == EMPTY_LEVEL)
    && (forall i | e.nAsks <= i < DEPTH :: e.asks[i] == EMPTY_LEVEL)
  }

  lemma {:induction false} PaddingAddsNothing(ls: seq<Level>, n: nat)
    requires n <= |ls| && forall i | n <= i < |ls| :: ls[i] == EMPTY_LEVEL
    ensures SumPq(ls) == SumPq(ls[..n]) && SumQ(ls) == SumQ(ls[..n])
    decreases |ls|
  {
    if n == |ls| {
      assert ls[..n] == ls;
    } else {
      var m := |ls| - 1;
      PaddingAddsNothing(ls[..m], n);
      assert ls[..m][..n] == ls[..n];
    }
  }

  ghost predicate CountsOnlyVisible(e: MdEvent, maxDepth: nat)
    requires Padded(e)
  {
    var b := Projection(e, maxDepth);
    b.nBids <= DEPTH && b.nAsks <= DEPTH && VwapOf(b.bids, b.asks) == VisibleVwap(b)
  }

  /** A padded event with these counts. */
  ghost predicate HasCounts(e: MdEvent, nBids: nat, nAsks: nat) {
    Padded(e) && e.nBids == nBids && e.nAsks == nAsks
  }

  /**
   `apply_snapshot` clips the counts but copies whole arrays, and the price sums
   whole arrays: it counts only visible levels, whatever their contents, exactly
   when the depth limit clips neither side.
   */
  lemma VwapCountsVisibleIffNotClipped(nBids: nat, nAsks: nat, maxDepth: nat)
    requires nBids <= DEPTH && nAsks <= DEPTH
    ensures (forall e | HasCounts(e, nBids, nAsks) :: CountsOnlyVisible(e, maxDepth))
      <==> nBids <= maxDepth && nAsks <= maxDepth
  {
    if nBids <= maxDepth && nAsks <= maxDepth {
      forall e | HasCounts(e, nBids, nAsks) ensures CountsOnlyVisible(e, maxDepth) {
        NotClipped(e, maxDepth);
      }
    } else {
      var e := ClippedWitness(nBids, nAsks, maxDepth);
    }
  }

  lemma NotClipped(e: MdEvent, maxDepth: nat)
    requires Padded(e) && e.nBids <= maxDepth && e.nAsks <= maxDepth
    ensures CountsOnlyVisible(e, maxDepth)
  {
    PaddingAddsNothing(e.bids, e.nBids);
    PaddingAddsNothing(e.asks, e.nAsks);
  }

  function Nothing(): (ls: seq<Level>)
    ensures |ls| == DEPTH && forall i | 0 <= i < DEPTH :: ls[i] == EMPTY_LEVEL
  {
    seq(DEPTH, _ => EMPTY_LEVEL)
  }

  /** One lot at price 1, at level `d` and nowhere else. */
  function Hidden(d: nat): (ls: seq<Level>)
    requires d < DEPTH
    ensures |ls| == DEPTH
  {
    Nothing()[d := Level(1.0, 1.0)]
  }

  lemma HiddenSums(d: nat, k: nat)
    requires d < DEPTH && k <= DEPTH
    ensures SumPq(Nothing()) == SumQ(Nothing()) == SumPq(Nothing()[..k]) == SumQ(Nothing()[..k]) == 0.0
    ensures SumPq(Hidden(d)) == SumQ(Hidden(d)) == 1.0
    ensures SumPq(Hidden(d)[..d]) == SumQ(Hidden(d)[..d]) == 0.0
  {
    PaddingAddsNothing(Nothing(), 0);
    PaddingAddsNothing(Nothing()[..k], 0);
    PaddingAddsNothing(Hidden(d)[..d], 0);
    PaddingAddsNothing(Hidden(d), d + 1);
    NextTerm(Hidden(d), d);
  }

  lemma OneLot(bids: seq<Level>, asks: seq<Level>, mid: real)
    requires SumPq(bids) + SumPq(asks) == SumQ(bids) + SumQ(asks) == 1.0
    ensures Weighted(bids, asks, mid) == 1.0
  {
  }

  lemma NoLot(bids: seq<Level>, asks: seq<Level>, mid: real)
    requires SumQ(bids) + SumQ(asks) == 0.0
    ensures Weighted(bids, asks, mid) == mid
  {
  }

  lemma SidesDiffer(d: nat, k: nat)
    requires d < DEPTH && k <= DEPTH
    ensures VwapOf(Hidden(d), Nothing()) != Weighted(Hidden(d)[..d], Nothing()[..k], Mid(Hidden(d), Nothing()))
    ensures VwapOf(Nothing(), Hidden(d)) != Weighted(Nothing()[..k], Hidden(d)[..d], Mid(Nothing(), Hidden(d)))
  {
    var some, none := Hidden(d), Nothing();
    HiddenSums(d, k);
    OneLot(some, none, Mid(some, none));
    NoLot(some[..d], none[..k], Mid(some, none));
    OneLot(none, some, Mid(none, some));
    NoLot(none[..k], some[..d], Mid(none, some));
  }

  lemma ClippedWitness(nBids: nat, nAsks: nat, d: nat) returns (e: MdEvent)
    requires nBids <= DEPTH && nAsks <= DEPTH && (d < nBids || d < nAsks)
    ensures HasCounts(e, nBids, nAsks) && !CountsOnlyVisible(e, d)
  {
    if d < nBids {
      e := MdEvent(0, 0, 0, Hidden(d), nBids, Nothing(), nAsks, 0.0);
      assert Projection(e, d) == BookView(Hidden(d), d, Nothing(), Clip(nAsks, d), 0, 0);
      SidesDiffer(d, Clip(nAsks, d));
    } else {
      e := MdEvent(0, 0, 0, Nothing(), nBids, Hidden(d), nAsks, 0.0);
      assert Projection(e, d) == BookView(Nothing(), Clip(nBids, d), Hidden(d), d, 0, 0);
      SidesDiffer(d, Clip(nBids, d));
    }
  }
}
