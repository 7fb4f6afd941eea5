/**
 The queue high-water marks: a lock-free maximum of the occupancies that the
 producer of a ring observes after its pushes.
 */
module HighWater {
  import opened Machine64
  import opened RingMachine
  import Max = LockFreeMax

  /** A point of a run of the ring, what the consumer does while the producer asks, and the tail it loads. */
  datatype Asked<T> = Asked(run: seq<Action<T>>, meanwhile: seq<Action<T>>, tail: nat)

  /** `v` is what `size_approx` returns to the producer at that point. */
  ghost predicate Observed<T>(c: nat, buf: seq<T>, q: Asked<T>, v: int)
    requires c > 0 && |buf| == c
  {
    && Admissible(c, Initial(buf), q.run)
    && var s := Exec(c, Initial(buf), q.run);
    && Admissible(c, s, q.meanwhile) && (forall a | a in q.meanwhile :: a.ByConsumer())
    && s.cachedTail <= q.tail <= Exec(c, s, q.meanwhile).tail
    && v == SizeOf(s.head, q.tail)
  }

  lemma ObservedIsOccupancy<T>(c: nat, buf: seq<T>, q: Asked<T>, v: int)
    requires 0 < c <= TWO_63 && |buf| == c && Observed(c, buf, q, v)
    ensures 0 <= v <= c
  {
    RunRefines(c, Initial(buf), q.run);
    var s := Exec(c, Initial(buf), q.run);
    ProducerSizeIsSound(c, s, q.meanwhile, q.tail);
  }

  /**
   Every value a mark ever holds lies between 0 and the capacity, with any number
   of threads tracking, whatever the interleaving and the staleness of loads.
   */
  lemma MarkIsWithinCapacity<T>(c: nat, buf: seq<T>, asked: seq<Asked<T>>, s: Max.State, run: seq<Max.Step>)
    requires 0 < c <= TWO_63 && |buf| == c && Max.Initial(s, 0) && Max.Admissible(s, run)
    requires |asked| == |Max.Exec(s, run).offers|
    requires forall k | 0 <= k < |asked| :: Observed(c, buf, asked[k], Max.Exec(s, run).offers[k])
    ensures forall x | x in Max.Exec(s, run).order :: 0 <= x <= c
  {
    var t := Max.Exec(s, run);
    forall v | v in t.offers ensures v <= c {
      var k :| 0 <= k < |t.offers| && t.offers[k] == v;
      ObservedIsOccupancy(c, buf, asked[k], v);
    }
    Max.BoundedOffersBoundedMark(s, 0, run, c);
    Max.RunKeepsInv(s, run);
    forall x | x in t.order ensures 0 <= x {
      var k :| 0 <= k < |t.order| && t.order[k] == x;
      assert t.order[0] == 0;
    }
  }
}
