/**
 The lock-free maximum behind the queue high-water marks and the histogram's
 largest sample. Any number of threads each read the value once and then try to
 exchange it for their own for as long as theirs is larger than what they last
 read, one atomic step at a time. The atomic is its modification order, so a load
 (or a failed exchange) may return a stale value, as relaxed ordering permits.
 */
module LockFreeMax {

  /** A thread is between calls, or offering `v` with `cur` as its last reading. */
  datatype Local = Ready | Offering(v: int, cur: int)

  /**
   `order` lists every value the atomic ever held, `seen[i]` is how far thread `i`
   has read into it, and `offers` lists the values of all calls started.
   */
  datatype State = State(order: seq<int>, seen: seq<nat>, threads: seq<Local>, offers: seq<int>)

  datatype Step =
    | Load(i: nat, v: int, at: nat)   // thread i calls with v and reads entry `at`
    | Swap(i: nat)                    // the exchange succeeds: it always meets the latest value
    | Fail(i: nat, at: nat)           // the exchange fails, reading entry `at`; spuriously when that
                                      // holds the expected value
    | Leave(i: nat)                   // the loop condition v > cur is false

  function Stored(s: State): int
    requires s.order != []
  {
    s.order[|s.order| - 1]
  }

  ghost predicate Initial(s: State, init: int) {
    && s.order == [init] && s.offers == [] && |s.seen| == |s.threads|
    && (forall i | 0 <= i < |s.threads| :: s.seen[i] == 0 && s.threads[i] == Ready)
  }

  ghost predicate Fits(s: State) {
    |s.seen| == |s.threads| && s.order != []
  }

  /** A reading never goes back behind an earlier reading of the same thread. */
  ghost predicate MayRead(s: State, i: nat, at: nat)
    requires Fits(s) && i < |s.threads|
  {
    s.seen[i] <= at < |s.order|
  }

  ghost predicate Enabled(s: State, a: Step)
    requires Fits(s)
  {
    && a.i < |s.threads|
    && match a
       case Load(i, v, at) => s.threads[i] == Ready && MayRead(s, i, at)
       case Swap(i) => s.threads[i].Offering? && s.threads[i].v > s.threads[i].cur && s.threads[i].cur == Stored(s)
       case Fail(i, at) => s.threads[i].Offering? && s.threads[i].v > s.threads[i].cur && MayRead(s, i, at)
       case Leave(i) => s.threads[i].Offering? && s.threads[i].v <= s.threads[i].cur
  }

  function Do(s: State, a: Step): (r: State)
    requires Fits(s) && Enabled(s, a)
    ensures Fits(r)
  {
    match a
    case Load(i, v, at) =>
      s.(seen := s.seen[i := at], threads := s.threads[i := Offering(v, s.order[at])], offers := s.offers + [v])
    case Swap(i) =>
      s.(order := s.order + [s.threads[i].v], seen := s.seen[i := |s.order|], threads := s.threads[i := Ready])
    case Fail(i, at) =>
      s.(seen := s.seen[i := at], threads := s.threads[i := s.threads[i].(cur := s.order[at])])
    case Leave(i) =>
      s.(threads := s.threads[i := Ready])
  }

  ghost predicate Admissible(s: State, run: seq<Step>)
    requires Fits(s)
    decreases |run|
  {
    run == [] || (Enabled(s, run[0]) && Admissible(Do(s, run[0]), run[1..]))
  }

  function Exec(s: State, run: seq<Step>): (r: State)
    requires Fits(s) && Admissible(s, run)
    ensures Fits(r)
    decreases |run|
  {
    if run == [] then s else Exec(Do(s, run[0]), run[1..])
  }

  // -------------------------------- invariant --------------------------------

  /** Every store raised the value. */
  ghost predicate Increasing(s: State) {
    forall j, k | 0 <= j < k < |s.order| :: s.order[j] < s.order[k]
  }

  ghost predicate ReadingsAreEntries(s: State) {
    && Fits(s)
    && (forall i | 0 <= i < |s.threads| ::
          && s.seen[i] < |s.order|
          && (s.threads[i].Offering? ==> s.threads[i].cur == s.order[s.seen[i]]))
  }

  /** Call `k` is still under way in some thread. */
  ghost predicate UnderWay(s: State, k: nat)
    requires k < |s.offers|
  {
    exists i :: 0 <= i < |s.threads| && s.threads[i].Offering? && s.threads[i].v == s.offers[k]
  }

  ghost predicate FinishedAreCovered(s: State)
    requires s.order != []
  {
    forall k | 0 <= k < |s.offers| :: s.offers[k] <= Stored(s) || UnderWay(s, k)
  }

  ghost predicate EntriesWereOffered(s: State)
    requires s.order != []
  {
    && (forall k | 1 <= k < |s.order| :: s.order[k] in s.offers)
    && (forall i | 0 <= i < |s.threads| && s.threads[i].Offering? :: s.threads[i].v in s.offers)
  }

  ghost predicate Inv(s: State) {
    Increasing(s) && ReadingsAreEntries(s) && FinishedAreCovered(s) && EntriesWereOffered(s)
  }

  lemma Climbs(s: State, a: Step)
    requires Inv(s) && Enabled(s, a)
    ensures Increasing(Do(s, a)) && ReadingsAreEntries(Do(s, a))
    ensures s.order <= Do(s, a).order && Stored(s) <= Stored(Do(s, a))
  {
  }

  lemma StoresOffers(s: State, a: Step)
    requires Inv(s) && Enabled(s, a)
    ensures EntriesWereOffered(Do(s, a))
  {
  }

  lemma Covers(s: State, a: Step)
    requires Inv(s) && Enabled(s, a)
    ensures FinishedAreCovered(Do(s, a))
  {
    var t := Do(s, a);
    Climbs(s, a);
    forall k | 0 <= k < |t.offers| ensures t.offers[k] <= Stored(t) || UnderWay(t, k) {
      if k == |s.offers| {
        assert t.threads[a.i].Offering?;
      } else if s.offers[k] > Stored(t) {
        StillUnderWay(s, a, k);
      }
    }
  }

  lemma StillUnderWay(s: State, a: Step, k: nat)
    requires Inv(s) && Enabled(s, a) && k < |s.offers| && s.offers[k] > Stored(Do(s, a))
    ensures k < |Do(s, a).offers| && UnderWay(Do(s, a), k)
  {
    Climbs(s, a);
    assert UnderWay(s, k);
    var i :| 0 <= i < |s.threads| && s.threads[i].Offering? && s.threads[i].v == s.offers[k];
    assert i != a.i || a.Fail?;
    assert Do(s, a).threads[i].Offering?;
  }

  // --------------------------------- theorems ---------------------------------

  /** No call is under way. */
  ghost predicate Quiescent(s: State) {
    forall i | 0 <= i < |s.threads| :: s.threads[i] == Ready
  }

  ghost predicate IsMaximum(x: int, init: int, offers: seq<int>) {
    && init <= x && (forall v | v in offers :: v <= x)
    && (x == init || x in offers)
  }

  lemma {:induction false} RunKeepsInv(s: State, run: seq<Step>)
    requires Inv(s) && Admissible(s, run)
    ensures Inv(Exec(s, run)) && s.order <= Exec(s, run).order && |Exec(s, run).threads| == |s.threads|
    ensures Stored(s) <= Stored(Exec(s, run))
    decreases |run|
  {
    if run != [] {
      Climbs(s, run[0]);
      Covers(s, run[0]);
      StoresOffers(s, run[0]);
      RunKeepsInv(Do(s, run[0]), run[1..]);
    }
  }

  /** The stored value never decreases between any two points of a run. */
  lemma NeverDecreases(s: State, init: int, before: seq<Step>, after: seq<Step>)
    requires Initial(s, init) && Admissible(s, before) && Admissible(Exec(s, before), after)
    ensures init <= Stored(Exec(s, before)) <= Stored(Exec(Exec(s, before), after))
  {
    RunKeepsInv(s, before);
    RunKeepsInv(Exec(s, before), after);
  }

  /** When no call is under way, the stored value is the largest one offered. */
  lemma QuiescentIsMaximum(s: State, init: int, run: seq<Step>)
    requires Initial(s, init) && Admissible(s, run)
    requires Quiescent(Exec(s, run))
    ensures IsMaximum(Stored(Exec(s, run)), init, Exec(s, run).offers)
  {
    RunKeepsInv(s, run);
    var t := Exec(s, run);
    forall v | v in t.offers ensures v <= Stored(t) {
      var k :| 0 <= k < |t.offers| && t.offers[k] == v;
      assert !UnderWay(t, k);
    }
    assert t.order[0] == init;
  }

  /** A bound on every offer bounds every value ever stored: a high-water mark of at most the capacity. */
  lemma BoundedOffersBoundedMark(s: State, init: int, run: seq<Step>, bound: int)
    requires Initial(s, init) && Admissible(s, run) && init <= bound
    requires forall v | v in Exec(s, run).offers :: v <= bound
    ensures forall x | x in Exec(s, run).order :: x <= bound
  {
    RunKeepsInv(s, run);
    var t := Exec(s, run);
    assert t.order[0] == init;
    forall x | x in t.order ensures x <= bound {
      var k :| 0 <= k < |t.order| && t.order[k] == x;
    }
  }

  // ------------------------------ the loop itself ------------------------------

  /** What meets one exchange: others raised the value to at least `raised`, and whether it fails spuriously. */
  datatype Attempt = Attempt(raised: int, spurious: bool)

  function Max(a: int, b: int): int {
    if a < b then b else a
  }

  function Peak(start: int, attempts: seq<Attempt>): int {
    if attempts == [] then start else Max(Peak(start, attempts[..|attempts| - 1]), attempts[|attempts| - 1].raised)
  }

  class AtomicMax {
    var value: int

    constructor (init: int)
      ensures value == init
    {
      value := init;
    }

    /** One weak exchange in the middle of other threads. */
    method ExchangeWeak(expected: int, v: int, a: Attempt) returns (ok: bool, cur: int)
      modifies this
      ensures ok <==> !a.spurious && Max(old(value), a.raised) == expected
      ensures value == if ok then v else Max(old(value), a.raised)
      ensures !ok ==> cur == value
    {
      if value < a.raised {
        value := a.raised;
      }
      ok, cur := false, value;
      if value == expected && !a.spurious {
        value := v;
        ok := true;
      }
    }

    /**
     `track_max` for as many exchanges as are given. When it returns normally the
     value is the maximum of what it was, `v` and what the others stored meanwhile.
     */
    method TrackMax(v: int, attempts: seq<Attempt>) returns (done: bool, ghost used: nat)
      modifies this
      ensures used <= |attempts| && (!done ==> used == |attempts|)
      ensures value == if done then Max(Peak(old(value), attempts[..used]), v) else Peak(old(value), attempts)
    {
      var cur := value;
      var i := 0;
      done, used := false, 0;
      while v > cur && i < |attempts|
        invariant 0 <= i <= |attempts| && cur == value == Peak(old(value), attempts[..i])
      {
        assert attempts[..i + 1][..i] == attempts[..i];
        var ok, now := ExchangeWeak(cur, v, attempts[i]);
        i := i + 1;
        if ok {
          return true, i;
        }
        cur := now;
      }
      assert attempts[..|attempts|] == attempts;
      done, used := v <= cur, i;
    }
  }
}
