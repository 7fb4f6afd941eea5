/**
 The ring object itself: `try_push` and `try_pop` over a fixed buffer, masked
 uint64_t indices and one cached copy of the opposite index per side. The value
 an acquire load returns (`seen`) is chosen arbitrarily in the window that
 coherence allows. `abs` is the state of the unbounded machine the object is in.
 */
module SpscRing {
  import opened Common
  import opened Machine64
  import opened RingMachine
  import opened RingWords

  /** An acquire load of an index last seen as `last`: coherence allows any value from there to `current`. */
  method AcquireLoad(current: Word, last: Word) returns (seen: Word)
    ensures Sub(seen, last) <= Sub(current, last)
  {
    seen :| Sub(seen, last) <= Sub(current, last);
  }

  class Ring<T> {
    const k: nat
    const buf: array<T>
    var head: Word
    var tail: Word
    var cachedHead: Word
    var cachedTail: Word
    ghost var abs: State<T>

    ghost predicate Valid()
      reads this, buf
    {
      && k <= 63 && buf.Length == Pow2(k)
      && Inv(Pow2(k), abs) && abs.prod == PIdle && abs.cons == CIdle
      && Wrap(abs) == View()
    }

    ghost function View(): State<T>
      reads this, buf
    {
      State(head, tail, cachedHead, cachedTail, buf[..], PIdle, CIdle)
    }

    /** The unread elements, oldest first. */
    ghost function Queue(): seq<T>
      reads this, buf
      requires Valid()
    {
      Contents(Pow2(k), abs)
    }

    constructor (k: nat, fill: T)
      requires k <= 63
      ensures Valid() && fresh(buf) && this.k == k && Queue() == []
      ensures abs.buf == buf[..] && abs == Initial(abs.buf)
    {
      this.k := k;
      var b := new T[Pow2(k)](_ => fill);
      this.buf := b;
      head, tail, cachedHead, cachedTail := 0, 0, 0, 0;
      abs := Initial(b[..]);
      new;
    }

    method TryPush(item: T) returns (ok: bool, seen: Word)
      requires Valid()
      modifies this`head, this`cachedTail, this`abs, buf
      ensures Valid() && Sub(seen, old(cachedTail)) <= Sub(tail, old(cachedTail))
      ensures abs == PushResult(Pow2(k), old(abs), item, old(abs).cachedTail + Sub(seen, old(cachedTail)))
      ensures ok ==> |old(Queue())| < Pow2(k) && Queue() == old(Queue()) + [item]
      ensures !ok ==> Queue() == old(Queue()) && |Queue()| + Sub(tail, seen) == Pow2(k)
    {
      seen := AcquireLoad(tail, cachedTail);
      ghost var next := WholePush(k, abs, item, seen);
      ok := PushStatements(item, seen);
      abs := next;
    }

    /** The statements of `try_push`; `seen` is what its acquire load returns. */
    method PushStatements(item: T, seen: Word) returns (ok: bool)
      requires buf.Length == Pow2(k)
      modifies this`head, this`cachedTail, buf
      ensures View() == PushW(k, old(View()), item, seen)
      ensures ok <==> !PushRefused(k, old(View()), seen)
    {
      var own := head;
      var next := Add(own, 1);
      if Sub(next, cachedTail) > Pow2(k) {
        cachedTail := seen;
        if Sub(next, cachedTail) > Pow2(k) {
          return false;
        }
      }
      buf[Cell(own, k)] := item;
      head := next;
      return true;
    }

    method TryPop() returns (out: Option<T>, seen: Word)
      requires Valid()
      modifies this`tail, this`cachedHead, this`abs
      ensures Valid() && Sub(seen, old(cachedHead)) <= Sub(head, old(cachedHead))
      ensures abs == PopResult(old(abs), old(abs).cachedHead + Sub(seen, old(cachedHead)))
      ensures out.Some? ==> old(Queue()) == [out.value] + Queue()
      ensures out.None? ==> Queue() == old(Queue()) && |Queue()| == Sub(head, seen)
    {
      seen := AcquireLoad(head, cachedHead);
      ghost var next := WholePop(k, abs, seen);
      out := PopStatements(seen);
      abs := next;
    }

    /** The statements of `try_pop`; `seen` is what its acquire load returns. */
    method PopStatements(seen: Word) returns (out: Option<T>)
      requires buf.Length == Pow2(k)
      modifies this`tail, this`cachedHead
      ensures View() == PopW(old(View()), seen)
      ensures out == if PopRefused(old(View()), seen) then None else Some(buf[Cell(old(tail), k)])
    {
      var own := tail;
      if own == cachedHead {
        cachedHead := seen;
        if own == cachedHead {
          return None;
        }
      }
      out := Some(buf[Cell(own, k)]);
      tail := Add(own, 1);
    }
  }

  ghost function PushResult<T>(c: nat, s: State<T>, item: T, seen: nat): State<T>
    requires c > 0 && |s.buf| == c
  {
    var t := if s.head + 1 > s.cachedTail + c then seen else s.cachedTail;
    if s.head + 1 > t + c then s.(cachedTail := t)
    else s.(cachedTail := t, buf := s.buf[s.head % c := item], head := s.head + 1)
  }

  ghost function PopResult<T>(s: State<T>, seen: nat): State<T> {
    var h := if s.tail == s.cachedHead then seen else s.cachedHead;
    if s.tail == h then s.(cachedHead := h) else s.(cachedHead := h, tail := s.tail + 1)
  }

  /** One uninterrupted pass of `try_push` through the machine. */
  lemma PushPass<T>(c: nat, s: State<T>, item: T, seen: nat) returns (acts: seq<Action<T>>)
    requires Inv(c, s) && s.prod.PIdle? && s.cachedTail <= seen <= s.tail
    ensures Admissible(c, s, acts) && Exec(c, s, acts) == PushResult(c, s, item, seen)
    ensures acts != [] && acts[0] == PushCall(item) && forall a :: a in acts ==> !a.ByConsumer()
  {
    acts := Then(c, s, [], PushCall(item));
    acts := Then(c, s, acts, PushCheck);
    if Exec(c, s, acts).prod.PLoad? {
      acts := Then(c, s, acts, PushLoad(seen));
    }
    if Exec(c, s, acts).prod.PWrite? {
      acts := PassWrite(c, s, acts);
    }
  }

  lemma PassWrite<T>(c: nat, s: State<T>, acts: seq<Action<T>>) returns (acts': seq<Action<T>>)
    requires c > 0 && |s.buf| == c && Admissible(c, s, acts) && Exec(c, s, acts).prod.PWrite?
    ensures acts' == acts + [PushWrite, PushPublish] && Admissible(c, s, acts')
    ensures var m := Exec(c, s, acts);
      Exec(c, s, acts') == m.(buf := m.buf[m.prod.own % c := m.prod.item], head := m.prod.own + 1, prod := PIdle)
  {
    acts' := Then(c, s, acts, PushWrite);
    acts' := Then(c, s, acts', PushPublish);
  }

  /** One uninterrupted pass of `try_pop` through the machine. */
  lemma PopPass<T>(c: nat, s: State<T>, seen: nat) returns (acts: seq<Action<T>>)
    requires Inv(c, s) && s.cons.CIdle? && s.cachedHead <= seen <= s.head
    ensures Admissible(c, s, acts) && Exec(c, s, acts) == PopResult(s, seen)
    ensures acts != [] && acts[0] == PopCall && forall a :: a in acts ==> a.ByConsumer()
  {
    acts := Then(c, s, [], PopCall);
    acts := Then(c, s, acts, PopCheck);
    if Exec(c, s, acts).cons.CLoad? {
      acts := Then(c, s, acts, PopLoad(seen));
    }
    if Exec(c, s, acts).cons.CRead? {
      acts := Then(c, s, acts, PopRead);
      acts := Then(c, s, acts, PopPublish);
    }
  }

  lemma PushEffect<T>(c: nat, s: State<T>, item: T, seen: nat)
    requires Inv(c, s) && s.prod.PIdle? && s.cons.CIdle? && s.cachedTail <= seen <= s.tail
    ensures var s' := PushResult(c, s, item, seen);
      && Inv(c, s')
      && (s'.head > s.head ==> |Contents(c, s)| < c && Contents(c, s') == Contents(c, s) + [item])
      && (s'.head == s.head ==> Contents(c, s') == Contents(c, s) && |Contents(c, s)| + (s.tail - seen) == c)
  {
    forall j | s.tail <= j < s.head && s.head < s.tail + c ensures j % c != s.head % c {
      CellsDiffer(j, s.head, c);
    }
  }

  lemma PopEffect<T>(c: nat, s: State<T>, seen: nat)
    requires Inv(c, s) && s.prod.PIdle? && s.cons.CIdle? && s.cachedHead <= seen <= s.head
    ensures var s' := PopResult(s, seen);
      && Inv(c, s')
      && (s'.tail > s.tail ==> Contents(c, s) == [s.buf[s.tail % c]] + Contents(c, s'))
      && (s'.tail == s.tail ==> Contents(c, s') == Contents(c, s) && |Contents(c, s)| == s.head - seen)
  {
  }

  /** The uint64 tests of `try_push` decide what the unbounded tests decide. */
  lemma PushArithmetic<T>(k: nat, s: State<T>, seen: Word)
    requires k <= 63 && Inv(Pow2(k), s)
    requires Sub(seen, s.cachedTail % TWO_64) <= Sub(s.tail % TWO_64, s.cachedTail % TWO_64)
    ensures var seenU, next := s.cachedTail + Sub(seen, s.cachedTail % TWO_64), Add(s.head % TWO_64, 1);
      && s.cachedTail <= seenU <= s.tail && seenU % TWO_64 == seen
      && next == (s.head + 1) % TWO_64
      && Sub(next, s.cachedTail % TWO_64) == s.head + 1 - s.cachedTail
      && Sub(next, seen) == s.head + 1 - seenU
      && Sub(s.tail % TWO_64, seen) == s.tail - seenU
  {
    WrapKeepsCell(0, k);
    PushNumbers(s.head, s.cachedTail, s.tail, seen);
  }

  lemma PushNumbers(head: nat, cached: nat, tail: nat, seen: Word)
    requires cached <= tail <= head < cached + TWO_64 - 1
    requires Sub(seen, cached % TWO_64) <= Sub(tail % TWO_64, cached % TWO_64)
    ensures var seenU, next := cached + Sub(seen, cached % TWO_64), Add(head % TWO_64, 1);
      && cached <= seenU <= tail && seenU % TWO_64 == seen && next == (head + 1) % TWO_64
      && Sub(next, cached % TWO_64) == head + 1 - cached && Sub(next, seen) == head + 1 - seenU
      && Sub(tail % TWO_64, seen) == tail - seenU
  {
    NextSurvivesWrap(head);
    ForwardSurvivesWrap(cached, seen);
    DistanceSurvivesWrap(tail, cached);
    var seenU := cached + Sub(seen, cached % TWO_64);
    DistanceSurvivesWrap(head + 1, cached);
    DistanceSurvivesWrap(head + 1, seenU);
    DistanceSurvivesWrap(tail, seenU);
  }

  lemma PopArithmetic<T>(k: nat, s: State<T>, seen: Word)
    requires k <= 63 && Inv(Pow2(k), s)
    requires Sub(seen, s.cachedHead % TWO_64) <= Sub(s.head % TWO_64, s.cachedHead % TWO_64)
    ensures var seenU := s.cachedHead + Sub(seen, s.cachedHead % TWO_64);
      && s.cachedHead <= seenU <= s.head && seenU % TWO_64 == seen
      && Add(s.tail % TWO_64, 1) == (s.tail + 1) % TWO_64
      && (s.tail % TWO_64 == s.cachedHead % TWO_64 <==> s.tail == s.cachedHead)
      && (s.tail % TWO_64 == seen <==> s.tail == seenU)
      && Sub(s.head % TWO_64, seen) == s.head - seenU
  {
    WrapKeepsCell(0, k);
    PopNumbers(s.tail, s.cachedHead, s.head, seen);
  }

  lemma PopNumbers(tail: nat, cached: nat, head: nat, seen: Word)
    requires tail <= cached <= head < tail + TWO_64
    requires Sub(seen, cached % TWO_64) <= Sub(head % TWO_64, cached % TWO_64)
    ensures var seenU := cached + Sub(seen, cached % TWO_64);
      && cached <= seenU <= head && seenU % TWO_64 == seen && Add(tail % TWO_64, 1) == (tail + 1) % TWO_64
      && (tail % TWO_64 == cached % TWO_64 <==> tail == cached) && (tail % TWO_64 == seen <==> tail == seenU)
      && Sub(head % TWO_64, seen) == head - seenU
  {
    NextSurvivesWrap(tail);
    ForwardSurvivesWrap(cached, seen);
    DistanceSurvivesWrap(head, cached);
    var seenU := cached + Sub(seen, cached % TWO_64);
    DistanceSurvivesWrap(cached, tail);
    DistanceSurvivesWrap(seenU, tail);
    DistanceSurvivesWrap(head, seenU);
  }

  ghost predicate PushRefused<T>(k: nat, w: State<T>, seen: Word) {
    Sub(Add(w.head, 1), w.cachedTail) > Pow2(k) && Sub(Add(w.head, 1), seen) > Pow2(k)
  }

  /** What the statements of `try_push` leave behind, in machine words. */
  ghost function PushW<T>(k: nat, w: State<T>, item: T, seen: Word): State<T>
    requires |w.buf| == Pow2(k)
  {
    var t := if Sub(Add(w.head, 1), w.cachedTail) > Pow2(k) then seen else w.cachedTail;
    if PushRefused(k, w, seen) then w.(cachedTail := t)
    else w.(cachedTail := t, buf := w.buf[Cell(w.head, k) := item], head := Add(w.head, 1))
  }

  ghost predicate PopRefused<T>(w: State<T>, seen: Word) {
    w.tail == w.cachedHead && w.tail == seen
  }

  ghost function PopW<T>(w: State<T>, seen: Word): State<T> {
    var h := if w.tail == w.cachedHead then seen else w.cachedHead;
    if PopRefused(w, seen) then w.(cachedHead := h) else w.(cachedHead := h, tail := Add(w.tail, 1))
  }

  /** `try_push` in machine words is `try_push` of the unbounded machine, with the promised effect. */
  lemma WholePush<T>(k: nat, s: State<T>, item: T, seen: Word) returns (s': State<T>)
    requires k <= 63 && Inv(Pow2(k), s) && s.prod.PIdle? && s.cons.CIdle?
    requires Sub(seen, s.cachedTail % TWO_64) <= Sub(s.tail % TWO_64, s.cachedTail % TWO_64)
    ensures s' == PushResult(Pow2(k), s, item, s.cachedTail + Sub(seen, s.cachedTail % TWO_64))
    ensures var c, w := Pow2(k), Wrap(s);
      && Inv(c, s') && s'.prod.PIdle? && s'.cons.CIdle?
      && Wrap(s') == PushW(k, w, item, seen)
      && (if PushRefused(k, w, seen)
          then Contents(c, s') == Contents(c, s) && |Contents(c, s)| + Sub(w.tail, seen) == c
          else Contents(c, s') == Contents(c, s) + [item] && |Contents(c, s)| < c)
  {
    var seenU := PushWraps(k, s, item, seen);
    PushEffect(Pow2(k), s, item, seenU);
    s' := PushResult(Pow2(k), s, item, seenU);
  }

  lemma PushWraps<T>(k: nat, s: State<T>, item: T, seen: Word) returns (seenU: nat)
    requires k <= 63 && Inv(Pow2(k), s) && s.prod.PIdle? && s.cons.CIdle?
    requires Sub(seen, s.cachedTail % TWO_64) <= Sub(s.tail % TWO_64, s.cachedTail % TWO_64)
    ensures seenU == s.cachedTail + Sub(seen, s.cachedTail % TWO_64) && s.cachedTail <= seenU <= s.tail
    ensures Sub(Wrap(s).tail, seen) == s.tail - seenU
    ensures var s' := PushResult(Pow2(k), s, item, seenU);
      && Wrap(s') == PushW(k, Wrap(s), item, seen)
      && s'.head == if PushRefused(k, Wrap(s), seen) then s.head else s.head + 1
  {
    seenU := s.cachedTail + Sub(seen, s.cachedTail % TWO_64);
    PushArithmetic(k, s, seen);
    WrapKeepsCell(s.head, k);
  }

  /** `try_pop` in machine words is `try_pop` of the unbounded machine, with the promised effect. */
  lemma WholePop<T>(k: nat, s: State<T>, seen: Word) returns (s': State<T>)
    requires k <= 63 && Inv(Pow2(k), s) && s.prod.PIdle? && s.cons.CIdle?
    requires Sub(seen, s.cachedHead % TWO_64) <= Sub(s.head % TWO_64, s.cachedHead % TWO_64)
    ensures s' == PopResult(s, s.cachedHead + Sub(seen, s.cachedHead % TWO_64))
    ensures var c, w := Pow2(k), Wrap(s);
      && Inv(c, s') && s'.prod.PIdle? && s'.cons.CIdle?
      && Wrap(s') == PopW(w, seen)
      && (if PopRefused(w, seen)
          then Contents(c, s') == Contents(c, s) && |Contents(c, s)| == Sub(w.head, seen)
          else Contents(c, s) == [w.buf[Cell(w.tail, k)]] + Contents(c, s'))
  {
    var seenU := PopWraps(k, s, seen);
    PopEffect(Pow2(k), s, seenU);
    s' := PopResult(s, seenU);
    WrapKeepsCell(s.tail, k);
  }

  lemma PopWraps<T>(k: nat, s: State<T>, seen: Word) returns (seenU: nat)
    requires k <= 63 && Inv(Pow2(k), s) && s.prod.PIdle? && s.cons.CIdle?
    requires Sub(seen, s.cachedHead % TWO_64) <= Sub(s.head % TWO_64, s.cachedHead % TWO_64)
    ensures seenU == s.cachedHead + Sub(seen, s.cachedHead % TWO_64) && s.cachedHead <= seenU <= s.head
    ensures Sub(Wrap(s).head, seen) == s.head - seenU
    ensures var s' := PopResult(s, seenU);
      && Wrap(s') == PopW(Wrap(s), seen)
      && s'.tail == if PopRefused(Wrap(s), seen) then s.tail else s.tail + 1
  {
    seenU := s.cachedHead + Sub(seen, s.cachedHead % TWO_64);
    PopArithmetic(k, s, seen);
  }
}
