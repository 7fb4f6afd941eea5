/**
 The single-producer/single-consumer ring as interleaved atomic steps, first
 with unbounded counters. `PushLoad(seen)` and `PopLoad(seen)` are the acquire
 loads of the opposite index: coherence lets them return any value between the
 one this thread saw last and the current one.
 */
module RingMachine {
  import opened Fifo
  import opened Machine64

  datatype Producer<T> =
    | PIdle
    | PCheck(own: nat, item: T)    // own index loaded, cached index not yet tested
    | PLoad(own: nat, item: T)     // looked full, must refresh the cached tail
    | PWrite(own: nat, item: T)    // free cell established
    | PPublish(own: nat, item: T)  // cell written, head not yet stored

  datatype Consumer<T> =
    | CIdle
    | CCheck(own: nat)
    | CLoad(own: nat)
    | CRead(own: nat)
    | CPublish(own: nat, out: T)

  datatype State<T> = State(head: nat, tail: nat, cachedHead: nat, cachedTail: nat,
                            buf: seq<T>, prod: Producer<T>, cons: Consumer<T>)

  datatype Action<T> =
    | PushCall(item: T) | PushCheck | PushLoad(seen: nat) | PushWrite | PushPublish
    | PopCall | PopCheck | PopLoad(seen: nat) | PopRead | PopPublish
  {
    predicate ByConsumer() {
      PopCall? || PopCheck? || PopLoad? || PopRead? || PopPublish?
    }
  }

  /** An empty ring over an arbitrary (uninitialised) buffer. */
  function Initial<T>(buf: seq<T>): State<T> {
    State(0, 0, 0, 0, buf, PIdle, CIdle)
  }

  ghost predicate Enabled<T>(c: nat, s: State<T>, a: Action<T>) {
    match a
    case PushCall(_) => s.prod.PIdle?
    case PushCheck => s.prod.PCheck?
    case PushLoad(seen) => s.prod.PLoad? && s.cachedTail <= seen <= s.tail
    case PushWrite => s.prod.PWrite?
    case PushPublish => s.prod.PPublish?
    case PopCall => s.cons.CIdle?
    case PopCheck => s.cons.CCheck?
    case PopLoad(seen) => s.cons.CLoad? && s.cachedHead <= seen <= s.head
    case PopRead => s.cons.CRead?
    case PopPublish => s.cons.CPublish?
  }

  ghost function Do<T>(c: nat, s: State<T>, a: Action<T>): State<T>
    requires c > 0 && |s.buf| == c && Enabled(c, s, a)
  {
    match a
    case PushCall(x) => s.(prod := PCheck(s.head, x))
    case PushCheck =>
      var p := s.prod;
      s.(prod := if p.own + 1 > s.cachedTail + c then PLoad(p.own, p.item) else PWrite(p.own, p.item))
    case PushLoad(seen) =>
      var p := s.prod;
      s.(cachedTail := seen, prod := if p.own + 1 > seen + c then PIdle else PWrite(p.own, p.item))
    case PushWrite =>
      var p := s.prod;
      s.(buf := s.buf[p.own % c := p.item], prod := PPublish(p.own, p.item))
    case PushPublish => s.(head := s.prod.own + 1, prod := PIdle)
    case PopCall => s.(cons := CCheck(s.tail))
    case PopCheck =>
      s.(cons := if s.cons.own == s.cachedHead then CLoad(s.cons.own) else CRead(s.cons.own))
    case PopLoad(seen) =>
      s.(cachedHead := seen, cons := if s.cons.own == seen then CIdle else CRead(s.cons.own))
    case PopRead => s.(cons := CPublish(s.cons.own, s.buf[s.cons.own % c]))
    case PopPublish => s.(tail := s.cons.own + 1, cons := CIdle)
  }

  /** What the caller of `try_push` / `try_pop` observes when the step returns. */
  ghost function Label<T>(c: nat, s: State<T>, a: Action<T>): Event<T>
    requires Enabled(c, s, a)
  {
    match a
    case PushPublish => Enq(s.prod.item)
    case PushLoad(seen) => if s.prod.own + 1 > seen + c then Full(s.tail - seen) else Tau
    case PopPublish => Deq(s.cons.out)
    case PopLoad(seen) => if s.cons.own == seen then Empty(s.head - seen) else Tau
    case _ => Tau
  }

  ghost predicate Admissible<T>(c: nat, s: State<T>, acts: seq<Action<T>>)
    requires c > 0 && |s.buf| == c
    decreases |acts|
  {
    acts == [] || (Enabled(c, s, acts[0]) && Admissible(c, Do(c, s, acts[0]), acts[1..]))
  }

  ghost function Exec<T>(c: nat, s: State<T>, acts: seq<Action<T>>): (s': State<T>)
    requires c > 0 && |s.buf| == c && Admissible(c, s, acts)
    ensures |s'.buf| == c
    decreases |acts|
  {
    if acts == [] then s else Exec(c, Do(c, s, acts[0]), acts[1..])
  }

  ghost function Labels<T>(c: nat, s: State<T>, acts: seq<Action<T>>): seq<Event<T>>
    requires c > 0 && |s.buf| == c && Admissible(c, s, acts)
    decreases |acts|
  {
    if acts == [] then [] else [Label(c, s, acts[0])] + Labels(c, Do(c, s, acts[0]), acts[1..])
  }

  // ------------------------------ invariant ------------------------------

  ghost predicate Inv<T>(c: nat, s: State<T>) {
    && c > 0 && |s.buf| == c
    && s.cachedTail <= s.tail <= s.cachedHead <= s.head <= s.cachedTail + c
    && (match s.prod
        case PIdle => true
        case PCheck(own, _) => own == s.head
        case PLoad(own, _) => own == s.head == s.cachedTail + c
        case PWrite(own, _) => own == s.head < s.cachedTail + c
        case PPublish(own, x) => own == s.head < s.cachedTail + c && s.buf[own % c] == x)
    && (match s.cons
        case CIdle => true
        case CCheck(own) => own == s.tail
        case CLoad(own) => own == s.tail == s.cachedHead
        case CRead(own) => own == s.tail < s.cachedHead
        case CPublish(own, out) => own == s.tail < s.cachedHead && s.buf[own % c] == out)
  }

  /** The queue a state stands for: the unread cells, oldest first. */
  ghost function Contents<T>(c: nat, s: State<T>): (q: seq<T>)
    requires Inv(c, s)
    ensures |q| == s.head - s.tail
  {
    seq(s.head - s.tail, i requires 0 <= i < s.head - s.tail => s.buf[(s.tail + i) % c])
  }

  /** The cell the producer writes next is neither unread nor about to be read. */
  lemma SlotExclusion<T>(c: nat, s: State<T>)
    requires Inv(c, s) && s.prod.PWrite?
    ensures forall j :: s.tail <= j < s.head ==> j % c != s.prod.own % c
    ensures s.cons.CRead? ==> s.cons.own % c != s.prod.own % c
  {
    forall j | s.tail <= j < s.head ensures j % c != s.prod.own % c {
      CellsDiffer(j, s.prod.own, c);
    }
  }

  lemma StepKeepsInv<T>(c: nat, s: State<T>, a: Action<T>)
    requires Inv(c, s) && Enabled(c, s, a)
    ensures Inv(c, Do(c, s, a))
  {
    if a.PushWrite? && s.cons.CPublish? {
      CellsDiffer(s.tail, s.head, c);
    }
  }

  /** Steps other than the two publishes leave the unread cells as they are. */
  lemma SilentStep<T>(c: nat, s: State<T>, a: Action<T>)
    requires Inv(c, s) && Enabled(c, s, a) && !a.PushPublish? && !a.PopPublish?
    ensures Inv(c, Do(c, s, a)) && Contents(c, Do(c, s, a)) == Contents(c, s)
  {
    StepKeepsInv(c, s, a);
    var s' := Do(c, s, a);
    if a.PushWrite? {
      SlotExclusion(c, s);
      forall j | s.tail <= j < s.head ensures s'.buf[j % c] == s.buf[j % c] {
      }
    }
    SameCells(c, s, s');
  }

  lemma SameCells<T>(c: nat, s: State<T>, s': State<T>)
    requires Inv(c, s) && Inv(c, s') && s'.head == s.head && s'.tail == s.tail
    requires forall j | s.tail <= j < s.head :: s'.buf[j % c] == s.buf[j % c]
    ensures Contents(c, s') == Contents(c, s)
  {
    var q, q' := Contents(c, s), Contents(c, s');
    forall i | 0 <= i < |q| ensures q'[i] == q[i] {
      assert s'.buf[(s.tail + i) % c] == s.buf[(s.tail + i) % c];
    }
  }

  lemma PublishPush<T>(c: nat, s: State<T>)
    requires Inv(c, s) && Enabled(c, s, PushPublish)
    ensures Contents(c, Do(c, s, PushPublish)) == Contents(c, s) + [s.prod.item] && |Contents(c, s)| < c
  {
    StepKeepsInv(c, s, PushPublish);
    var q, q', x := Contents(c, s), Contents(c, Do(c, s, PushPublish)), s.prod.item;
    forall i | 0 <= i < |q'| ensures q'[i] == (q + [x])[i] {
      if i < |q| {
        assert q'[i] == s.buf[(s.tail + i) % c];
      } else {
        assert q'[i] == s.buf[s.head % c];
      }
    }
  }

  lemma PublishPop<T>(c: nat, s: State<T>)
    requires Inv(c, s) && Enabled(c, s, PopPublish)
    ensures var q := Contents(c, s);
      q != [] && q[0] == s.cons.out && Contents(c, Do(c, s, PopPublish)) == q[1..]
  {
    StepKeepsInv(c, s, PopPublish);
    var q, q' := Contents(c, s), Contents(c, Do(c, s, PopPublish));
    assert q[0] == s.buf[(s.tail + 0) % c];
    forall i | 0 <= i < |q'| ensures q'[i] == q[1..][i] {
      assert q'[i] == s.buf[(s.tail + 1 + i) % c] && q[i + 1] == s.buf[(s.tail + (i + 1)) % c];
    }
  }

  /** Every step keeps the invariant and is a step of the bounded queue. */
  lemma StepRefines<T>(c: nat, s: State<T>, a: Action<T>)
    requires Inv(c, s) && Enabled(c, s, a)
    ensures Inv(c, Do(c, s, a))
    ensures Allowed(c, Contents(c, s), Label(c, s, a))
    ensures Contents(c, Do(c, s, a)) == After(Contents(c, s), Label(c, s, a))
  {
    StepKeepsInv(c, s, a);
    if a.PushPublish? {
      PublishPush(c, s);
    } else if a.PopPublish? {
      PublishPop(c, s);
    } else {
      SilentStep(c, s, a);
    }
  }

  /** Over any interleaving the ring behaves as a bounded FIFO queue. */
  lemma {:induction false} RunRefines<T>(c: nat, s: State<T>, acts: seq<Action<T>>)
    requires Inv(c, s) && Admissible(c, s, acts)
    ensures Inv(c, Exec(c, s, acts))
    ensures Accepts(c, Contents(c, s), Labels(c, s, acts))
    ensures Contents(c, Exec(c, s, acts)) == Fifo.Run(Contents(c, s), Labels(c, s, acts))
    decreases |acts|
  {
    if acts != [] {
      StepRefines(c, s, acts[0]);
      RunRefines(c, Do(c, s, acts[0]), acts[1..]);
    }
  }

  lemma PoppedIsPrefixOfPushed<T>(buf: seq<T>, acts: seq<Action<T>>)
    requires |buf| > 0 && Admissible(|buf|, Initial(buf), acts)
    ensures var c, s, es := |buf|, Exec(|buf|, Initial(buf), acts), Labels(|buf|, Initial(buf), acts);
      Inv(c, s) && Enqueued(es) == Dequeued(es) + Contents(c, s) && |Contents(c, s)| <= c
  {
    var c, s0 := |buf|, Initial(buf);
    RunRefines(c, s0, acts);
    InOrder(c, Contents(c, s0), Labels(c, s0, acts));
    assert Contents(c, s0) == [];
  }

  // ------------------------------ occupancy ------------------------------

  lemma StepFrame<T>(c: nat, s: State<T>, a: Action<T>)
    requires Inv(c, s) && Enabled(c, s, a)
    ensures var s' := Do(c, s, a);
      && s.head <= s'.head && s.tail <= s'.tail
      && (a.ByConsumer() ==> s'.head == s.head && s'.cachedTail == s.cachedTail)
      && (!a.ByConsumer() ==> s'.tail == s.tail)
  {
  }

  /** Each thread moves its own index only, and only forward. */
  lemma {:induction false} RunFrame<T>(c: nat, s: State<T>, acts: seq<Action<T>>)
    requires Inv(c, s) && Admissible(c, s, acts)
    ensures var s' := Exec(c, s, acts);
      && Inv(c, s') && s.head <= s'.head && s.tail <= s'.tail
      && ((forall a :: a in acts ==> a.ByConsumer()) ==> s'.head == s.head && s'.cachedTail == s.cachedTail)
      && ((forall a :: a in acts ==> !a.ByConsumer()) ==> s'.tail == s.tail)
    decreases |acts|
  {
    if acts != [] {
      var a, rest := acts[0], acts[1..];
      var s1 := Do(c, s, a);
      StepKeepsInv(c, s, a);
      StepFrame(c, s, a);
      RunFrame(c, s1, rest);
      assert a in acts && forall b :: b in rest ==> b in acts;
    }
  }

  /** `size_approx`: head is loaded first, tail second, then a uint64 subtraction. */
  function SizeOf(h: nat, t: nat): Word {
    Sub(h % TWO_64, t % TWO_64)
  }

  /** Asked by the producer, whatever the consumer does between the two loads. */
  lemma ProducerSizeIsSound<T>(c: nat, s: State<T>, acts: seq<Action<T>>, t: nat)
    requires Inv(c, s) && c <= TWO_63 && Admissible(c, s, acts)
    requires forall a :: a in acts ==> a.ByConsumer()
    requires s.cachedTail <= t <= Exec(c, s, acts).tail
    ensures SizeOf(s.head, t) == s.head - t <= c
  {
    RunFrame(c, s, acts);
    SizeNoWrap(s.head, t);
  }

  /** Asked by the consumer: the head may be stale, its own tail is exact. */
  lemma ConsumerSizeIsSound<T>(c: nat, s: State<T>, acts: seq<Action<T>>, h: nat)
    requires Inv(c, s) && c <= TWO_63 && Admissible(c, s, acts)
    requires forall a :: a in acts ==> !a.ByConsumer()
    requires s.cachedHead <= h <= s.head
    ensures SizeOf(h, Exec(c, s, acts).tail) == h - s.tail <= c
  {
    RunFrame(c, s, acts);
    SizeNoWrap(h, s.tail);
  }

  /**
   Asked by any third thread, even with loads that are never stale: the answer
   is an occupancy exactly when the tail has not overtaken the head that was
   loaded first. Otherwise the subtraction wraps below zero.
   */
  lemma BystanderSize<T>(c: nat, s: State<T>, acts: seq<Action<T>>)
    requires Inv(c, s) && c <= TWO_63 && Admissible(c, s, acts)
    requires Exec(c, s, acts).tail < s.head + TWO_63
    ensures var t := Exec(c, s, acts).tail;
      SizeOf(s.head, t) <= c <==> t <= s.head
  {
    RunFrame(c, s, acts);
    var t := Exec(c, s, acts).tail;
    if t > s.head {
      WrapsBelow(s.head, t);
    } else {
      SizeNoWrap(s.head, t);
    }
  }

  lemma WrapsBelow(h: nat, t: nat)
    requires h < t < h + TWO_63
    ensures SizeOf(h, t) > TWO_63
  {
  }

  lemma SizeNoWrap(h: nat, t: nat)
    requires t <= h < t + TWO_64
    ensures SizeOf(h, t) == h - t
  {
  }

  lemma {:induction false} ExecConcat<T>(c: nat, s: State<T>, a: seq<Action<T>>, b: seq<Action<T>>)
    requires c > 0 && |s.buf| == c && Admissible(c, s, a) && Admissible(c, Exec(c, s, a), b)
    ensures Admissible(c, s, a + b) && Exec(c, s, a + b) == Exec(c, Exec(c, s, a), b)
    ensures Labels(c, s, a + b) == Labels(c, s, a) + Labels(c, Exec(c, s, a), b)
    decreases |a|
  {
    if a == [] {
      assert a + b == b;
    } else {
      assert (a + b)[1..] == a[1..] + b;
      ExecConcat(c, Do(c, s, a[0]), a[1..], b);
    }
  }

  /** One more step at the end of a run. */
  lemma Then<T>(c: nat, s: State<T>, acts: seq<Action<T>>, a: Action<T>) returns (acts': seq<Action<T>>)
    requires c > 0 && |s.buf| == c && Admissible(c, s, acts) && Enabled(c, Exec(c, s, acts), a)
    ensures acts' == acts + [a] && Admissible(c, s, acts')
    ensures Exec(c, s, acts') == Do(c, Exec(c, s, acts), a)
    ensures Labels(c, s, acts') == Labels(c, s, acts) + [Label(c, Exec(c, s, acts), a)]
  {
    acts' := acts + [a];
    ExecConcat(c, s, acts, [a]);
  }

  /** A push and a pop between the two loads are enough. */
  lemma BystanderCanSeeUnderflow<T>(c: nat, s: State<T>, x: T) returns (acts: seq<Action<T>>)
    requires Inv(c, s) && s.prod == PIdle && s.cons == CIdle
    requires s.head == s.tail == s.cachedHead == s.cachedTail
    ensures Admissible(c, s, acts) && SizeOf(s.head, Exec(c, s, acts).tail) == TWO_64 - 1
  {
    acts := Then(c, s, [], PushCall(x));
    acts := Then(c, s, acts, PushCheck);
    acts := Then(c, s, acts, PushWrite);
    acts := Then(c, s, acts, PushPublish);
    acts := ThenPop(c, s, acts);
    OneBelow(s.head);
  }

  lemma ThenPop<T>(c: nat, s: State<T>, acts: seq<Action<T>>) returns (acts': seq<Action<T>>)
    requires c > 0 && |s.buf| == c && Admissible(c, s, acts)
    requires var m := Exec(c, s, acts); m.cons == CIdle && m.tail == m.cachedHead < m.head
    ensures Admissible(c, s, acts') && Exec(c, s, acts').tail == Exec(c, s, acts).tail + 1
  {
    var head := Exec(c, s, acts).head;
    acts' := Then(c, s, acts, PopCall);
    acts' := Then(c, s, acts', PopCheck);
    acts' := Then(c, s, acts', PopLoad(head));
    acts' := Then(c, s, acts', PopRead);
    acts' := Then(c, s, acts', PopPublish);
  }

  lemma OneBelow(h: nat)
    ensures SizeOf(h, h + 1) == TWO_64 - 1
  {
  }
}
