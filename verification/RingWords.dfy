/**
 The ring as the C++ code runs it: uint64_t indices that wrap, a capacity of
 `2^k` and cell selection by bit mask. Every step is matched, in both
 directions, by a step of the unbounded machine.
 */
module RingWords {
  import opened Fifo
  import opened Machine64
  import opened RingMachine

  function Cell(own: nat, k: nat): (i: nat)
    ensures i < Pow2(k)
  {
    MaskIsModulo(own, k);
    And(own, Pow2(k) - 1)
  }

  ghost predicate EnabledW<T>(w: State<T>, a: Action<T>) {
    match a
    case PushLoad(seen) =>
      w.prod.PLoad? && seen < TWO_64 && Sub(seen, w.cachedTail) <= Sub(w.tail, w.cachedTail)
    case PopLoad(seen) =>
      w.cons.CLoad? && seen < TWO_64 && Sub(seen, w.cachedHead) <= Sub(w.head, w.cachedHead)
    case _ => Enabled(1, w, a)
  }

  ghost function DoW<T>(k: nat, w: State<T>, a: Action<T>): State<T>
    requires |w.buf| == Pow2(k) && EnabledW(w, a)
  {
    match a
    case PushCall(x) => w.(prod := PCheck(w.head, x))
    case PushCheck =>
      var p := w.prod;
      w.(prod := if Sub(Add(p.own, 1), w.cachedTail) > Pow2(k) then PLoad(p.own, p.item) else PWrite(p.own, p.item))
    case PushLoad(seen) =>
      var p := w.prod;
      w.(cachedTail := seen, prod := if Sub(Add(p.own, 1), seen) > Pow2(k) then PIdle else PWrite(p.own, p.item))
    case PushWrite =>
      var p := w.prod;
      w.(buf := w.buf[Cell(p.own, k) := p.item], prod := PPublish(p.own, p.item))
    case PushPublish => w.(head := Add(w.prod.own, 1), prod := PIdle)
    case PopCall => w.(cons := CCheck(w.tail))
    case PopCheck =>
      w.(cons := if w.cons.own == w.cachedHead then CLoad(w.cons.own) else CRead(w.cons.own))
    case PopLoad(seen) =>
      w.(cachedHead := seen, cons := if w.cons.own == seen then CIdle else CRead(w.cons.own))
    case PopRead => w.(cons := CPublish(w.cons.own, w.buf[Cell(w.cons.own, k)]))
    case PopPublish => w.(tail := Add(w.cons.own, 1), cons := CIdle)
  }

  ghost function LabelW<T>(k: nat, w: State<T>, a: Action<T>): Event<T>
    requires EnabledW(w, a)
  {
    match a
    case PushPublish => Enq(w.prod.item)
    case PushLoad(seen) => if Sub(Add(w.prod.own, 1), seen) > Pow2(k) then Full(Sub(w.tail, seen)) else Tau
    case PopPublish => Deq(w.cons.out)
    case PopLoad(seen) => if w.cons.own == seen then Empty(Sub(w.head, seen)) else Tau
    case _ => Tau
  }

  ghost predicate AdmissibleW<T>(k: nat, w: State<T>, acts: seq<Action<T>>)
    requires |w.buf| == Pow2(k)
    decreases |acts|
  {
    acts == [] || (EnabledW(w, acts[0]) && AdmissibleW(k, DoW(k, w, acts[0]), acts[1..]))
  }

  ghost function ExecW<T>(k: nat, w: State<T>, acts: seq<Action<T>>): State<T>
    requires |w.buf| == Pow2(k) && AdmissibleW(k, w, acts)
    decreases |acts|
  {
    if acts == [] then w else ExecW(k, DoW(k, w, acts[0]), acts[1..])
  }

  ghost function LabelsW<T>(k: nat, w: State<T>, acts: seq<Action<T>>): seq<Event<T>>
    requires |w.buf| == Pow2(k) && AdmissibleW(k, w, acts)
    decreases |acts|
  {
    if acts == [] then [] else [LabelW(k, w, acts[0])] + LabelsW(k, DoW(k, w, acts[0]), acts[1..])
  }

  // ------------------------- the two machines agree -------------------------

  ghost function Wrap<T>(s: State<T>): State<T> {
    State(s.head % TWO_64, s.tail % TWO_64, s.cachedHead % TWO_64, s.cachedTail % TWO_64, s.buf,
          WrapProducer(s.prod), WrapConsumer(s.cons))
  }

  ghost function WrapProducer<T>(p: Producer<T>): Producer<T> {
    match p
    case PIdle => PIdle
    case PCheck(own, x) => PCheck(own % TWO_64, x)
    case PLoad(own, x) => PLoad(own % TWO_64, x)
    case PWrite(own, x) => PWrite(own % TWO_64, x)
    case PPublish(own, x) => PPublish(own % TWO_64, x)
  }

  ghost function WrapConsumer<T>(c: Consumer<T>): Consumer<T> {
    match c
    case CIdle => CIdle
    case CCheck(own) => CCheck(own % TWO_64)
    case CLoad(own) => CLoad(own % TWO_64)
    case CRead(own) => CRead(own % TWO_64)
    case CPublish(own, out) => CPublish(own % TWO_64, out)
  }

  ghost function WrapAction<T>(a: Action<T>): Action<T> {
    match a
    case PushLoad(seen) => PushLoad(seen % TWO_64)
    case PopLoad(seen) => PopLoad(seen % TWO_64)
    case _ => a
  }

  /** The unbounded step a machine-word step stands for. */
  ghost function Lift<T>(s: State<T>, a: Action<T>): Action<T> {
    match a
    case PushLoad(seen) => PushLoad(s.cachedTail + Sub(seen, s.cachedTail % TWO_64))
    case PopLoad(seen) => PopLoad(s.cachedHead + Sub(seen, s.cachedHead % TWO_64))
    case _ => a
  }

  lemma DistanceSurvivesWrap(x: nat, y: nat)
    requires y <= x < y + TWO_64
    ensures Sub(x % TWO_64, y % TWO_64) == x - y
  {
  }

  lemma ForwardSurvivesWrap(x: nat, w: nat)
    requires w < TWO_64
    ensures (x + Sub(w, x % TWO_64)) % TWO_64 == w
  {
  }

  lemma NextSurvivesWrap(x: nat)
    ensures Add(x % TWO_64, 1) == (x + 1) % TWO_64
  {
  }

  lemma PushLoadLifts<T>(k: nat, s: State<T>, a: Action<T>)
    requires k <= 63 && Inv(Pow2(k), s) && a.PushLoad? && EnabledW(Wrap(s), a)
    ensures Enabled(Pow2(k), s, Lift(s, a)) && WrapAction(Lift(s, a)) == a
    ensures DoW(k, Wrap(s), a) == Wrap(Do(Pow2(k), s, Lift(s, a)))
    ensures LabelW(k, Wrap(s), a) == Label(Pow2(k), s, Lift(s, a))
  {
    WrapKeepsCell(0, k);
    NextSurvivesWrap(s.head);
    ForwardSurvivesWrap(s.cachedTail, a.seen);
    DistanceSurvivesWrap(s.tail, s.cachedTail);
    var seen := Lift(s, a).seen;
    DistanceSurvivesWrap(s.head + 1, seen);
    DistanceSurvivesWrap(s.tail, seen);
  }

  lemma PopLoadLifts<T>(k: nat, s: State<T>, a: Action<T>)
    requires k <= 63 && Inv(Pow2(k), s) && a.PopLoad? && EnabledW(Wrap(s), a)
    ensures Enabled(Pow2(k), s, Lift(s, a)) && WrapAction(Lift(s, a)) == a
    ensures DoW(k, Wrap(s), a) == Wrap(Do(Pow2(k), s, Lift(s, a)))
    ensures LabelW(k, Wrap(s), a) == Label(Pow2(k), s, Lift(s, a))
  {
    WrapKeepsCell(0, k);
    ForwardSurvivesWrap(s.cachedHead, a.seen);
    DistanceSurvivesWrap(s.head, s.cachedHead);
    var seen := Lift(s, a).seen;
    DistanceSurvivesWrap(seen, s.tail);
    DistanceSurvivesWrap(s.head, seen);
  }

  lemma CheckLifts<T>(k: nat, s: State<T>, a: Action<T>)
    requires k <= 63 && Inv(Pow2(k), s) && (a.PushCheck? || a.PopCheck?) && EnabledW(Wrap(s), a)
    ensures Enabled(Pow2(k), s, Lift(s, a)) && WrapAction(Lift(s, a)) == a
    ensures DoW(k, Wrap(s), a) == Wrap(Do(Pow2(k), s, Lift(s, a)))
    ensures LabelW(k, Wrap(s), a) == Label(Pow2(k), s, Lift(s, a))
  {
    WrapKeepsCell(0, k);
    CheckNumbers(s.head, s.cachedHead, s.tail, s.cachedTail);
  }

  lemma CheckNumbers(head: nat, cachedHead: nat, tail: nat, cachedTail: nat)
    requires cachedTail <= head < cachedTail + TWO_64 - 1 && tail <= cachedHead < tail + TWO_64
    ensures Sub(Add(head % TWO_64, 1), cachedTail % TWO_64) == head + 1 - cachedTail
    ensures tail % TWO_64 == cachedHead % TWO_64 <==> tail == cachedHead
  {
    NextSurvivesWrap(head);
    DistanceSurvivesWrap(head + 1, cachedTail);
    DistanceSurvivesWrap(cachedHead, tail);
  }

  lemma CellLifts<T>(k: nat, s: State<T>, a: Action<T>)
    requires k <= 63 && Inv(Pow2(k), s) && (a.PushWrite? || a.PopRead?) && EnabledW(Wrap(s), a)
    ensures Enabled(Pow2(k), s, Lift(s, a)) && WrapAction(Lift(s, a)) == a
    ensures DoW(k, Wrap(s), a) == Wrap(Do(Pow2(k), s, Lift(s, a)))
    ensures LabelW(k, Wrap(s), a) == Label(Pow2(k), s, Lift(s, a))
  {
    WrapKeepsCell(s.head, k);
    WrapKeepsCell(s.tail, k);
  }

  /** A machine-word step is the image of the unbounded step `Lift` names. */
  lemma WordStepLifts<T>(k: nat, s: State<T>, a: Action<T>)
    requires k <= 63 && Inv(Pow2(k), s) && EnabledW(Wrap(s), a)
    ensures Enabled(Pow2(k), s, Lift(s, a)) && WrapAction(Lift(s, a)) == a
    ensures DoW(k, Wrap(s), a) == Wrap(Do(Pow2(k), s, Lift(s, a)))
    ensures LabelW(k, Wrap(s), a) == Label(Pow2(k), s, Lift(s, a))
  {
    match a {
      case PushLoad(_) => PushLoadLifts(k, s, a);
      case PopLoad(_) => PopLoadLifts(k, s, a);
      case PushCheck => CheckLifts(k, s, a);
      case PopCheck => CheckLifts(k, s, a);
      case PushWrite => CellLifts(k, s, a);
      case PopRead => CellLifts(k, s, a);
      case PushPublish => NextSurvivesWrap(s.head);
      case PopPublish => NextSurvivesWrap(s.tail);
      case _ =>
    }
  }

  /** Conversely every unbounded step has exactly one machine-word image. */
  lemma UnboundedStepHasImage<T>(k: nat, s: State<T>, a: Action<T>)
    requires k <= 63 && Inv(Pow2(k), s) && Enabled(Pow2(k), s, a)
    ensures EnabledW(Wrap(s), WrapAction(a)) && Lift(s, WrapAction(a)) == a
  {
    WrapKeepsCell(0, k);
    match a {
      case PushLoad(seen) =>
        DistanceSurvivesWrap(seen, s.cachedTail);
        DistanceSurvivesWrap(s.tail, s.cachedTail);
      case PopLoad(seen) =>
        DistanceSurvivesWrap(seen, s.cachedHead);
        DistanceSurvivesWrap(s.head, s.cachedHead);
      case _ =>
    }
  }

  /** A whole machine-word run is the image of an unbounded run, over any number of wraps. */
  lemma {:induction false} WordRunLifts<T>(k: nat, s: State<T>, acts: seq<Action<T>>) returns (lifted: seq<Action<T>>)
    requires k <= 63 && Inv(Pow2(k), s) && AdmissibleW(k, Wrap(s), acts)
    ensures Admissible(Pow2(k), s, lifted)
    ensures ExecW(k, Wrap(s), acts) == Wrap(Exec(Pow2(k), s, lifted))
    ensures LabelsW(k, Wrap(s), acts) == Labels(Pow2(k), s, lifted)
    decreases |acts|
  {
    if acts == [] {
      lifted := [];
    } else {
      var a := Lift(s, acts[0]);
      WordStepLifts(k, s, acts[0]);
      StepKeepsInv(Pow2(k), s, a);
      var rest := WordRunLifts(k, Do(Pow2(k), s, a), acts[1..]);
      lifted := [a] + rest;
    }
  }

  /** What the compiled ring delivers: a bounded FIFO, whatever the interleaving and the staleness. */
  lemma WordRingIsFifo<T>(k: nat, buf: seq<T>, acts: seq<Action<T>>)
    requires k <= 63 && |buf| == Pow2(k) && AdmissibleW(k, Initial(buf), acts)
    ensures var es := LabelsW(k, Initial(buf), acts);
      && Accepts(Pow2(k), [], es)
      && Enqueued(es) == Dequeued(es) + Fifo.Run([], es)
      && |Fifo.Run([], es)| <= Pow2(k)
  {
    var s0 := Initial(buf);
    assert Wrap(s0) == s0;
    var lifted := WordRunLifts(k, s0, acts);
    RunRefines(Pow2(k), s0, lifted);
    assert Contents(Pow2(k), s0) == [];
    InOrder(Pow2(k), [], LabelsW(k, s0, acts));
  }
}
