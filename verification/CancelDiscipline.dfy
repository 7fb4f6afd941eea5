/**
 The order in which commands leave the strategy: ClOrdIDs strictly increase, no
 order is the target of two Cancels, and a Cancel leaves only after the
 acknowledgement of its order was handled. A venue that repeats acknowledgements
 breaks this exactly when a repeated one can meet a quote that has been
 acknowledged. A target can be `0`, the id of an empty slot (see `PhantomQuotes`).
 */
module CancelDiscipline {
  import opened Events
  import opened OrderManager
  import opened MarketMaker
  import opened QuoteSystem
  import QuoteFills
  import SR = StatusRule

  /** Everything the strategy has pushed, in order: what left the ring, then what is in it. */
  function Sent(s: Sys): seq<OrderCmd> {
    s.left + s.strat.out
  }

  ghost predicate Acked(s: Sys, id: nat) {
    exists e :: e in s.processed && e.kind.KNew? && e.id == id
  }

  ghost predicate NeverCancelled(cmds: seq<OrderCmd>, id: nat) {
    forall c | c in cmds && c.Cancel? :: c.orig != id
  }

  ghost predicate IdsIncrease(s: Sys, cmds: seq<OrderCmd>) {
    && (forall i, j | 0 <= i < j < |cmds| :: cmds[i].id < cmds[j].id)
    && (forall c | c in cmds :: s.first <= c.id < s.strat.seed)
  }

  ghost predicate CancelsOnce(s: Sys, cmds: seq<OrderCmd>) {
    && (forall i, j | 0 <= i < j < |cmds| && cmds[i].Cancel? && cmds[j].Cancel? ::
          cmds[i].orig == cmds[j].orig ==> cmds[i].orig == 0)
    && (forall c | c in cmds && c.Cancel? ::
          c.orig == 0 || (s.first <= c.orig < s.strat.seed && Acked(s, c.orig)))
  }

  ghost predicate SlotsMayCancel(s: Sys) {
    forall k | 0 <= k < |s.strat.slots| && s.strat.slots[k].id >= s.first :: var q := s.strat.slots[k];
      && q.state != NoQuote
      && (NeverCancelled(Sent(s), q.id) <==> q.state != PendingCancel)
      && (q.state == Live ==> Acked(s, q.id))
  }

  /** The end of the order is in the exec ring, where nothing is lost any more, in front of position `j`. */
  ghost predicate EndsBefore(s: Sys, j: nat, id: nat) {
    exists i :: 0 <= i < j && i < |s.execs| && s.execs[i].id == id && s.execs[i].kind.Terminal()
  }

  ghost predicate NoAckBefore(p: seq<ExecEvent>, j: nat, id: nat)
    requires j <= |p|
  {
    forall i | 0 <= i < j && p[i].kind.KNew? :: p[i].id != id
  }

  /** An acknowledgement at position `j` of what is pending will be the slot's first, or find it empty. */
  ghost predicate AckFits(s: Sys, j: nat, id: nat)
    requires j <= |Pending(s)|
  {
    forall k | 0 <= k < |s.strat.slots| && s.strat.slots[k].id == id ::
      EndsBefore(s, j, id) || (s.strat.slots[k].state == PendingNew && NoAckBefore(Pending(s), j, id))
  }

  ghost predicate AcksAwaited(s: Sys) {
    forall j | 0 <= j < |Pending(s)| && Pending(s)[j].kind.KNew? && Pending(s)[j].id >= s.first ::
      AckFits(s, j, Pending(s)[j].id)
  }

  ghost predicate Unacked(s: Sys, id: nat) {
    && (forall e | e in Pending(s) && e.kind.KNew? :: e.id != id)
    && (forall r | r in s.told && Decode(r).kind.KNew? :: Decode(r).id != id)
  }

  /** A new order that has not reached the exchange is unacknowledged and its slot waits. */
  ghost predicate NewsUnacked(s: Sys, cmds: seq<OrderCmd>) {
    forall c | c in cmds && c.New? ::
      && c.slot < |s.strat.slots| && s.strat.slots[c.slot].id == c.id && s.strat.slots[c.slot].state == PendingNew
      && Unacked(s, c.id)
  }

  ghost predicate Disciplined(s: Sys) {
    && IdsIncrease(s, Sent(s))
    && CancelsOnce(s, Sent(s))
    && SlotsMayCancel(s)
    && AcksAwaited(s)
    && NewsUnacked(s, s.wire) && NewsUnacked(s, s.strat.out)
  }

  /**
   A repeated acknowledgement of an order of this run does no harm: its slot has
   moved on, or is emptied by a report already in the exec ring, or still waits
   for a first acknowledgement.
   */
  ghost predicate RepeatFits(s: Sys, a: Action) {
    a.Repeat? && Decode(a.r).kind.KNew? && Decode(a.r).id >= s.first ==> AckFits(s, |Pending(s)|, Decode(a.r).id)
  }

  ghost predicate RepeatsFit(cfg: Config, s: Sys, acts: seq<Action>)
    requires Admissible(cfg, s, acts)
    decreases |acts|
  {
    acts == [] || (RepeatFits(s, acts[0]) && RepeatsFit(cfg, Do(cfg, s, acts[0]), acts[1..]))
  }

  // ------------------------- acknowledgements on their way -------------------------

  lemma EndsStay(s: Sys, s': Sys, j: nat, id: nat)
    requires EndsBefore(s, j, id) && s.execs <= s'.execs
    ensures EndsBefore(s', j, id)
  {
    var i :| 0 <= i < j && i < |s.execs| && s.execs[i].id == id && s.execs[i].kind.Terminal();
    assert s'.execs[i] == s.execs[i];
  }

  lemma AcksStay(s: Sys, s': Sys)
    requires AcksAwaited(s) && s'.strat.slots == s.strat.slots && s'.first == s.first
    requires Pending(s') == Pending(s) && s.execs <= s'.execs
    ensures AcksAwaited(s')
  {
    forall j, k | 0 <= j < |Pending(s')| && Pending(s')[j].kind.KNew? && Pending(s')[j].id >= s.first
      && 0 <= k < |s.strat.slots| && s.strat.slots[k].id == Pending(s')[j].id
      ensures EndsBefore(s', j, Pending(s')[j].id)
        || (s.strat.slots[k].state == PendingNew && NoAckBefore(Pending(s'), j, Pending(s')[j].id))
    {
      assert AckFits(s, j, Pending(s)[j].id);
      if EndsBefore(s, j, Pending(s)[j].id) {
        EndsStay(s, s', j, Pending(s)[j].id);
      }
    }
  }

  /** One more report at the end: an acknowledgement of this run must fit. */
  lemma AcksAppend(s: Sys, s': Sys, e: ExecEvent)
    requires AcksAwaited(s) && s'.strat.slots == s.strat.slots && s'.first == s.first && s'.execs == s.execs
    requires Pending(s') == Pending(s) + [e]
    requires e.kind.KNew? && e.id >= s.first ==> AckFits(s, |Pending(s)|, e.id)
    ensures AcksAwaited(s')
  {
    forall j | 0 <= j < |Pending(s')| && Pending(s')[j].kind.KNew? && Pending(s')[j].id >= s.first
      ensures AckFits(s', j, Pending(s')[j].id)
    {
      assert AckFits(s, j, Pending(s')[j].id);
      assert EndsBefore(s, j, Pending(s')[j].id) ==> EndsBefore(s', j, Pending(s')[j].id);
    }
  }

  lemma NoAckInFront(p: seq<ExecEvent>, x: nat, j: nat, id: nat)
    requires x < |p| && j <= |p| - 1 && NoAckBefore(p, if j <= x then j else j + 1, id)
    ensures NoAckBefore(Without(p, x), j, id)
  {
    assert forall l :: 0 <= l < j ==> Without(p, x)[l] == p[if l < x then l else l + 1];
  }

  /** The exec ring refuses a report. */
  lemma AcksLose(s: Sys, s': Sys)
    requires AcksAwaited(s) && s'.strat.slots == s.strat.slots && s'.first == s.first && s'.execs == s.execs
    requires s.reports != [] && Pending(s') == Without(Pending(s), |s.execs|)
    ensures AcksAwaited(s')
  {
    var p, x := Pending(s), |s.execs|;
    forall j | 0 <= j < |Pending(s')| && Pending(s')[j].kind.KNew? && Pending(s')[j].id >= s.first
      ensures AckFits(s', j, Pending(s')[j].id)
    {
      var i, id := if j < x then j else j + 1, Pending(s')[j].id;
      assert Pending(s')[j] == p[i] && AckFits(s, i, id);
      assert EndsBefore(s, i, id) ==> EndsBefore(s', j, id);
      if NoAckBefore(p, i, id) {
        assert NoAckBefore(p, if j <= x then j else j + 1, id);
        NoAckInFront(p, x, j, id);
      }
    }
  }

  // --------------------------- steps of the exchange ---------------------------

  /** Steps that touch neither the slots nor what was sent, and acknowledge no order still queued. */
  lemma QuietStep(s: Sys, s': Sys)
    requires Inv(s) && Disciplined(s)
    requires s'.first == s.first && s'.strat == s.strat.(out := s'.strat.out) && s'.processed == s.processed
    requires Sent(s') == Sent(s)
    requires forall c | c in s'.wire || c in s'.strat.out :: c in s.wire || c in s.strat.out
    requires AcksAwaited(s')
    requires forall id | id >= s.first && Unacked(s, id) :: Unacked(s', id)
    ensures Disciplined(s')
  {
    forall c | (c in s'.wire || c in s'.strat.out) && c.New? ensures Unacked(s', c.id) {
      var cmds := if c in s.wire then s.wire else s.strat.out;
      assert c in cmds && NewsUnacked(s, cmds);
      QuoteFills.AliveIsOfThisRun(s);
    }
  }

  lemma TellDisciplined(s: Sys, s': Sys, r: FixReport)
    requires Inv(s) && Disciplined(s)
    requires s'.first == s.first && s'.strat == s.strat && s'.processed == s.processed && s'.left == s.left
    requires s'.execs == s.execs && s'.reports == s.reports + [r] && s'.told == s.told + [r]
    requires forall c | c in s'.wire :: c in s.wire
    requires Decode(r).kind.KNew? && Decode(r).id >= s.first ==> r in s.told && AckFits(s, |Pending(s)|, Decode(r).id)
    ensures Disciplined(s')
  {
    PendingGrows(s, s');
    AcksAppend(s, s', Decode(r));
    QuietStep(s, s');
  }

  lemma ChannelDisciplined(cfg: Config, s: Sys, a: Action)
    requires Inv(s) && Disciplined(s) && Enabled(cfg, s, a) && (a.Send? || a.Ignore? || a.Deliver?)
    ensures Disciplined(Do(cfg, s, a))
  {
    var s' := Do(cfg, s, a);
    if a.Deliver? {
      PendingAfterDeliver(cfg, s, a);
    } else {
      assert Sent(s') == Sent(s) && Pending(s') == Pending(s);
    }
    if a.Send? {
      assert s.strat.out[0] in s.strat.out;
    }
    if a == Deliver(false) {
      AcksLose(s, s');
    } else {
      AcksStay(s, s');
    }
    QuietStep(s, s');
  }

  lemma ExchangeDisciplined(cfg: Config, s: Sys, a: Action)
    requires Inv(s) && Disciplined(s) && Enabled(cfg, s, a) && RepeatFits(s, a)
    requires !a.Snapshot? && !a.OnReport? && !a.Accept?
    ensures Disciplined(Do(cfg, s, a))
  {
    var s' := Do(cfg, s, a);
    if a.Send? || a.Ignore? || a.Deliver? {
      ChannelDisciplined(cfg, s, a);
    } else {
      TellDisciplined(s, s', s'.reports[|s.reports|]);
    }
  }

  /** The id of the order being accepted is not carried by any other queued order. */
  lemma AcceptedIdIsOnlyHere(s: Sys)
    requires Inv(s) && s.wire != [] && s.wire[0].New?
    ensures forall c | (c in s.wire[1..] || c in s.strat.out) && c.New? :: c.id != s.wire[0].id
    ensures s.first <= s.wire[0].id
  {
    var n := s.wire[0];
    assert n in s.wire && n.id in Working(s, n.slot);
    AliveOnce(s, n.slot, n.id);
    forall c | (c in s.wire[1..] || c in s.strat.out) && c.New? ensures c.id != n.id {
      var cmds := if c in s.wire[1..] then s.wire[1..] else s.strat.out;
      QuoteFills.NewIdsMember(cmds, c);
      assert c.id in Working(s, c.slot);
      assert Working(s, n.slot) == OpenIds(s.open, n.slot) + ([n.id] + NewIds(s.wire[1..], n.slot))
        + NewIds(s.strat.out, n.slot);
    }
  }

  lemma AcceptDisciplined(cfg: Config, s: Sys)
    requires Inv(s) && Disciplined(s) && Enabled(cfg, s, Accept)
    ensures Disciplined(Do(cfg, s, Accept))
  {
    var s', c := Do(cfg, s, Accept), s.wire[0];
    var e := Decode(s'.reports[|s.reports|]);
    PendingGrows(s, s');
    AcceptedIdIsOnlyHere(s);
    assert c in s.wire && NewsUnacked(s, s.wire);
    assert e.kind.KNew? && e.id == c.id;
    AcceptedAckFits(s, c);
    AcksAppend(s, s', e);
    AfterAccept(s, s', e);
  }

  /** An order that is just accepted has no acknowledgement on its way yet. */
  lemma AcceptedAckFits(s: Sys, c: OrderCmd)
    requires Tags(s) && c.slot < SLOTS && s.strat.slots[c.slot].id == c.id >= s.first
    requires s.strat.slots[c.slot].state == PendingNew && Unacked(s, c.id)
    ensures AckFits(s, |Pending(s)|, c.id)
  {
    forall i | 0 <= i < |Pending(s)| && Pending(s)[i].kind.KNew? ensures Pending(s)[i].id != c.id {
      assert Pending(s)[i] in Pending(s);
    }
  }

  lemma AfterAccept(s: Sys, s': Sys, e: ExecEvent)
    requires Disciplined(s) && s.wire != []
    requires s'.first == s.first && s'.strat == s.strat && s'.processed == s.processed && s'.left == s.left
    requires s'.wire == s.wire[1..] && Pending(s') == Pending(s) + [e] && AcksAwaited(s')
    requires forall r | r in s'.told :: r in s.told || Decode(r) == e
    requires forall c | (c in s'.wire || c in s.strat.out) && c.New? :: c.id != e.id
    ensures Disciplined(s')
  {
    assert forall d :: d in s'.wire ==> d in s.wire;
    assert Sent(s') == Sent(s);
    forall c | (c in s'.wire || c in s.strat.out) && c.New? ensures Unacked(s', c.id) {
      assert Unacked(s, c.id);
    }
  }

  lemma AckedStays(cfg: Config, s: Sys)
    requires Enabled(cfg, s, OnReport)
    ensures var s' := Do(cfg, s, OnReport);
      && (forall id | Acked(s, id) :: Acked(s', id))
      && (s.execs[0].kind.KNew? ==> Acked(s', s.execs[0].id))
  {
    var s', e := Do(cfg, s, OnReport), s.execs[0];
    assert s'.processed == s.processed + [e];
    forall id | Acked(s, id) ensures Acked(s', id) {
      var f :| f in s.processed && f.kind.KNew? && f.id == id;
      assert f in s'.processed;
    }
    assert e in s'.processed;
  }

  /** A report about an order of this run moves every slot that holds its id. */
  lemma ReportMoves(s: Sys, e: ExecEvent, k: nat)
    requires Tags(s) && Harmless(s, e) && k < SLOTS
    ensures var q, q' := s.strat.slots[k], OnExec(s.strat.slots, e)[k];
      if q.id >= s.first then q' == (if q.id == e.id then Moved(q, e) else q) else q'.id < s.first
  {
    OnExecAt(s.strat.slots, e, k);
    if s.strat.slots[k].id == e.id >= s.first {
      QuoteFills.ReportFindsSlot(s, e, k);
    }
  }

  /** The next acknowledgement to be handled meets a slot that still waits for it. */
  lemma HeadAckAwaited(s: Sys, k: nat)
    requires AcksAwaited(s) && s.execs != [] && s.execs[0].kind.KNew? && k < |s.strat.slots|
    requires s.strat.slots[k].id == s.execs[0].id >= s.first
    ensures s.strat.slots[k].state == PendingNew
  {
    assert Pending(s)[0] == s.execs[0] && AckFits(s, 0, s.execs[0].id);
  }

  lemma ReportSlots(cfg: Config, s: Sys)
    requires Inv(s) && SlotsMayCancel(s) && AcksAwaited(s) && Enabled(cfg, s, OnReport)
    ensures SlotsMayCancel(Do(cfg, s, OnReport))
  {
    var s', e := Do(cfg, s, OnReport), s.execs[0];
    assert Pending(s)[0] == e && e in Pending(s) && Sent(s') == Sent(s);
    AckedStays(cfg, s);
    forall k | 0 <= k < SLOTS && s'.strat.slots[k].id >= s.first
      ensures var q := s'.strat.slots[k];
        q.state != NoQuote && (NeverCancelled(Sent(s'), q.id) <==> q.state != PendingCancel)
        && (q.state == Live ==> Acked(s', q.id))
    {
      ReportMoves(s, e, k);
      if e.kind.KNew? && e.id == s.strat.slots[k].id {
        HeadAckAwaited(s, k);
      }
    }
  }

  lemma ReportAcks(cfg: Config, s: Sys)
    requires Inv(s) && AcksAwaited(s) && Enabled(cfg, s, OnReport)
    ensures AcksAwaited(Do(cfg, s, OnReport))
  {
    var s', e, p := Do(cfg, s, OnReport), s.execs[0], Pending(s);
    assert p == [e] + Pending(s') && e in p;
    forall j | 0 <= j < |Pending(s')| && Pending(s')[j].kind.KNew? && Pending(s')[j].id >= s.first
      ensures AckFits(s', j, Pending(s')[j].id)
    {
      assert p[j + 1] == Pending(s')[j] && AckFits(s, j + 1, p[j + 1].id);
      forall k | 0 <= k < SLOTS && s'.strat.slots[k].id == p[j + 1].id
        ensures EndsBefore(s', j, p[j + 1].id)
          || (s'.strat.slots[k].state == PendingNew && NoAckBefore(Pending(s'), j, p[j + 1].id))
      {
        AckAfterReport(s, s', j, k);
      }
    }
  }

  /** An acknowledgement moves one place forward. */
  lemma AckAfterReport(s: Sys, s': Sys, j: nat, k: nat)
    requires Tags(s) && s.execs != [] && Harmless(s, s.execs[0])
    requires Pending(s) == [s.execs[0]] + Pending(s') && s'.execs == s.execs[1..]
    requires s'.strat.slots == OnExec(s.strat.slots, s.execs[0]) && j < |Pending(s')| && k < SLOTS
    requires s'.strat.slots[k].id == Pending(s')[j].id >= s.first && AckFits(s, j + 1, Pending(s')[j].id)
    ensures EndsBefore(s', j, Pending(s')[j].id)
      || (s'.strat.slots[k].state == PendingNew && NoAckBefore(Pending(s'), j, Pending(s')[j].id))
  {
    var e, id, p := s.execs[0], Pending(s')[j].id, Pending(s);
    ReportMoves(s, e, k);
    if EndsBefore(s, j + 1, id) {
      var i :| 0 <= i < j + 1 && i < |s.execs| && s.execs[i].id == id && s.execs[i].kind.Terminal();
      assert i > 0 && s'.execs[i - 1] == s.execs[i];
    } else {
      assert p[0] == e;
      forall i | 0 <= i < j && Pending(s')[i].kind.KNew? ensures Pending(s')[i].id != id {
        assert p[i + 1] == Pending(s')[i];
      }
    }
  }

  lemma QueuedIsNotEnding(s: Sys, cmds: seq<OrderCmd>, c: OrderCmd, e: ExecEvent)
    requires Inv(s) && (cmds == s.wire || cmds == s.strat.out) && c in cmds && c.New? && Harmless(s, e)
    ensures c.slot < SLOTS && c.id >= s.first && (e.id == c.id ==> !e.kind.Terminal())
  {
    QuoteFills.NewIdsMember(cmds, c);
    assert c.id in Working(s, c.slot);
    AliveIdsAreOurs(s, c.slot, c.id);
  }

  lemma ReportNews(cfg: Config, s: Sys, cmds: seq<OrderCmd>)
    requires Inv(s) && NewsUnacked(s, cmds) && Enabled(cfg, s, OnReport) && (cmds == s.wire || cmds == s.strat.out)
    ensures NewsUnacked(Do(cfg, s, OnReport), cmds)
  {
    var s', e := Do(cfg, s, OnReport), s.execs[0];
    assert Pending(s) == [e] + Pending(s') && e in Pending(s);
    forall c | c in cmds && c.New?
      ensures s'.strat.slots[c.slot].id == c.id && s'.strat.slots[c.slot].state == PendingNew && Unacked(s', c.id)
    {
      assert Unacked(s, c.id);
      QueuedIsNotEnding(s, cmds, c, e);
      ReportMoves(s, e, c.slot);
    }
  }

  lemma ReportDisciplined(cfg: Config, s: Sys)
    requires Inv(s) && Disciplined(s) && Enabled(cfg, s, OnReport)
    ensures Disciplined(Do(cfg, s, OnReport))
  {
    var s' := Do(cfg, s, OnReport);
    ReportSlots(cfg, s);
    ReportAcks(cfg, s);
    ReportNews(cfg, s, s.wire);
    ReportNews(cfg, s, s.strat.out);
    AckedStays(cfg, s);
    assert Sent(s') == Sent(s);
    assert CancelsOnce(s', Sent(s'));
  }

  // ------------------------------ the strategy ------------------------------

  lemma AppendId(s: Sys, s': Sys, b: seq<OrderCmd>, c: OrderCmd)
    requires IdsIncrease(s, b) && s.first <= s.strat.seed == c.id
    requires s'.first == s.first && s'.strat.seed == s.strat.seed + 1
    ensures IdsIncrease(s', b + [c])
  {
    assert forall i :: 0 <= i < |b| ==> b[i] in b;
  }

  lemma AppendTarget(s: Sys, s': Sys, b: seq<OrderCmd>, c: OrderCmd)
    requires CancelsOnce(s, b) && s'.first == s.first && s'.processed == s.processed && s.strat.seed <= s'.strat.seed
    requires c.Cancel?
      ==> c.orig == 0 || (s.first <= c.orig < s.strat.seed && Acked(s, c.orig) && NeverCancelled(b, c.orig))
    ensures CancelsOnce(s', b + [c])
  {
    assert forall i :: 0 <= i < |b| ==> b[i] in b;
    assert forall id :: Acked(s, id) ==> Acked(s', id);
  }

  lemma FreshIdUnused(s: Sys)
    requires Inv(s) && Disciplined(s)
    ensures NeverCancelled(Sent(s), s.strat.seed) && Unacked(s, s.strat.seed)
    ensures forall e | e in Pending(s) :: e.id != s.strat.seed
  {
    forall e | e in Pending(s) ensures e.id < s.strat.seed {
      assert Harmless(s, e);
    }
    forall r | r in s.told ensures Decode(r).id < s.strat.seed {
      assert Harmless(s, Decode(r));
    }
  }

  lemma PlaceDisciplined(s: Sys, k: nat, px: real, qty: real) returns (s': Sys)
    requires Inv(s) && Disciplined(s) && k < SLOTS && s.strat.slots[k].state == NoQuote
    ensures s' == s.(strat := Strat(s.strat.slots[k := Quote(PendingNew, s.strat.seed, px, qty)], s.strat.seed + 1,
                                    s.strat.out + [New(k, s.strat.seed, px, qty)]))
    ensures Disciplined(s')
  {
    var id, c := s.strat.seed, New(k, s.strat.seed, px, qty);
    s' := s.(strat := Strat(s.strat.slots[k := Quote(PendingNew, id, px, qty)], id + 1, s.strat.out + [c]));
    assert Sent(s') == Sent(s) + [c];
    AppendId(s, s', Sent(s), c);
    AppendTarget(s, s', Sent(s), c);
    FreshIdUnused(s);
    SlotReplaced(s, s', k, c);
  }

  lemma PullDisciplined(s: Sys, k: nat) returns (s': Sys)
    requires Inv(s) && Disciplined(s) && k < SLOTS && s.strat.slots[k].state == Live
    ensures var q := s.strat.slots[k];
      s' == s.(strat := Strat(s.strat.slots[k := q.(state := PendingCancel)], s.strat.seed + 1,
                              s.strat.out + [Cancel(k, s.strat.seed, q.id, q.qty)]))
    ensures Disciplined(s')
  {
    var q := s.strat.slots[k];
    var c := Cancel(k, s.strat.seed, q.id, q.qty);
    s' := s.(strat := Strat(s.strat.slots[k := q.(state := PendingCancel)], s.strat.seed + 1, s.strat.out + [c]));
    assert Sent(s') == Sent(s) + [c];
    AppendId(s, s', Sent(s), c);
    AppendTarget(s, s', Sent(s), c);
    FreshIdUnused(s);
    SlotReplaced(s, s', k, c);
  }

  /** One slot moves on while one command about it enters the ring. */
  lemma SlotReplaced(s: Sys, s': Sys, k: nat, c: OrderCmd)
    requires Tags(s) && k < SLOTS == |s'.strat.slots| && SlotsMayCancel(s) && AcksAwaited(s)
    requires NewsUnacked(s, s.wire) && NewsUnacked(s, s.strat.out)
    requires IdsIncrease(s', Sent(s')) && CancelsOnce(s', Sent(s'))
    requires var q' := s'.strat.slots;
      s' == s.(strat := Strat(q', s.strat.seed + 1, s.strat.out + [c])) && q' == s.strat.slots[k := q'[k]]
    requires NeverCancelled(Sent(s), s.strat.seed) && Unacked(s, s.strat.seed)
    requires forall e | e in Pending(s) :: e.id != s.strat.seed
    requires s.strat.slots[k].state != PendingNew
    requires var q, q' := s.strat.slots[k], s'.strat.slots[k];
      || (c.New? && c.slot == k && c.id == q'.id == s.strat.seed && q'.state == PendingNew)
      || (c.Cancel? && c.orig == q.id && q.state == Live && q' == q.(state := PendingCancel))
    ensures Disciplined(s')
  {
    assert Pending(s') == Pending(s) && Sent(s') == Sent(s) + [c];
    assert forall id :: Unacked(s, id) ==> Unacked(s', id);
    assert NewsUnacked(s', s.wire) && NewsUnacked(s', s.strat.out);
    assert NewsUnacked(s', s'.strat.out);
    ReplacedAcks(s, s', k);
    ReplacedSlots(s, s', k, c);
  }

  lemma ReplacedAcks(s: Sys, s': Sys, k: nat)
    requires k < |s.strat.slots| && AcksAwaited(s) && s'.first == s.first && s'.execs == s.execs
    requires Pending(s') == Pending(s) && |s'.strat.slots| == |s.strat.slots|
    requires s'.strat.slots == s.strat.slots[k := s'.strat.slots[k]] && s.strat.slots[k].state != PendingNew
    requires s'.strat.slots[k].id == s.strat.slots[k].id || forall e | e in Pending(s) :: e.id != s'.strat.slots[k].id
    ensures AcksAwaited(s')
  {
    forall j | 0 <= j < |Pending(s')| && Pending(s')[j].kind.KNew? && Pending(s')[j].id >= s.first
      ensures AckFits(s', j, Pending(s')[j].id)
    {
      var id := Pending(s')[j].id;
      assert Pending(s)[j] in Pending(s) && AckFits(s, j, id);
      assert EndsBefore(s, j, id) ==> EndsBefore(s', j, id);
    }
  }

  lemma ReplacedSlots(s: Sys, s': Sys, k: nat, c: OrderCmd)
    requires Tags(s) && k < SLOTS == |s'.strat.slots| && SlotsMayCancel(s) && NeverCancelled(Sent(s), s.strat.seed)
    requires s'.first == s.first && s'.processed == s.processed && Sent(s') == Sent(s) + [c]
    requires s'.strat.slots == s.strat.slots[k := s'.strat.slots[k]]
    requires var q, q' := s.strat.slots[k], s'.strat.slots[k];
      || (c.New? && q'.id == s.strat.seed && q'.state == PendingNew)
      || (c.Cancel? && c.orig == q.id && q.state == Live && q' == q.(state := PendingCancel))
    ensures SlotsMayCancel(s')
  {
    assert c in Sent(s');
    forall l | 0 <= l < SLOTS && s'.strat.slots[l].id >= s.first
      ensures var r := s'.strat.slots[l];
        && r.state != NoQuote && (NeverCancelled(Sent(s'), r.id) <==> r.state != PendingCancel)
        && (r.state == Live ==> Acked(s', r.id))
    {
      assert l != k ==> s.strat.slots[l].id != s.strat.slots[k].id;
      assert NeverCancelled(Sent(s'), s'.strat.slots[l].id)
        <==> NeverCancelled(Sent(s), s'.strat.slots[l].id) && !(c.Cancel? && c.orig == s'.strat.slots[l].id);
    }
  }

  lemma SeedDisciplined(s: Sys)
    requires Disciplined(s)
    ensures Disciplined(s.(strat := s.strat.(seed := s.strat.seed + 1)))
  {
    var s' := s.(strat := s.strat.(seed := s.strat.seed + 1));
    assert Sent(s') == Sent(s) && Pending(s') == Pending(s);
  }

  lemma CancelSideDisciplined(cfg: Config, s: Sys, k: nat, ok: bool) returns (s': Sys)
    requires Inv(s) && Disciplined(s) && k < SLOTS
    ensures s' == s.(strat := CancelSide(cfg, s.strat, k, ok)) && Disciplined(s')
  {
    if s.strat.slots[k].state != Live {
      s' := s;
    } else if !cfg.dryRun && ok {
      s' := PullDisciplined(s, k);
    } else {
      SeedDisciplined(s);
      s' := s.(strat := s.strat.(seed := s.strat.seed + 1));
    }
  }

  lemma RequoteDisciplined(cfg: Config, s: Sys, k: nat, px: real, ok: bool) returns (s': Sys)
    requires Inv(s) && Disciplined(s) && k < SLOTS
    ensures s' == s.(strat := Requote(cfg, s.strat, k, px, ok)) && Disciplined(s')
  {
    var q := s.strat.slots[k];
    if q.state == NoQuote && !cfg.dryRun && ok {
      s' := PlaceDisciplined(s, k, px, cfg.orderQty);
    } else if q.state == NoQuote {
      SeedDisciplined(s);
      s' := s.(strat := s.strat.(seed := s.strat.seed + 1));
    } else if q.state == Live && !Near(cfg, q.price, px) {
      s' := CancelSideDisciplined(cfg, s, k, ok);
    } else {
      s' := s;
    }
  }

  lemma DecideDisciplined(cfg: Config, s: Sys, sym: nat, bid: real, ask: real, okBuy: bool, okSell: bool)
    requires Inv(s) && Disciplined(s) && sym < MAX_SYMBOLS
    ensures Disciplined(s.(strat := Decide(cfg, s.strat, sym, bid, ask, okBuy, okSell)))
  {
    var P := t => Inv(s.(strat := t)) && Disciplined(s.(strat := t));
    forall t: Strat, k: nat, px: real, ok: bool | P(t) && k < SLOTS == |t.slots| ensures P(Requote(cfg, t, k, px, ok)) {
      RequoteKeepsInv(cfg, s.(strat := t), k, px, ok);
      var _ := RequoteDisciplined(cfg, s.(strat := t), k, px, ok);
    }
    forall t: Strat, k: nat, ok: bool | P(t) && k < SLOTS == |t.slots| ensures P(CancelSide(cfg, t, k, ok)) {
      CancelSideKeepsInv(cfg, s.(strat := t), k, ok);
      var _ := CancelSideDisciplined(cfg, s.(strat := t), k, ok);
    }
    DecidePreserves(cfg, s.strat, sym, bid, ask, okBuy, okSell, P);
  }

  lemma StepDisciplined(cfg: Config, s: Sys, a: Action)
    requires Inv(s) && Disciplined(s) && Enabled(cfg, s, a) && RepeatFits(s, a)
    ensures Disciplined(Do(cfg, s, a))
  {
    match a {
      case Snapshot(sym, bid, ask, okBuy, okSell) =>
        DecideDisciplined(cfg, s, sym, bid, ask, okBuy, okSell);
      case OnReport => ReportDisciplined(cfg, s);
      case Accept => AcceptDisciplined(cfg, s);
      case _ => ExchangeDisciplined(cfg, s, a);
    }
  }

  lemma {:induction false} RunDisciplined(cfg: Config, s: Sys, acts: seq<Action>)
    requires Inv(s) && Disciplined(s)
    requires Admissible(cfg, s, acts) && RuleAlong(cfg, s, acts) && RepeatsFit(cfg, s, acts)
    ensures Inv(Exec(cfg, s, acts)) && Disciplined(Exec(cfg, s, acts))
    decreases |acts|
  {
    if acts != [] {
      StepKeepsInv(cfg, s, acts[0]);
      StepDisciplined(cfg, s, acts[0]);
      RunDisciplined(cfg, Do(cfg, s, acts[0]), acts[1..]);
    }
  }

  /** At every point of every run, what has been sent so far obeys the discipline. */
  lemma CommandsAreDisciplined(cfg: Config, s0: Sys, acts: seq<Action>) returns (s: Sys)
    requires s0.first > 0 && s0 == Initial(s0.first)
    requires Admissible(cfg, s0, acts) && RuleAlong(cfg, s0, acts) && RepeatsFit(cfg, s0, acts)
    ensures s == Exec(cfg, s0, acts)
    ensures forall i, j | 0 <= i < j < |Sent(s)| :: Sent(s)[i].id < Sent(s)[j].id
    ensures forall i, j | 0 <= i < j < |Sent(s)| && Sent(s)[i].Cancel? && Sent(s)[j].Cancel? ::
      Sent(s)[i].orig == Sent(s)[j].orig ==> Sent(s)[i].orig == 0
    ensures forall c | c in Sent(s) && c.Cancel? :: c.orig == 0 || Acked(s, c.orig)
  {
    InitialInv(s0.first);
    assert Disciplined(s0);
    RunDisciplined(cfg, s0, acts);
    s := Exec(cfg, s0, acts);
  }

  // ------------------------- repeated acknowledgements -------------------------

  /** No trades, no strays and no repeats. */
  predicate Plain(acts: seq<Action>) {
    forall a | a in acts :: !a.Trade? && !a.Stray? && !a.Repeat?
  }

  lemma {:induction false} PlainIsFit(cfg: Config, s: Sys, acts: seq<Action>)
    requires Admissible(cfg, s, acts) && Plain(acts)
    ensures RuleAlong(cfg, s, acts) && RepeatsFit(cfg, s, acts)
    decreases |acts|
  {
    if acts != [] {
      assert acts[0] in acts;
      PlainIsFit(cfg, Do(cfg, s, acts[0]), acts[1..]);
    }
  }

  /** The last of these reports acknowledges the order, and not for the first time if its slot still waits. */
  ghost predicate EndsWithAck(p: seq<ExecEvent>, q: Quote) {
    && p != [] && p[|p| - 1].kind.KNew? && p[|p| - 1].id == q.id
    && (q.state == PendingNew ==> !NoAckBefore(p, |p| - 1, q.id))
  }

  ghost predicate NoEndIn(es: seq<ExecEvent>, id: nat) {
    forall e | e in es && e.id == id :: !e.kind.Terminal()
  }

  ghost predicate AckComing(s: Sys, k: nat, id: nat) {
    && Inv(s) && k < SLOTS && s.strat.slots[k].id == id >= s.first && s.strat.slots[k].state != NoQuote
    && NoEndIn(s.execs, id) && EndsWithAck(Pending(s), s.strat.slots[k])
  }

  /** Now it is the next to be handled. */
  ghost predicate AckNext(s: Sys, k: nat, id: nat) {
    && Inv(s) && k < SLOTS && s.strat.slots[k].id == id >= s.first
    && (s.strat.slots[k].state == Live || s.strat.slots[k].state == PendingCancel)
    && s.execs != [] && s.execs[0].kind.KNew? && s.execs[0].id == id
  }

  lemma HandleBeforeAck(cfg: Config, s: Sys, k: nat, id: nat) returns (s': Sys)
    requires AckComing(s, k, id) && s.execs != [] && |Pending(s)| > 1
    ensures Enabled(cfg, s, OnReport) && s' == Do(cfg, s, OnReport) && AckComing(s', k, id)
    ensures s'.strat.slots[k].state == PendingCancel ==> s.strat.slots[k].state == PendingCancel
  {
    var e, p := s.execs[0], Pending(s);
    assert p[0] == e && e in p && Harmless(s, e);
    s' := Do(cfg, s, OnReport);
    OnReportKeepsInv(cfg, s);
    assert p == [e] + Pending(s');
    ReportMoves(s, e, k);
    SkipFirst(p, Pending(s'), s.strat.slots[k], s'.strat.slots[k]);
  }

  lemma SkipFirst(p: seq<ExecEvent>, p': seq<ExecEvent>, q: Quote, q': Quote)
    requires EndsWithAck(p, q) && |p| > 1 && p' == p[1..] && q'.id == q.id
    requires q'.state == PendingNew ==> q.state == PendingNew && !(p[0].kind.KNew? && p[0].id == q.id)
    ensures EndsWithAck(p', q')
  {
    assert p'[|p'| - 1] == p[|p| - 1];
    if q'.state == PendingNew {
      var i :| 0 <= i < |p| - 1 && p[i].kind.KNew? && p[i].id == q.id;
      assert p'[i - 1] == p[i];
    }
  }

  /** Deliver the next report, unless it ends the order. */
  lemma DeliverBeforeAck(cfg: Config, s: Sys, k: nat, id: nat) returns (a: Action, s': Sys)
    requires AckComing(s, k, id) && s.execs == []
    ensures a.Deliver? && Enabled(cfg, s, a) && s' == Do(cfg, s, a) && AckComing(s', k, id)
  {
    var p, e := Pending(s), Decode(s.reports[0]);
    assert p[0] == e;
    a := Deliver(!(e.id == id && e.kind.Terminal()));
    s' := Do(cfg, s, a);
    DeliveredAck(cfg, s, a, s.strat.slots[k]);
    DeliverKeepsInv(cfg, s, a);
  }

  lemma DeliveredAck(cfg: Config, s: Sys, a: Action, q: Quote)
    requires EndsWithAck(Pending(s), q) && s.execs == [] && a.Deliver? && Enabled(cfg, s, a)
    requires var e := Decode(s.reports[0]); a.ok <==> !(e.id == q.id && e.kind.Terminal())
    ensures var s' := Do(cfg, s, a); NoEndIn(s'.execs, q.id) && EndsWithAck(Pending(s'), q)
  {
    var p, s' := Pending(s), Do(cfg, s, a);
    if a.ok {
      assert Pending(s') == p;
    } else {
      assert p[0] == Decode(s.reports[0]) && Pending(s') == p[1..];
      SkipFirst(p, p[1..], q, q);
    }
  }

  /** The reports in front of it are handled, and none that ends the order is delivered. */
  lemma {:induction false} AckComes(cfg: Config, s: Sys, k: nat, id: nat) returns (acts: seq<Action>, s': Sys)
    requires AckComing(s, k, id)
    ensures Admissible(cfg, s, acts) && Plain(acts)
    ensures s' == Exec(cfg, s, acts) && AckNext(s', k, id) && Sent(s') == Sent(s)
    ensures s'.strat.slots[k].state == PendingCancel ==> s.strat.slots[k].state == PendingCancel
    decreases 2 * |s.reports| + |s.execs|
  {
    if s.execs == [] {
      var a, s1 := DeliverBeforeAck(cfg, s, k, id);
      var rest;
      rest, s' := AckComes(cfg, s1, k, id);
      acts := [a] + rest;
    } else if |Pending(s)| == 1 {
      acts, s' := [], s;
      assert Pending(s)[0] == s.execs[0];
    } else {
      var s1 := HandleBeforeAck(cfg, s, k, id);
      var rest;
      rest, s' := AckComes(cfg, s1, k, id);
      acts := [OnReport] + rest;
    }
  }

  /** The sender empties the order ring. */
  lemma {:induction false} SendAll(cfg: Config, s: Sys) returns (acts: seq<Action>, s': Sys)
    requires Inv(s)
    ensures Admissible(cfg, s, acts) && Plain(acts)
    ensures s' == Exec(cfg, s, acts) && Inv(s') && s'.strat == s.strat.(out := []) && Sent(s') == Sent(s)
    ensures s'.execs == s.execs && s'.first == s.first
    decreases |s.strat.out|
  {
    if s.strat.out == [] {
      acts, s' := [], s;
    } else {
      StepKeepsInv(cfg, s, Send(true));
      assert Sent(Do(cfg, s, Send(true))) == Sent(s);
      var rest;
      rest, s' := SendAll(cfg, Do(cfg, s, Send(true)));
      acts := [Send(true)] + rest;
    }
  }

  /** A narrow market with room for one command cancels a Live quote. */
  lemma CancelOneSide(cfg: Config, st: Strat, k: nat) returns (a: Action, st': Strat)
    requires |st.slots| == SLOTS && k < SLOTS && st.slots[k].state == Live && st.out == [] && !cfg.dryRun
    ensures a.Snapshot? && a.sym < MAX_SYMBOLS
    ensures st' == Decide(cfg, st, a.sym, a.bid, a.ask, a.okBuy, a.okSell)
    ensures |st'.out| == 1 && st'.out[0].Cancel? && st'.out[0].orig == st.slots[k].id
    ensures |st'.slots| == SLOTS && st'.slots[k] == st.slots[k].(state := PendingCancel)
  {
    a := Snapshot(k / 2, 0.0, cfg.minSpread - 1.0, k % 2 == 0, k % 2 == 1);
    DecideCancels(cfg, st, a.sym, a.bid, a.ask, a.okBuy, a.okSell);
    st' := CancelSide(cfg, CancelSide(cfg, st, SlotOf(a.sym, Buy), a.okBuy), SlotOf(a.sym, Sell), a.okSell);
  }

  /** A Live quote can be cancelled without anything else happening to it. */
  lemma CancelLive(cfg: Config, s: Sys, k: nat) returns (acts: seq<Action>, s': Sys)
    requires Inv(s) && k < SLOTS && s.strat.slots[k].state == Live && !cfg.dryRun
    ensures Admissible(cfg, s, acts) && Plain(acts)
    ensures s' == Exec(cfg, s, acts) && Inv(s') && s'.execs == s.execs && s'.first == s.first
    ensures s'.strat.slots[k] == s.strat.slots[k].(state := PendingCancel)
    ensures |Sent(s')| == |Sent(s)| + 1 && Sent(s) == Sent(s')[..|Sent(s)|]
    ensures Sent(s')[|Sent(s)|].Cancel? && Sent(s')[|Sent(s)|].orig == s.strat.slots[k].id
  {
    var s1, a, st';
    acts, s1 := SendAll(cfg, s);
    a, st' := CancelOneSide(cfg, s1.strat, k);
    s' := Do(cfg, s1, a);
    StepKeepsInv(cfg, s1, a);
    SR.ExecConcat(cfg, s, acts, [a]);
    assert Exec(cfg, s1, [a]) == s';
    acts := acts + [a];
  }

  /** The acknowledgement makes a quote that is being cancelled Live again, and it is cancelled once more. */
  lemma AckAgain(cfg: Config, s: Sys, k: nat, id: nat) returns (acts: seq<Action>, s': Sys)
    requires AckNext(s, k, id) && s.strat.slots[k].state == PendingCancel && !cfg.dryRun
    ensures Admissible(cfg, s, acts) && Plain(acts)
    ensures s' == Exec(cfg, s, acts)
    ensures |Sent(s')| == |Sent(s)| + 1 && Sent(s) == Sent(s')[..|Sent(s)|]
    ensures Sent(s')[|Sent(s)|].Cancel? && Sent(s')[|Sent(s)|].orig == id
  {
    var e := s.execs[0];
    assert Pending(s)[0] == e && e in Pending(s) && Harmless(s, e);
    ReportMoves(s, e, k);
    OnReportKeepsInv(cfg, s);
    var s1 := Do(cfg, s, OnReport);
    assert Sent(s1) == Sent(s);
    acts, s' := CancelLive(cfg, s1, k);
    acts := [OnReport] + acts;
  }

  /** No order of this run is the target of two cancels. */
  ghost predicate CancelledOnce(s: Sys) {
    forall i, j | 0 <= i < j < |Sent(s)| && Sent(s)[i].Cancel? && Sent(s)[j].Cancel? ::
      Sent(s)[i].orig == Sent(s)[j].orig ==> Sent(s)[i].orig == 0
  }

  /**
   A second acknowledgement on its way: it is handled after the order has been
   cancelled, turns the quote Live again, and the order is cancelled once more.
   */
  lemma SecondAckCancelsAgain(cfg: Config, s: Sys, k: nat, id: nat) returns (acts: seq<Action>)
    requires AckComing(s, k, id) && id > 0 && !cfg.dryRun
    requires s.strat.slots[k].state == PendingCancel ==> !NeverCancelled(Sent(s), id)
    ensures Admissible(cfg, s, acts) && RuleAlong(cfg, s, acts) && RepeatsFit(cfg, s, acts)
    ensures !CancelledOnce(Exec(cfg, s, acts))
  {
    var s1;
    acts, s1 := AckComes(cfg, s, k, id);
    if s1.strat.slots[k].state == Live {
      var more, t := CancelLive(cfg, s1, k);
      SR.ExecConcat(cfg, s, acts, more);
      acts, s1 := acts + more, t;
      assert Sent(s1)[|Sent(s1)| - 1] in Sent(s1);
    }
    var more, t := AckAgain(cfg, s1, k, id);
    SR.ExecConcat(cfg, s, acts, more);
    acts := acts + more;
    PlainIsFit(cfg, s, acts);
    var i :| 0 <= i < |Sent(s1)| && Sent(s1)[i].Cancel? && Sent(s1)[i].orig == id;
    assert Sent(t)[i] == Sent(s1)[i] && Sent(t)[|Sent(s1)|].orig == id;
  }

  /**
   The exact harm of a repeated acknowledgement: some continuation, in which
   nothing else goes wrong, cancels an order twice, unless the order's slot has
   moved on, or a report in the exec ring empties it, or the acknowledgement is
   the first one the slot gets to see.
   */
  lemma RepeatedAckIsSafeIffItFits(cfg: Config, s: Sys, r: FixReport)
    requires Inv(s) && Disciplined(s) && Enabled(cfg, s, Repeat(r)) && !cfg.dryRun
    ensures RepeatFits(s, Repeat(r)) <==>
      forall acts | RuleAndRepeats(cfg, Do(cfg, s, Repeat(r)), acts) ::
        CancelledOnce(Exec(cfg, Do(cfg, s, Repeat(r)), acts))
  {
    var s', e := Do(cfg, s, Repeat(r)), Decode(r);
    StepKeepsInv(cfg, s, Repeat(r));
    if RepeatFits(s, Repeat(r)) {
      StepDisciplined(cfg, s, Repeat(r));
      forall acts | RuleAndRepeats(cfg, s', acts) ensures CancelledOnce(Exec(cfg, s', acts)) {
        RunDisciplined(cfg, s', acts);
      }
    } else {
      var k := UnfitAckIsComing(cfg, s, r);
      var acts := SecondAckCancelsAgain(cfg, s', k, e.id);
      assert RuleAndRepeats(cfg, s', acts);
    }
  }

  /** A continuation in which the venue obeys the status rule and repeats no acknowledgement that does harm. */
  ghost predicate RuleAndRepeats(cfg: Config, s: Sys, acts: seq<Action>) {
    Admissible(cfg, s, acts) && RuleAlong(cfg, s, acts) && RepeatsFit(cfg, s, acts)
  }

  lemma UnfitAckIsComing(cfg: Config, s: Sys, r: FixReport) returns (k: nat)
    requires Inv(s) && Disciplined(s) && Enabled(cfg, s, Repeat(r)) && !RepeatFits(s, Repeat(r))
    ensures var s' := Do(cfg, s, Repeat(r));
      && AckComing(s', k, Decode(r).id)
      && (s'.strat.slots[k].state == PendingCancel ==> !NeverCancelled(Sent(s'), Decode(r).id))
  {
    var s', e, p := Do(cfg, s, Repeat(r)), Decode(r), Pending(s);
    StepKeepsInv(cfg, s, Repeat(r));
    PendingGrows(s, s');
    k :| 0 <= k < SLOTS && s.strat.slots[k].id == e.id && !EndsBefore(s, |p|, e.id)
      && !(s.strat.slots[k].state == PendingNew && NoAckBefore(p, |p|, e.id));
    assert Sent(s') == Sent(s);
    assert forall i :: 0 <= i < |p| ==> Pending(s')[i] == p[i];
    assert s.strat.slots[k].state == PendingNew ==> !NoAckBefore(Pending(s'), |p|, e.id);
    assert NoEndIn(s.execs, e.id);
  }
}
