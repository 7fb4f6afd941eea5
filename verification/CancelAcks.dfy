/**
 What a slot needs in order to become free again. `on_exec` looks for the slot by
 ClOrdID alone, so a slot is freed only by a report that ends its order under the
 order's own id. If that report is on its way, or the order is open, or the
 command that asks for it is still queued, some continuation frees the slot;
 otherwise none does, whatever else is sent, reported or lost, unless the venue
 may repeat such a report after it was lost. `again` says whether it may.
 */
module CancelAcks {
  import opened Common
  import opened Events
  import opened OrderManager
  import opened MarketMaker
  import opened QuoteSystem
  import opened Convergence
  import opened CancelDiscipline
  import QuoteFills
  import SR = StatusRule

  /** The slot waits for an order that is gone, and no report that could free the slot is on its way or can follow. */
  ghost predicate Stranded(s: Sys, k: nat, id: nat, again: bool) {
    && k < |s.strat.slots| && s.strat.slots[k].state != NoQuote && s.strat.slots[k].id == id >= s.first
    && NotOpen(s, id)
    && (forall c | c in s.wire || c in s.strat.out :: c.id != id)
    && (forall e | e in Pending(s) && e.id == id :: !e.kind.Terminal())
    && (again ==> !EndTold(s, id))
  }

  /** The order's end was reported at some time. */
  ghost predicate EndTold(s: Sys, id: nat) {
    exists r :: r in s.told && Decode(r).id == id && Decode(r).kind.Terminal()
  }

  predicate NoRepeats(acts: seq<Action>) {
    forall a | a in acts :: !a.Repeat?
  }

  // ----------------------------- stranded for good -----------------------------

  lemma SlotStays(cfg: Config, st: Strat, j: nat, px: real, ok: bool, k: nat)
    requires j < |st.slots| && k < |st.slots| && st.slots[k].state != NoQuote
    ensures SameOrder(st, Requote(cfg, st, j, px, ok), k) && SameOrder(st, CancelSide(cfg, st, j, ok), k)
  {
  }

  /** The slot still names the same order, and new commands carry new ids. */
  ghost predicate SameOrder(st: Strat, st': Strat, k: nat)
    requires k < |st.slots|
  {
    && k < |st'.slots| && st'.slots[k].id == st.slots[k].id && st'.slots[k].state != NoQuote
    && st.seed <= st'.seed && (forall c | c in st'.out :: c in st.out || c.id >= st.seed)
  }

  lemma DecideStays(cfg: Config, st: Strat, a: Action, k: nat) returns (st': Strat)
    requires |st.slots| == SLOTS && a.Snapshot? && a.sym < MAX_SYMBOLS && k < SLOTS && st.slots[k].state != NoQuote
    ensures st' == Decide(cfg, st, a.sym, a.bid, a.ask, a.okBuy, a.okSell) && SameOrder(st, st', k)
  {
    var b, o := SlotOf(a.sym, Buy), SlotOf(a.sym, Sell);
    st' := st;
    if !Wide(cfg, a.bid, a.ask) {
      DecideCancels(cfg, st, a.sym, a.bid, a.ask, a.okBuy, a.okSell);
      st' := CancelSide(cfg, st, b, a.okBuy);
      SlotStays(cfg, st, b, 0.0, a.okBuy, k);
      SlotStays(cfg, st', o, 0.0, a.okSell, k);
      st' := CancelSide(cfg, st', o, a.okSell);
    } else if Fits(cfg, a.bid, a.ask) {
      var bid, ask := a.bid + cfg.tick, a.ask - cfg.tick;
      DecideQuotes(cfg, st, a.sym, a.bid, a.ask, bid, ask, a.okBuy, a.okSell);
      st' := Requote(cfg, st, b, bid, a.okBuy);
      SlotStays(cfg, st, b, bid, a.okBuy, k);
      SlotStays(cfg, st', o, ask, a.okSell, k);
      st' := Requote(cfg, st', o, ask, a.okSell);
    }
  }

  lemma SnapshotStays(cfg: Config, s: Sys, a: Action, k: nat, id: nat, again: bool) returns (s': Sys)
    requires Tags(s) && Stranded(s, k, id, again) && a.Snapshot? && Enabled(cfg, s, a)
    ensures s' == Do(cfg, s, a) && Stranded(s', k, id, again)
  {
    s' := Do(cfg, s, a);
    var st' := DecideStays(cfg, s.strat, a, k);
    assert Pending(s') == Pending(s);
  }

  lemma ReportStays(cfg: Config, s: Sys, k: nat, id: nat, again: bool) returns (s': Sys)
    requires Tags(s) && Stranded(s, k, id, again) && Enabled(cfg, s, OnReport)
    ensures s' == Do(cfg, s, OnReport) && Stranded(s', k, id, again)
  {
    s' := Do(cfg, s, OnReport);
    var e := s.execs[0];
    var i := OnExecTouchesOne(s.strat.slots, e);
    assert Pending(s) == [e] + Pending(s');
    assert e in Pending(s) && forall f :: f in Pending(s') ==> f in Pending(s);
  }

  /** No step of the exchange or of the channels brings a report that could free the slot. */
  lemma NothingComes(cfg: Config, s: Sys, a: Action, k: nat, id: nat, again: bool) returns (s': Sys)
    requires Tags(s) && Stranded(s, k, id, again) && Enabled(cfg, s, a) && !a.Snapshot? && !a.OnReport?
    requires again || !a.Repeat?
    ensures s' == Do(cfg, s, a) && Stranded(s', k, id, again)
  {
    s' := Do(cfg, s, a);
    if a.Deliver? {
      PendingAfterDeliver(cfg, s, a);
    } else {
      PendingGrows(s, s');
    }
    if s.wire != [] {
      assert s.wire[0] in s.wire;
    }
    if s.strat.out != [] {
      assert s.strat.out[0] in s.strat.out;
    }
    if a.CancelOpen? || a.Trade? || a.Expire? {
      assert s.open[a.j] in s.open;
    }
  }

  lemma {:induction false} StrandedForever(cfg: Config, s: Sys, acts: seq<Action>, k: nat, id: nat, again: bool)
    requires Inv(s) && Stranded(s, k, id, again) && Admissible(cfg, s, acts) && RuleAlong(cfg, s, acts)
    requires again || NoRepeats(acts)
    ensures Stranded(Exec(cfg, s, acts), k, id, again)
    decreases |acts|
  {
    if acts != [] {
      var a := acts[0];
      assert a in acts && forall b :: b in acts[1..] ==> b in acts;
      if a.Snapshot? {
        var _ := SnapshotStays(cfg, s, a, k, id, again);
      } else if a.OnReport? {
        var _ := ReportStays(cfg, s, k, id, again);
      } else {
        var _ := NothingComes(cfg, s, a, k, id, again);
      }
      StepKeepsInv(cfg, s, a);
      StrandedForever(cfg, Do(cfg, s, a), acts[1..], k, id, again);
    }
  }

  // ------------------------------ what frees a slot ------------------------------

  predicate CanQuote(s: Sys, k: nat) {
    k < |s.strat.slots| && s.strat.slots[k].state == NoQuote
  }

  /** A continuation in which the venue obeys the status rule and the slot becomes free. */
  ghost predicate Frees(cfg: Config, s: Sys, k: nat, again: bool, acts: seq<Action>) {
    && Admissible(cfg, s, acts) && RuleAlong(cfg, s, acts) && (again || NoRepeats(acts))
    && CanQuote(Exec(cfg, s, acts), k)
  }

  ghost predicate Freeable(cfg: Config, s: Sys, k: nat, again: bool) {
    exists acts :: Frees(cfg, s, k, again, acts)
  }

  /** The order's end is reported, or can still come about. */
  ghost predicate EndInSight(s: Sys, k: nat, id: nat, again: bool) {
    EndPending(Pending(s), id) || IsOpen(s, k, id) || NewQueued(s, k, id) || (again && EndTold(s, id))
  }

  lemma FreesAfter(cfg: Config, s: Sys, k: nat, again: bool, a: Action)
    requires Enabled(cfg, s, a) && StatusRule(s, a) && (again || !a.Repeat?) && Freeable(cfg, Do(cfg, s, a), k, again)
    ensures Freeable(cfg, s, k, again)
  {
    var rest :| Frees(cfg, Do(cfg, s, a), k, again, rest);
    var acts := [a] + rest;
    assert acts[0] == a && acts[1..] == rest;
    assert Frees(cfg, s, k, again, acts);
  }

  lemma AlreadyFree(cfg: Config, s: Sys, k: nat, again: bool)
    requires CanQuote(s, k)
    ensures Freeable(cfg, s, k, again)
  {
    assert Frees(cfg, s, k, again, []);
  }

  /** Handling one report frees the slot or leaves the end of its order pending. */
  lemma HandleOne(cfg: Config, s: Sys, k: nat, id: nat) returns (s': Sys)
    requires Inv(s) && k < SLOTS && s.strat.slots[k].id == id >= s.first && EndPending(Pending(s), id) && s.execs != []
    ensures Enabled(cfg, s, OnReport) && s' == Do(cfg, s, OnReport) && Inv(s')
    ensures CanQuote(s', k) || (s'.strat.slots[k].id == id && EndPending(Pending(s'), id))
  {
    var e := s.execs[0];
    assert e in Pending(s) && Harmless(s, e);
    s' := Do(cfg, s, OnReport);
    assert Pending(s) == [e] + Pending(s');
    EndHandled(s, s', k, id);
    OnReportKeepsInv(cfg, s);
  }

  lemma EndHandled(s: Sys, s': Sys, k: nat, id: nat)
    requires Tags(s) && k < SLOTS && s.strat.slots[k].id == id >= s.first && EndPending(Pending(s), id)
    requires s.execs != [] && Harmless(s, s.execs[0]) && Pending(s) == [s.execs[0]] + Pending(s')
    requires s'.strat.slots == OnExec(s.strat.slots, s.execs[0])
    ensures CanQuote(s', k) || (s'.strat.slots[k].id == id && EndPending(Pending(s'), id))
  {
    var e := s.execs[0];
    ReportMoves(s, e, k);
    if e.id != id || !e.kind.Terminal() {
      var f :| f in Pending(s) && f.id == id && f.kind.Terminal();
      assert f in Pending(s');
    }
  }

  lemma {:induction false} PendingEndFrees(cfg: Config, s: Sys, k: nat, id: nat, again: bool)
    requires Inv(s) && k < SLOTS && s.strat.slots[k].id == id >= s.first && EndPending(Pending(s), id)
    ensures Freeable(cfg, s, k, again)
    decreases 2 * |s.reports| + |s.execs|
  {
    if s.execs != [] {
      var s' := HandleOne(cfg, s, k, id);
      if CanQuote(s', k) {
        AlreadyFree(cfg, s', k, again);
      } else {
        PendingEndFrees(cfg, s', k, id, again);
      }
      FreesAfter(cfg, s, k, again, OnReport);
    } else {
      var s' := Do(cfg, s, Deliver(true));
      assert Pending(s') == Pending(s);
      StepKeepsInv(cfg, s, Deliver(true));
      PendingEndFrees(cfg, s', k, id, again);
      FreesAfter(cfg, s, k, again, Deliver(true));
    }
  }

  lemma OpenFrees(cfg: Config, s: Sys, k: nat, id: nat, again: bool)
    requires Inv(s) && k < SLOTS && s.strat.slots[k].id == id >= s.first && IsOpen(s, k, id)
    ensures Freeable(cfg, s, k, again)
  {
    OpenIdsHasOrder(s.open, k, id);
    var o :| o in s.open && o.slot == k && o.id == id;
    var j :| 0 <= j < |s.open| && s.open[j] == o;
    var s' := Do(cfg, s, Expire(j));
    StepKeepsInv(cfg, s, Expire(j));
    PendingGrows(s, s');
    assert Pending(s')[|Pending(s)|] in Pending(s');
    PendingEndFrees(cfg, s', k, id, again);
    FreesAfter(cfg, s, k, again, Expire(j));
  }

  /** Whatever stands in front of the order's command is out of the way in finitely many steps. */
  lemma {:induction false} QueuedFrees(cfg: Config, s: Sys, k: nat, id: nat, again: bool)
    requires Inv(s) && k < SLOTS && s.strat.slots[k].id == id >= s.first && NewQueued(s, k, id)
    ensures Freeable(cfg, s, k, again)
    decreases 2 * |s.strat.out| + |s.wire|
  {
    if s.wire != [] {
      NewIdsAfterPop(s.wire, k, id);
      var c := s.wire[0];
      if c.New? && c.slot == k && c.id == id {
        RefuseEnds(cfg, s, k, id);
        PendingEndFrees(cfg, Do(cfg, s, Refuse), k, id, again);
        FreesAfter(cfg, s, k, again, Refuse);
      } else {
        StepKeepsInv(cfg, s, Ignore);
        QueuedFrees(cfg, Do(cfg, s, Ignore), k, id, again);
        FreesAfter(cfg, s, k, again, Ignore);
      }
    } else {
      var s' := Do(cfg, s, Send(true));
      StepKeepsInv(cfg, s, Send(true));
      MoveFirst(s.wire, s.strat.out, k);
      assert id in NewIds(s.wire, k) + NewIds(s.strat.out, k);
      assert id in NewIds(s'.wire, k) + NewIds(s'.strat.out, k);
      QueuedFrees(cfg, s', k, id, again);
      FreesAfter(cfg, s, k, again, Send(true));
    }
  }

  lemma RefuseEnds(cfg: Config, s: Sys, k: nat, id: nat)
    requires Inv(s) && s.wire != [] && s.wire[0].New? && s.wire[0].id == id
    ensures var s' := Do(cfg, s, Refuse);
      Inv(s') && s'.strat == s.strat && s'.first == s.first && EndPending(Pending(s'), id)
  {
    var s' := Do(cfg, s, Refuse);
    StepKeepsInv(cfg, s, Refuse);
    PendingGrows(s, s');
    assert Pending(s')[|Pending(s)|] in Pending(s');
  }

  /** With no end in sight the slot is stranded. */
  lemma NoEndStrands(s: Sys, k: nat, id: nat, again: bool)
    requires Inv(s) && k < SLOTS && s.strat.slots[k].id == id >= s.first && s.strat.slots[k].state != NoQuote
    requires !EndInSight(s, k, id, again)
    ensures Stranded(s, k, id, again)
  {
    forall o | o in s.open ensures o.id != id {
      NotThisOpen(s, k, id, o);
    }
    forall c | c in s.wire || c in s.strat.out ensures c.id != id {
      NotThisQueued(s, k, id, c);
    }
  }

  lemma NotThisOpen(s: Sys, k: nat, id: nat, o: Order)
    requires Inv(s) && k < SLOTS && s.strat.slots[k].id == id >= s.first && !IsOpen(s, k, id) && o in s.open
    ensures o.id != id
  {
    QuoteFills.OpenIdsMember(s.open, o);
    AliveIdsAreOurs(s, o.slot, o.id);
  }

  lemma NotThisQueued(s: Sys, k: nat, id: nat, c: OrderCmd)
    requires Inv(s) && k < SLOTS && s.strat.slots[k].id == id >= s.first && !NewQueued(s, k, id)
    requires c in s.wire || c in s.strat.out
    ensures c.id != id
  {
    if c.New? {
      QueuedNewIsOurs(s, c);
    }
  }

  lemma QueuedNewIsOurs(s: Sys, c: OrderCmd)
    requires Inv(s) && (c in s.wire || c in s.strat.out) && c.New?
    ensures c.slot < SLOTS && s.strat.slots[c.slot].id == c.id >= s.first && NewQueued(s, c.slot, c.id)
    ensures Working(s, c.slot) == [c.id] && s.strat.slots[c.slot].state != NoQuote
  {
    if c in s.wire {
      QuoteFills.NewIdsMember(s.wire, c);
    } else {
      QuoteFills.NewIdsMember(s.strat.out, c);
    }
    assert c.id in Working(s, c.slot);
    AliveOnce(s, c.slot, c.id);
  }

  lemma ToldEndFrees(cfg: Config, s: Sys, k: nat, id: nat)
    requires Inv(s) && k < SLOTS && s.strat.slots[k].id == id >= s.first && EndTold(s, id)
    ensures Freeable(cfg, s, k, true)
  {
    var r :| r in s.told && Decode(r).id == id && Decode(r).kind.Terminal();
    var s' := Do(cfg, s, Repeat(r));
    StepKeepsInv(cfg, s, Repeat(r));
    PendingGrows(s, s');
    assert Pending(s')[|Pending(s)|] in Pending(s');
    PendingEndFrees(cfg, s', k, id, true);
    FreesAfter(cfg, s, k, true, Repeat(r));
  }

  /**
   Exactly when a slot in use can become free again: its order's end is on its
   way, or the order is open, or its command is still queued; or its end was
   reported before and the venue may repeat it.
   */
  lemma FreeableIffEndInSight(cfg: Config, s: Sys, k: nat, again: bool)
    requires Inv(s) && k < SLOTS && s.strat.slots[k].state != NoQuote && s.strat.slots[k].id >= s.first
    ensures Freeable(cfg, s, k, again) <==> EndInSight(s, k, s.strat.slots[k].id, again)
  {
    var id := s.strat.slots[k].id;
    if EndPending(Pending(s), id) {
      PendingEndFrees(cfg, s, k, id, again);
    } else if IsOpen(s, k, id) {
      OpenFrees(cfg, s, k, id, again);
    } else if NewQueued(s, k, id) {
      QueuedFrees(cfg, s, k, id, again);
    } else if again && EndTold(s, id) {
      ToldEndFrees(cfg, s, k, id);
    } else {
      NoEndStrands(s, k, id, again);
      StrandedIsNotFreeable(cfg, s, k, id, again);
    }
  }

  lemma StrandedIsNotFreeable(cfg: Config, s: Sys, k: nat, id: nat, again: bool)
    requires Inv(s) && Stranded(s, k, id, again)
    ensures !Freeable(cfg, s, k, again)
  {
    forall acts | Admissible(cfg, s, acts) && RuleAlong(cfg, s, acts) && (again || NoRepeats(acts))
      ensures !Frees(cfg, s, k, again, acts)
    {
      StrandedForever(cfg, s, acts, k, id, again);
    }
  }

  // -------------------------- the ways to lose one --------------------------

  lemma AliveIsNotEnding(s: Sys, o: Order)
    requires Inv(s) && o in s.open
    ensures s.first <= o.id && o.slot < SLOTS && s.strat.slots[o.slot].id == o.id
    ensures s.strat.slots[o.slot].state != NoQuote && !EndPending(Pending(s), o.id) && !EndTold(s, o.id)
    ensures !NewQueued(s, o.slot, o.id)
    ensures forall c | c in s.wire || c in s.strat.out :: c.id != o.id
  {
    var j :| 0 <= j < |s.open| && s.open[j] == o;
    QuoteFills.OpenIdsMember(s.open, o);
    AliveOnce(s, o.slot, o.id);
    QuoteFills.OpenIdIsOnlyHere(s, j);
    AliveIsNotTold(s, o.slot, o.id);
    assert Working(s, o.slot) == [o.id] && OpenIds(s.open, o.slot) != [];
  }

  lemma AliveIsNotTold(s: Sys, k: nat, id: nat)
    requires Inv(s) && k < SLOTS && id in Working(s, k)
    ensures !EndPending(Pending(s), id) && !EndTold(s, id)
  {
    SR.AliveIsNotReportedDead(s, k, id);
    forall r | r in s.told && Decode(r).id == id ensures !Decode(r).kind.Terminal() {
      assert Harmless(s, Decode(r));
    }
  }

  /** An order is closed with a report that does not end it under its own id. */
  lemma ClosedIsStranded(s: Sys, s': Sys, j: nat, r: FixReport, again: bool)
    requires Inv(s) && j < |s.open| && s'.open == Without(s.open, j)
    requires s'.strat == s.strat && s'.first == s.first && (forall c | c in s'.wire :: c in s.wire)
    requires s'.execs == s.execs && s'.reports == s.reports + [r] && s'.told == s.told + [r]
    requires !(Decode(r).id == s.open[j].id && Decode(r).kind.Terminal())
    ensures Stranded(s', s.open[j].slot, s.open[j].id, again)
  {
    assert s.open[j] in s.open;
    AliveIsNotEnding(s, s.open[j]);
    PendingGrows(s, s');
    QuoteFills.OpenIdIsOnlyHere(s, j);
    forall p | p in s'.open ensures p.id != s.open[j].id {
      var i :| 0 <= i < |s'.open| && s'.open[i] == p;
      assert p == s.open[if i < j then i else i + 1];
    }
  }

  /** When an order is closed, its slot can become free again exactly when the report about it ends it under its id. */
  lemma ClosedIsFreed(cfg: Config, s: Sys, s': Sys, j: nat, r: FixReport, again: bool)
    requires Inv(s) && Inv(s') && j < |s.open| && s'.open == Without(s.open, j)
    requires s'.strat == s.strat && s'.first == s.first && (forall c | c in s'.wire :: c in s.wire)
    requires s'.execs == s.execs && s'.reports == s.reports + [r] && s'.told == s.told + [r]
    ensures Freeable(cfg, s', s.open[j].slot, again) <==> Decode(r).id == s.open[j].id && Decode(r).kind.Terminal()
  {
    var k, id := s.open[j].slot, s.open[j].id;
    if Decode(r).id == id && Decode(r).kind.Terminal() {
      assert s.open[j] in s.open;
      AliveIsNotEnding(s, s.open[j]);
      PendingGrows(s, s');
      assert Pending(s')[|Pending(s)|] in Pending(s');
      PendingEndFrees(cfg, s', k, id, again);
    } else {
      ClosedIsStranded(s, s', j, r, again);
      StrandedIsNotFreeable(cfg, s', k, id, again);
    }
  }

  /** A confirmation under the request's id strands the slot the cancel was about. */
  lemma RequestIdStrands(cfg: Config, s: Sys, j: nat, again: bool)
    requires Inv(s) && Enabled(cfg, s, CancelOpen(j, false))
    ensures Stranded(Do(cfg, s, CancelOpen(j, false)), s.open[j].slot, s.open[j].id, again)
  {
    var s' := Do(cfg, s, CancelOpen(j, false));
    assert s.wire[0] in s.wire && s.open[j] in s.open;
    AliveIsNotEnding(s, s.open[j]);
    ClosedIsStranded(s, s', j, s'.reports[|s.reports|], again);
  }

  /**
   Cancel confirmations: when the exchange confirms the cancel of an open order,
   the slot can become free again exactly when the confirmation carries the
   order's own ClOrdID, whatever the venue repeats.
   */
  lemma FreedIffOwnId(cfg: Config, s: Sys, j: nat, ownId: bool, again: bool)
    requires Inv(s) && Enabled(cfg, s, CancelOpen(j, ownId))
    ensures Freeable(cfg, Do(cfg, s, CancelOpen(j, ownId)), s.open[j].slot, again) <==> ownId
  {
    var s' := Do(cfg, s, CancelOpen(j, ownId));
    StepKeepsInv(cfg, s, CancelOpen(j, ownId));
    assert s.wire[0] in s.wire && s.open[j] in s.open;
    AliveIsNotEnding(s, s.open[j]);
    ClosedIsFreed(cfg, s, s', j, s'.reports[|s.reports|], again);
  }

  /**
   Complete fills: a trade that fills the order to the end frees its slot, then or
   later, exactly when OrdStatus does not call it a partial fill.
   */
  lemma FreedIffNotCalledPartial(cfg: Config, s: Sys, a: Action, again: bool)
    requires Inv(s) && Enabled(cfg, s, a) && a.Trade? && s.open[a.j].cum + a.qty == s.open[a.j].qty
    ensures Freeable(cfg, Do(cfg, s, a), s.open[a.j].slot, again) <==> a.status != Some('1')
  {
    StepKeepsInv(cfg, s, a);
    ClosedIsFreed(cfg, s, Do(cfg, s, a), a.j, TradeReport(s.open[a.j], a), again);
  }

  /** Dropped commands: when a new order leaves the queue, its slot can become free again exactly when it was sent. */
  lemma FreedIffSent(cfg: Config, s: Sys, loggedOn: bool, again: bool)
    requires Inv(s) && s.strat.out != [] && s.strat.out[0].New?
    ensures Freeable(cfg, Do(cfg, s, Send(loggedOn)), s.strat.out[0].slot, again) <==> loggedOn
  {
    var c, s' := s.strat.out[0], Do(cfg, s, Send(loggedOn));
    assert c in s.strat.out;
    QueuedNewIsOurs(s, c);
    StepKeepsInv(cfg, s, Send(loggedOn));
    AliveIsNotTold(s, c.slot, c.id);
    HeadIsTheOnlyOne(s.open, s.wire, s.strat.out, c.slot);
    assert Pending(s') == Pending(s);
    if loggedOn {
      NewIdsConcat(s.wire, [c], c.slot);
      assert NewIds([c], c.slot) == [c.id];
    }
    FreeableIffEndInSight(cfg, s', c.slot, again);
  }

  lemma HeadIsTheOnlyOne(open: seq<Order>, wire: seq<OrderCmd>, out: seq<OrderCmd>, k: nat)
    requires out != [] && out[0].New? && out[0].slot == k
    requires |OpenIds(open, k) + NewIds(wire, k) + NewIds(out, k)| == 1
    ensures OpenIds(open, k) == [] && NewIds(wire, k) == [] && NewIds(out[1..], k) == []
  {
  }

  /**
   Dropped reports: when the ring refuses a report that ends the slot's order,
   another one must be on its way, or the venue must repeat it.
   */
  lemma FreedIffReportedAgain(cfg: Config, s: Sys, k: nat, ok: bool, again: bool)
    requires Inv(s) && k < SLOTS && s.strat.slots[k].state != NoQuote && s.strat.slots[k].id >= s.first
    requires Enabled(cfg, s, Deliver(ok))
    requires Decode(s.reports[0]).id == s.strat.slots[k].id && Decode(s.reports[0]).kind.Terminal()
    ensures var s' := Do(cfg, s, Deliver(ok));
      Freeable(cfg, s', k, again) <==> ok || again || EndPending(Pending(s'), s.strat.slots[k].id)
  {
    var s', e, id := Do(cfg, s, Deliver(ok)), Decode(s.reports[0]), s.strat.slots[k].id;
    DeliverKeepsInv(cfg, s, Deliver(ok));
    assert Pending(s)[|s.execs|] == e && e in Pending(s);
    assert Harmless(s, e) && id !in Working(s, k);
    assert s.reports[0] in s.told && EndTold(s', id);
    if ok {
      assert s'.execs[|s.execs|] == e && Pending(s')[|s.execs|] == e && e in Pending(s');
    }
    FreeableIffEndInSight(cfg, s', k, again);
  }
}
