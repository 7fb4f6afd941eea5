/**
 What an execution report means for the engine, in the terms of its FIX fields,
 and what the trade ring gets over a whole run: the trades the exchange made, each
 with the side, price and quantity of the order it was about.
 */
module TradeReports {
  import opened Common
  import opened Events
  import opened OrderManager
  import opened MarketMaker
  import opened QuoteSystem
  import opened CancelDiscipline
  import opened QuoteFills
  import opened QuoteRules

  // ------------------------------- one report -------------------------------

  /** The fields that decisions, books and files are made of. */
  lemma FieldsAreKept(r: FixReport)
    ensures var e := Decode(r);
      && e.id == (match r.clOrdId case Some(id) => id case None => 0)
      && (r.side == Some('1') ==> e.side == Some(Buy))
      && (r.side.Some? && r.side != Some('1') ==> e.side == Some(Sell))
      && (r.side.None? ==> e.side.None?)
      && e.sym == r.sym && e.lastPx == r.lastPx && e.lastQty == r.lastQty && e.leaves == r.leaves
  {
  }

  /** The first of the symbol's two slots that holds the report's ClOrdID, 0 for a report without one. */
  predicate FoundAt(slots: seq<Quote>, r: FixReport, k: nat)
    requires |slots| == SLOTS && r.sym < MAX_SYMBOLS
  {
    var id := match r.clOrdId case Some(id) => id case None => 0;
    if slots[2 * r.sym].id == id then k == 2 * r.sym else slots[2 * r.sym + 1].id == id && k == 2 * r.sym + 1
  }

  /**
   What a report does to the slots. Accepted: the slot's quote is live. Cancelled,
   rejected or filled: the slot is empty. Partly filled: its quantity is what is
   left. Any other kind, or no slot with the id: nothing.
   */
  lemma ReportEffect(slots: seq<Quote>, r: FixReport, k: nat)
    requires |slots| == SLOTS && r.sym < MAX_SYMBOLS && FoundAt(slots, r, k)
    ensures OnExec(slots, Decode(r)) ==
      match r.execType
      case None => slots[k := slots[k].(state := Live)]
      case Some(t) =>
        if t == '0' then slots[k := slots[k].(state := Live)]
        else if t == '4' || t == '8' then slots[k := Quote(NoQuote, 0, 0.0, 0.0)]
        else if t == 'F' then
          (if r.ordStatus == Some('1') then slots[k := slots[k].(qty := r.leaves)]
           else slots[k := Quote(NoQuote, 0, 0.0, 0.0)])
        else slots
  {
    assert slots == slots[k := slots[k]];
  }

  lemma UnknownIdIsIgnored(slots: seq<Quote>, r: FixReport)
    requires |slots| == SLOTS && r.sym < MAX_SYMBOLS && forall k | 0 <= k < SLOTS :: !FoundAt(slots, r, k)
    ensures OnExec(slots, Decode(r)) == slots
  {
    assert !FoundAt(slots, r, 2 * r.sym) && !FoundAt(slots, r, 2 * r.sym + 1);
  }

  /** What goes to the trade ring: the trades, complete or partial, and nothing else. */
  lemma TradesAreHandedOn(r: FixReport)
    ensures Decode(r).kind.Fill() <==> r.execType == Some('F')
  {
  }

  // ------------------------------ over whole runs ------------------------------

  /** A trade the exchange made: the order's id and slot, the price and the quantity. */
  datatype Deal = Deal(id: nat, slot: nat, px: real, qty: real)

  /** The trades of a run, in order. */
  ghost function Deals(cfg: Config, s: Sys, acts: seq<Action>): seq<Deal>
    requires Admissible(cfg, s, acts)
    decreases |acts|
  {
    if acts == [] then []
    else
      var rest := Deals(cfg, Do(cfg, s, acts[0]), acts[1..]);
      if acts[0].Trade?
      then [Deal(s.open[acts[0].j].id, s.open[acts[0].j].slot, acts[0].px, acts[0].qty)] + rest
      else rest
  }

  /** The event says what was traded, for which order, on which side. */
  predicate Tells(e: ExecEvent, d: Deal) {
    && e.id == d.id && e.sym == d.slot / 2 && e.lastPx == d.px && e.lastQty == d.qty
    && e.side == Some(if d.slot % 2 == 0 then Buy else Sell)
  }

  /** The fills of this run's orders among the reported ones. */
  ghost function OwnFills(fills: seq<ExecEvent>, first: nat): seq<ExecEvent> {
    if fills == [] then []
    else OwnFills(fills[..|fills| - 1], first) + (if fills[|fills| - 1].id >= first then [fills[|fills| - 1]] else [])
  }

  lemma OwnSnoc(fills: seq<ExecEvent>, e: ExecEvent, first: nat)
    ensures OwnFills(fills + [e], first) == OwnFills(fills, first) + if e.id >= first then [e] else []
  {
    assert (fills + [e])[..|fills|] == fills;
  }

  ghost predicate AllTell(es: seq<ExecEvent>, ds: seq<Deal>) {
    |es| == |ds| && forall i | 0 <= i < |es| :: Tells(es[i], ds[i])
  }

  /** A New command of this run asked for an order under this id in this slot. */
  ghost predicate Asked(s: Sys, id: nat, slot: nat) {
    id >= s.first && exists c :: c in Sent(s) && c.New? && c.id == id && c.slot == slot
  }

  /** What is queued, in flight and open stems from commands of this run. */
  ghost predicate FromCommands(s: Sys) {
    && |s.strat.slots| == SLOTS && s.first <= s.strat.seed
    && (forall c | c in Sent(s) :: c.id >= s.first)
    && (forall c | c in s.wire :: c in Sent(s))
    && (forall o | o in s.open :: Asked(s, o.id, o.slot))
  }

  lemma AskedStays(s: Sys, s': Sys, id: nat, slot: nat)
    requires Asked(s, id, slot) && s'.first == s.first && forall c | c in Sent(s) :: c in Sent(s')
    ensures Asked(s', id, slot)
  {
    var c :| c in Sent(s) && c.New? && c.id == id && c.slot == slot;
    assert c in Sent(s');
  }

  /** Commands are only added, each under an id from the seed on. */
  lemma SnapshotAdds(cfg: Config, s: Sys, a: Action)
    requires FromCommands(s) && a.Snapshot? && Enabled(cfg, s, a)
    ensures var s' := Do(cfg, s, a);
      && (forall c | c in Sent(s) :: c in Sent(s')) && (forall c | c in Sent(s') :: c.id >= s.first)
      && |s'.strat.slots| == SLOTS && s.strat.seed <= s'.strat.seed
  {
    var st' := Do(cfg, s, a).strat;
    CommandsAreExplained(cfg, s.strat, a.sym, a.bid, a.ask, a.okBuy, a.okSell);
    SeedGrows(cfg, s.strat, a);
    forall c | c in st'.out ensures c in s.strat.out || c.id >= s.strat.seed {
      var i :| 0 <= i < |st'.out| && st'.out[i] == c;
      if i >= |s.strat.out| {
        assert Explained(s.strat, st', a.sym, st'.out[i]);
      }
    }
  }

  lemma SeedGrows(cfg: Config, st: Strat, a: Action)
    requires |st.slots| == SLOTS && a.Snapshot? && a.sym < MAX_SYMBOLS
    ensures st.seed <= Decide(cfg, st, a.sym, a.bid, a.ask, a.okBuy, a.okSell).seed
  {
    DecidePreserves(cfg, st, a.sym, a.bid, a.ask, a.okBuy, a.okSell, (t: Strat) => st.seed <= t.seed);
  }

  lemma SentGrows(cfg: Config, s: Sys, a: Action)
    requires FromCommands(s) && Enabled(cfg, s, a)
    ensures forall c | c in Sent(s) :: c in Sent(Do(cfg, s, a))
    ensures forall c | c in Sent(Do(cfg, s, a)) :: c.id >= s.first
  {
    if a.Snapshot? {
      SnapshotAdds(cfg, s, a);
    } else {
      assert Sent(Do(cfg, s, a)) == Sent(s);
    }
  }

  lemma OrdersFromCommands(cfg: Config, s: Sys, a: Action)
    requires FromCommands(s) && Enabled(cfg, s, a)
    ensures FromCommands(Do(cfg, s, a))
  {
    var s' := Do(cfg, s, a);
    SentGrows(cfg, s, a);
    if a.Snapshot? {
      SnapshotAdds(cfg, s, a);
    }
    forall o | o in s'.open ensures Asked(s', o.id, o.slot) {
      if a.Accept? && o !in s.open {
        assert s.wire[0] in s.wire && s.wire[0] in Sent(s');
      } else {
        var p := OrderBefore(cfg, s, a, o);
        AskedStays(s, s', p.id, p.slot);
      }
    }
  }

  /** An order that no Accept just opened was open before, under the same id and slot. */
  lemma OrderBefore(cfg: Config, s: Sys, a: Action, o: Order) returns (p: Order)
    requires Enabled(cfg, s, a) && o in Do(cfg, s, a).open && (a.Accept? ==> o in s.open)
    ensures p in s.open && p.id == o.id && p.slot == o.slot
  {
    if a.Trade? {
      var open' := Do(cfg, s, a).open;
      var i := OrderAfterTrade(s.open, open', a.j, a.qty, o);
      p := s.open[i];
    } else {
      p := o;
    }
  }

  /** What was told of a fill is among the fills, and so is every fill handled or on its way. */
  ghost predicate FillsRecorded(s: Sys) {
    && (forall r | r in s.told && Decode(r).kind.Fill() :: Decode(r) in s.fills)
    && (forall e | e in Pending(s) && e.kind.Fill() :: e in s.fills)
    && (forall e | e in s.processed && e.kind.Fill() :: e in s.fills)
  }

  lemma StepRecords(cfg: Config, s: Sys, a: Action)
    requires FillsRecorded(s) && Enabled(cfg, s, a)
    ensures FillsRecorded(Do(cfg, s, a))
  {
    var s' := Do(cfg, s, a);
    if a.Deliver? {
      PendingAfterDeliver(cfg, s, a);
    } else if a.OnReport? {
      assert Pending(s) == [s.execs[0]] + Pending(s');
    } else if a.Snapshot? || a.Send? || a.Ignore? {
      assert Pending(s') == Pending(s);
    } else {
      PendingGrows(s, s');
    }
  }

  /** Every fill of this run's orders tells of a trade that was made, for an order that was asked for. */
  ghost predicate FillsAreDeals(s: Sys, ds: seq<Deal>) {
    && (forall e | e in s.fills && e.id >= s.first :: TellsOne(e, ds))
    && (forall d | d in ds :: Asked(s, d.id, d.slot))
  }

  ghost predicate TellsOne(e: ExecEvent, ds: seq<Deal>) {
    exists d :: d in ds && Tells(e, d)
  }

  ghost function DealOf(s: Sys, a: Action): seq<Deal> {
    if a.Trade? && a.j < |s.open| then [Deal(s.open[a.j].id, s.open[a.j].slot, a.px, a.qty)] else []
  }

  lemma TradeTells(cfg: Config, s: Sys, a: Action)
    requires Enabled(cfg, s, a) && a.Trade?
    ensures Do(cfg, s, a).fills == s.fills + [Decode(TradeReport(s.open[a.j], a))]
    ensures Tells(Decode(TradeReport(s.open[a.j], a)), DealOf(s, a)[0])
  {
  }

  lemma StepDeals(cfg: Config, s: Sys, a: Action, ds: seq<Deal>)
    requires FromCommands(s) && FillsRecorded(s) && FillsAreDeals(s, ds) && Enabled(cfg, s, a)
    ensures FillsAreDeals(Do(cfg, s, a), ds + DealOf(s, a))
  {
    var s', ds' := Do(cfg, s, a), ds + DealOf(s, a);
    SentGrows(cfg, s, a);
    if a.Trade? {
      assert s.open[a.j] in s.open;
      TradeTells(cfg, s, a);
      assert DealOf(s, a)[0] in ds';
    }
    forall e | e in s'.fills && e.id >= s.first ensures TellsOne(e, ds') {
      if e in s.fills {
        var d :| d in ds && Tells(e, d);
        assert d in ds';
      }
    }
    forall d | d in ds' ensures Asked(s', d.id, d.slot) {
      AskedStays(s, s', d.id, d.slot);
    }
  }

  lemma StepExact(cfg: Config, s: Sys, a: Action, ds: seq<Deal>)
    requires FromCommands(s) && Enabled(cfg, s, a) && !RepeatsFill(s, a) && AllTell(OwnFills(s.fills, s.first), ds)
    ensures AllTell(OwnFills(Do(cfg, s, a).fills, s.first), ds + DealOf(s, a))
  {
    if a.Trade? {
      assert s.open[a.j] in s.open;
      TradeTells(cfg, s, a);
      OneMoreDeal(s.fills, Decode(TradeReport(s.open[a.j], a)), s.first, ds, DealOf(s, a)[0]);
    } else {
      if a.Stray? || a.Repeat? {
        OwnSnoc(s.fills, Decode(a.r), s.first);
      }
      FillsStay(cfg, s, a);
      assert ds + [] == ds;
    }
  }

  lemma OneMoreDeal(fills: seq<ExecEvent>, e: ExecEvent, first: nat, ds: seq<Deal>, d: Deal)
    requires AllTell(OwnFills(fills, first), ds) && e.id >= first && Tells(e, d)
    ensures AllTell(OwnFills(fills + [e], first), ds + [d])
  {
    OwnSnoc(fills, e, first);
  }

  /** Only trades and reports sent without one add to the fills. */
  lemma FillsStay(cfg: Config, s: Sys, a: Action)
    requires Enabled(cfg, s, a) && !a.Trade?
    ensures Do(cfg, s, a).fills
      == if (a.Stray? || a.Repeat?) && Decode(a.r).kind.Fill() then s.fills + [Decode(a.r)] else s.fills
  {
  }

  lemma {:induction false} RunDeals(cfg: Config, s: Sys, acts: seq<Action>, ds: seq<Deal>) returns (s': Sys)
    requires FromCommands(s) && FillsRecorded(s) && FillsAreDeals(s, ds) && Admissible(cfg, s, acts)
    ensures s' == Exec(cfg, s, acts) && s'.first == s.first && FromCommands(s') && FillsRecorded(s')
    ensures FillsAreDeals(s', ds + Deals(cfg, s, acts))
    decreases |acts|
  {
    if acts == [] {
      s' := s;
      assert ds + [] == ds;
    } else {
      var a := acts[0];
      StepDeals(cfg, s, a, ds);
      OrdersFromCommands(cfg, s, a);
      StepRecords(cfg, s, a);
      var t := Do(cfg, s, a);
      s' := RunDeals(cfg, t, acts[1..], ds + DealOf(s, a));
      Regroup(ds, DealOf(s, a), Deals(cfg, t, acts[1..]));
      assert Deals(cfg, s, acts) == DealOf(s, a) + Deals(cfg, t, acts[1..]);
    }
  }

  lemma {:induction false} RunExact(cfg: Config, s: Sys, acts: seq<Action>, ds: seq<Deal>) returns (s': Sys)
    requires FromCommands(s) && Admissible(cfg, s, acts) && NoFillRepeated(cfg, s, acts)
    requires AllTell(OwnFills(s.fills, s.first), ds)
    ensures s' == Exec(cfg, s, acts) && s'.first == s.first
    ensures AllTell(OwnFills(s'.fills, s.first), ds + Deals(cfg, s, acts))
    decreases |acts|
  {
    if acts == [] {
      s' := s;
      assert ds + [] == ds;
    } else {
      var a := acts[0];
      StepExact(cfg, s, a, ds);
      OrdersFromCommands(cfg, s, a);
      var t := Do(cfg, s, a);
      s' := RunExact(cfg, t, acts[1..], ds + DealOf(s, a));
      Regroup(ds, DealOf(s, a), Deals(cfg, t, acts[1..]));
      assert Deals(cfg, s, acts) == DealOf(s, a) + Deals(cfg, t, acts[1..]);
    }
  }

  lemma {:induction false} TradesAreAmong(es: seq<ExecEvent>, e: ExecEvent)
    requires e in TradesOf(es)
    ensures e in es && e.kind.Fill()
  {
    if e != es[0] || !es[0].kind.Fill() {
      TradesAreAmong(es[1..], e);
    }
  }

  /**
   Whatever happens, rule or no rule, reports dropped or repeated: every trade handed
   to the trade ring for an order of this run was made at the exchange, at that price
   and quantity, and its side is that of the slot whose New command asked for the order.
   */
  lemma HandedOnTradesWereMade(cfg: Config, first: nat, acts: seq<Action>, e: ExecEvent) returns (d: Deal, c: OrderCmd)
    requires Admissible(cfg, Initial(first), acts)
    requires e in TradesOf(Exec(cfg, Initial(first), acts).processed) && e.id >= first
    ensures d in Deals(cfg, Initial(first), acts)
    ensures e.id == d.id && e.lastPx == d.px && e.lastQty == d.qty && e.sym == d.slot / 2
    ensures c in Sent(Exec(cfg, Initial(first), acts)) && c.New? && c.id == e.id && c.slot == d.slot
    ensures e.side == Some(Buy) <==> c.slot % 2 == 0
    ensures e.side == Some(Sell) <==> c.slot % 2 == 1
  {
    var s := RunDeals(cfg, Initial(first), acts, []);
    TradesAreAmong(s.processed, e);
    var ds := Deals(cfg, Initial(first), acts);
    assert [] + ds == ds && e in s.fills && TellsOne(e, ds);
    d :| d in ds && Tells(e, d);
    c :| c in Sent(s) && c.New? && c.id == d.id && c.slot == d.slot;
  }

  /**
   When no fill of this run is reported twice, the fills reported for its orders are
   the trades made, one for one and in order; when none is dropped either, those are
   the ones handed to the trade ring followed by those on the way.
   */
  lemma FillsAreTheTrades(cfg: Config, first: nat, acts: seq<Action>)
    requires Admissible(cfg, Initial(first), acts) && NoFillRepeated(cfg, Initial(first), acts)
    ensures var s, ds := Exec(cfg, Initial(first), acts), Deals(cfg, Initial(first), acts);
      && AllTell(OwnFills(s.fills, first), ds)
      && (NoFillDropped(cfg, Initial(first), acts) ==>
            AllTell(OwnFills(TradesOf(s.processed) + TradesOf(Pending(s)), first), ds))
  {
    var s := RunExact(cfg, Initial(first), acts, []);
    assert [] + Deals(cfg, Initial(first), acts) == Deals(cfg, Initial(first), acts);
    if NoFillDropped(cfg, Initial(first), acts) {
      FillsArriveIffNoneDropped(cfg, first, acts);
    }
  }
}
