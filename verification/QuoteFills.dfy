/**
 Fill conservation. Every fill the exchange reports reaches the trade ring once
 and in order exactly when no report of a fill is dropped on the way; when none is
 reported twice either, a slot's quantity is the quantity sent minus the fills
 handled.
 */
module QuoteFills {
  import opened Common
  import opened Events
  import opened OrderManager
  import opened MarketMaker
  import opened QuoteSystem

  /** The events `run` hands to the trade ring. */
  function TradesOf(es: seq<ExecEvent>): seq<ExecEvent> {
    if es == [] then [] else (if es[0].kind.Fill() then [es[0]] else []) + TradesOf(es[1..])
  }

  /** Quantity traded under one id. */
  function Traded(es: seq<ExecEvent>, id: nat): real {
    if es == [] then 0.0
    else
      var e := es[|es| - 1];
      Traded(es[..|es| - 1], id) + (if e.id == id then e.lastQty else 0.0)
  }

  /** The exec ring refuses the report of a fill. */
  predicate DropsFill(s: Sys, a: Action) {
    a == Deliver(false) && s.reports != [] && Decode(s.reports[0]).kind.Fill()
  }

  /** The exchange reports a fill of an order of this run once more. */
  predicate RepeatsFill(s: Sys, a: Action) {
    a.Repeat? && Decode(a.r).kind.Fill() && Decode(a.r).id >= s.first
  }

  ghost predicate NoFillDropped(cfg: Config, s: Sys, acts: seq<Action>)
    requires Admissible(cfg, s, acts)
    decreases |acts|
  {
    acts == [] || (!DropsFill(s, acts[0]) && NoFillDropped(cfg, Do(cfg, s, acts[0]), acts[1..]))
  }

  ghost predicate NoFillRepeated(cfg: Config, s: Sys, acts: seq<Action>)
    requires Admissible(cfg, s, acts)
    decreases |acts|
  {
    acts == [] || (!RepeatsFill(s, acts[0]) && NoFillRepeated(cfg, Do(cfg, s, acts[0]), acts[1..]))
  }

  lemma {:induction false} TradesConcat(a: seq<ExecEvent>, b: seq<ExecEvent>)
    ensures TradesOf(a + b) == TradesOf(a) + TradesOf(b)
  {
    if a == [] {
      assert a + b == b;
    } else {
      TradesConcat(a[1..], b);
      assert (a + b)[0] == a[0] && (a + b)[1..] == a[1..] + b;
      Regroup(if a[0].kind.Fill() then [a[0]] else [], TradesOf(a[1..]), TradesOf(b));
    }
  }

  lemma TradedSnoc(es: seq<ExecEvent>, e: ExecEvent, id: nat)
    ensures Traded(es + [e], id) == Traded(es, id) + (if e.id == id then e.lastQty else 0.0)
  {
    assert (es + [e])[..|es|] == es;
  }

  lemma {:induction false} NothingTraded(es: seq<ExecEvent>, id: nat)
    requires forall e | e in es :: e.id != id
    ensures Traded(es, id) == 0.0
  {
    if es != [] {
      NothingTraded(es[..|es| - 1], id);
    }
  }

  // --------------------------- what arrives, and when ---------------------------

  /** Every reported fill is, in order, handed to the trade ring or on its way to the strategy. */
  ghost predicate Arrived(s: Sys) {
    s.fills == TradesOf(s.processed) + TradesOf(Pending(s))
  }

  ghost function Missing(s: Sys): int {
    |s.fills| - |TradesOf(s.processed)| - |TradesOf(Pending(s))|
  }

  lemma TradesWithout(p: seq<ExecEvent>, i: nat)
    requires i < |p|
    ensures |TradesOf(Without(p, i))| == |TradesOf(p)| - if p[i].kind.Fill() then 1 else 0
    ensures !p[i].kind.Fill() ==> TradesOf(Without(p, i)) == TradesOf(p)
  {
    assert p == p[..i] + ([p[i]] + p[i + 1..]);
    TradesConcat(p[..i], [p[i]] + p[i + 1..]);
    TradesConcat([p[i]], p[i + 1..]);
    TradesConcat(p[..i], p[i + 1..]);
  }

  /** A step in which the report `r` is sent, and recorded as a fill if it is one. */
  lemma ToldArrival(s: Sys, s': Sys, r: FixReport)
    requires s'.execs == s.execs && s'.reports == s.reports + [r] && s'.processed == s.processed
    requires s'.fills == if Decode(r).kind.Fill() then s.fills + [Decode(r)] else s.fills
    ensures Missing(s') == Missing(s) && (Arrived(s) ==> Arrived(s'))
  {
    PendingGrows(s, s');
    TradesConcat(Pending(s), [Decode(r)]);
    if Arrived(s) {
      Regroup(TradesOf(s.processed), TradesOf(Pending(s)), TradesOf([Decode(r)]));
    }
  }

  lemma ReportArrival(cfg: Config, s: Sys)
    requires Enabled(cfg, s, OnReport)
    ensures var s', e, done := Do(cfg, s, OnReport), s.execs[0], TradesOf(s.processed);
      && TradesOf(s'.processed) == (if e.kind.Fill() then done + [e] else done)
      && TradesOf(s'.processed) + TradesOf(Pending(s')) == done + TradesOf(Pending(s))
  {
    var s', e := Do(cfg, s, OnReport), s.execs[0];
    assert Pending(s) == [e] + Pending(s');
    TradesConcat([e], Pending(s'));
    TradesConcat(s.processed, [e]);
    Regroup(TradesOf(s.processed), TradesOf([e]), TradesOf(Pending(s')));
  }

  /** Exactly the step that drops a fill makes one more missing. */
  lemma StepArrival(cfg: Config, s: Sys, a: Action)
    requires Enabled(cfg, s, a)
    ensures var s' := Do(cfg, s, a);
      && Missing(s') == Missing(s) + (if DropsFill(s, a) then 1 else 0)
      && (Arrived(s) && !DropsFill(s, a) ==> Arrived(s'))
  {
    var s' := Do(cfg, s, a);
    match a {
      case OnReport => ReportArrival(cfg, s);
      case Deliver(ok) =>
        PendingAfterDeliver(cfg, s, a);
        TradesWithout(Pending(s), |s.execs|);
      case Snapshot(_, _, _, _, _) => assert Pending(s') == Pending(s);
      case Send(_) => assert Pending(s') == Pending(s);
      case Ignore => assert Pending(s') == Pending(s);
      case _ => ToldArrival(s, s', s'.reports[|s.reports|]);
    }
  }

  lemma {:induction false} RunArrival(cfg: Config, s: Sys, acts: seq<Action>) returns (s': Sys)
    requires Admissible(cfg, s, acts)
    ensures s' == Exec(cfg, s, acts) && Missing(s') >= Missing(s)
    ensures NoFillDropped(cfg, s, acts) ==> Missing(s') == Missing(s) && (Arrived(s) ==> Arrived(s'))
    ensures !NoFillDropped(cfg, s, acts) ==> Missing(s') > Missing(s)
    decreases |acts|
  {
    if acts == [] {
      s' := s;
    } else {
      StepArrival(cfg, s, acts[0]);
      s' := RunArrival(cfg, Do(cfg, s, acts[0]), acts[1..]);
    }
  }

  /**
   Whatever the venue does, rule or no rule, and whatever it repeats: every
   reported fill is handed to the trade ring or on its way, in order, if and only
   if the exec ring refused no report of a fill.
   */
  lemma FillsArriveIffNoneDropped(cfg: Config, first: nat, acts: seq<Action>)
    requires Admissible(cfg, Initial(first), acts)
    ensures Arrived(Exec(cfg, Initial(first), acts)) <==> NoFillDropped(cfg, Initial(first), acts)
  {
    var s := RunArrival(cfg, Initial(first), acts);
  }

  // ------------------------------ invariant ------------------------------

  /** Every trade of this run reports the leaves that the trades up to it imply. */
  ghost predicate LeavesAgree(cfg: Config, first: nat, fills: seq<ExecEvent>) {
    forall m | 0 <= m < |fills| && fills[m].id >= first ::
      && fills[m].leaves == cfg.orderQty - Traded(fills[..m + 1], fills[m].id)
      && (fills[m].kind.KFilled? ==> fills[m].leaves == 0.0)
  }

  ghost predicate OrdersAgree(cfg: Config, s: Sys) {
    && (forall o | o in s.open :: o.qty == cfg.orderQty && o.cum == Traded(s.fills, o.id) && o.cum < o.qty)
    && (forall c | c in s.wire && c.New? :: c.qty == cfg.orderQty && Traded(s.fills, c.id) == 0.0)
    && (forall c | c in s.strat.out && c.New? :: c.qty == cfg.orderQty && Traded(s.fills, c.id) == 0.0)
    && (forall f | f in s.fills :: f.id < s.strat.seed)
  }

  /** What was told of a fill of this run is recorded as one, and it is of a positive quantity. */
  ghost predicate FillsTold(s: Sys) {
    && (forall r | r in s.told && Decode(r).kind.Fill() && Decode(r).id >= s.first :: Decode(r) in s.fills)
    && (forall f | f in s.fills && f.id >= s.first :: f.lastQty > 0.0)
  }

  ghost predicate SlotsAgree(cfg: Config, s: Sys) {
    forall k | 0 <= k < |s.strat.slots| :: var q := s.strat.slots[k];
      q.id >= s.first ==> q.qty == cfg.orderQty - Traded(TradesOf(s.processed), q.id)
  }

  ghost predicate Conserved(cfg: Config, s: Sys) {
    && Arrived(s)
    && LeavesAgree(cfg, s.first, s.fills)
    && FillsTold(s)
    && OrdersAgree(cfg, s)
    && SlotsAgree(cfg, s)
  }

  lemma OpenIdsMember(open: seq<Order>, o: Order)
    requires o in open
    ensures o.id in OpenIds(open, o.slot)
  {
    var j :| 0 <= j < |open| && open[j] == o;
    OpenIdsAt(open, j, o.slot);
  }

  lemma {:induction false} NewIdsMember(cmds: seq<OrderCmd>, c: OrderCmd)
    requires c in cmds && c.New?
    ensures c.id in NewIds(cmds, c.slot)
  {
    if cmds[0] != c {
      NewIdsMember(cmds[1..], c);
    }
  }

  lemma OtherOpenId(s: Sys, j: nat, i: nat)
    requires Inv(s) && j < |s.open| && i < |s.open| && i != j
    ensures s.open[i].id != s.open[j].id
  {
    var o, p := s.open[j], s.open[i];
    assert o in s.open && p in s.open;
    OpenIdsMember(s.open, o);
    OpenIdsMember(s.open, p);
    AliveOnce(s, o.slot, o.id);
    if p.id == o.id {
      assert p.id in Working(s, p.slot);
      TwiceIsTwo(s.open, if i < j then i else j, if i < j then j else i, o.slot);
    }
  }

  lemma TwiceIsTwo(open: seq<Order>, i: nat, j: nat, k: nat)
    requires i < j < |open| && open[i].slot == open[j].slot == k
    ensures |OpenIds(open, k)| >= 2
  {
    var a, b := open[..i + 1], open[i + 1..];
    assert open == a + b && a[i] == open[i] && b[j - i - 1] == open[j];
    OpenIdsConcat(a, b, k);
    OpenIdsMember(a, open[i]);
    OpenIdsMember(b, open[j]);
  }

  /** The id of an open order belongs to no other open order and to no queued one. */
  lemma OpenIdIsOnlyHere(s: Sys, j: nat)
    requires Inv(s) && j < |s.open|
    ensures forall i | 0 <= i < |s.open| && i != j :: s.open[i].id != s.open[j].id
    ensures forall c | (c in s.wire || c in s.strat.out) && c.New? :: c.id != s.open[j].id
  {
    var o := s.open[j];
    assert o in s.open;
    OpenIdsAt(s.open, j, o.slot);
    AliveOnce(s, o.slot, o.id);
    forall i | 0 <= i < |s.open| && i != j ensures s.open[i].id != o.id {
      OtherOpenId(s, j, i);
    }
    forall c | (c in s.wire || c in s.strat.out) && c.New? ensures c.id != o.id {
      if c in s.wire {
        NewIdsMember(s.wire, c);
      } else {
        NewIdsMember(s.strat.out, c);
      }
      assert c.id in Working(s, c.slot);
    }
  }

  // ------------------------------ preservation ------------------------------

  /** Steps that neither trade nor move a slot. */
  lemma QuietStep(cfg: Config, s: Sys, s': Sys)
    requires Conserved(cfg, s) && Arrived(s')
    requires s'.first == s.first && s'.strat == s.strat.(out := s'.strat.out)
    requires s'.fills == s.fills && s'.processed == s.processed
    requires forall r | r in s'.told :: r in s.told || !Decode(r).kind.Fill()
    requires forall o | o in s'.open ::
      o in s.open || (o.qty == cfg.orderQty && o.cum == Traded(s.fills, o.id) && o.cum < o.qty)
    requires forall c | c in s'.wire || c in s'.strat.out :: c in s.wire || c in s.strat.out
    ensures Conserved(cfg, s')
  {
  }

  ghost predicate MovesOrders(a: Action) {
    || a.Send? || a.Accept? || a.Refuse? || a.Ignore? || a.CancelOpen? || a.CancelUnknown? || a.Expire?
    || a.Deliver? || (a.Repeat? && !Decode(a.r).kind.Fill())
  }

  /** What these steps leave alone. */
  lemma ChannelStep(cfg: Config, s: Sys, a: Action)
    requires Enabled(cfg, s, a) && MovesOrders(a)
    ensures var s' := Do(cfg, s, a);
      && s'.first == s.first && s'.strat == s.strat.(out := s'.strat.out)
      && s'.fills == s.fills && s'.processed == s.processed
      && (forall r | r in s'.told :: r in s.told || !Decode(r).kind.Fill())
      && (forall c | c in s'.wire || c in s'.strat.out :: c in s.wire || c in s.strat.out)
  {
    if a.Send? {
      assert s.strat.out[0] in s.strat.out;
    }
  }

  lemma ChannelOrders(cfg: Config, s: Sys, a: Action, o: Order)
    requires Enabled(cfg, s, a) && MovesOrders(a) && o in Do(cfg, s, a).open
    ensures o in s.open || (a.Accept? && o == Order(s.wire[0].slot, s.wire[0].id, s.wire[0].price, s.wire[0].qty, 0.0))
  {
  }

  lemma ChannelsConserve(cfg: Config, s: Sys, a: Action)
    requires Conserved(cfg, s) && Enabled(cfg, s, a) && !DropsFill(s, a) && cfg.orderQty > 0.0
    requires MovesOrders(a)
    ensures Conserved(cfg, Do(cfg, s, a))
  {
    StepArrival(cfg, s, a);
    ChannelStep(cfg, s, a);
    forall o | o in Do(cfg, s, a).open
      ensures o in s.open || (o.qty == cfg.orderQty && o.cum == Traded(s.fills, o.id) && o.cum < o.qty)
    {
      ChannelOrders(cfg, s, a, o);
      if a.Accept? {
        assert s.wire[0] in s.wire;
      }
    }
    QuietStep(cfg, s, Do(cfg, s, a));
  }

  lemma NewFillConserves(cfg: Config, s: Sys, f: ExecEvent)
    requires LeavesAgree(cfg, s.first, s.fills)
    requires f.id < s.first
      || (f.leaves == cfg.orderQty - Traded(s.fills + [f], f.id) && (f.kind.KFilled? ==> f.leaves == 0.0))
    ensures LeavesAgree(cfg, s.first, s.fills + [f])
  {
    var fills' := s.fills + [f];
    forall m | 0 <= m < |fills'| && fills'[m].id >= s.first
      ensures fills'[m].leaves == cfg.orderQty - Traded(fills'[..m + 1], fills'[m].id)
      ensures fills'[m].kind.KFilled? ==> fills'[m].leaves == 0.0
    {
      if m < |s.fills| {
        assert fills'[..m + 1] == s.fills[..m + 1];
        assert fills'[m] == s.fills[m];
      } else {
        assert fills'[..m + 1] == fills';
      }
    }
  }

  lemma OrdersAfterTrade(cfg: Config, s: Sys, a: Action, f: ExecEvent)
    requires Inv(s) && OrdersAgree(cfg, s) && Enabled(cfg, s, a) && a.Trade?
    requires f.id == s.open[a.j].id && f.lastQty == a.qty && Do(cfg, s, a).fills == s.fills + [f]
    ensures OrdersAgree(cfg, Do(cfg, s, a))
  {
    var s', o := Do(cfg, s, a), s.open[a.j];
    OpenIdIsOnlyHere(s, a.j);
    ClosedIdPlace(s, a.j, o.id);
    forall id ensures Traded(s'.fills, id) == Traded(s.fills, id) + (if o.id == id then a.qty else 0.0) {
      TradedSnoc(s.fills, f, id);
    }
    forall p | p in s'.open
      ensures p.qty == cfg.orderQty && p.cum == Traded(s'.fills, p.id) && p.cum < p.qty
    {
      var i := OrderAfterTrade(s.open, s'.open, a.j, a.qty, p);
      assert s.open[i] in s.open;
    }
  }

  /** An order open after a trade is the traded one with more done, or another one unchanged. */
  lemma OrderAfterTrade(open: seq<Order>, open': seq<Order>, j: nat, qty: real, p: Order) returns (i: nat)
    requires j < |open| && p in open' && open[j].cum + qty <= open[j].qty
    requires open' == if open[j].cum + qty == open[j].qty then Without(open, j)
      else open[j := open[j].(cum := open[j].cum + qty)]
    ensures i < |open|
    ensures if i == j then p == open[j].(cum := open[j].cum + qty) && p.cum < p.qty else p == open[i]
  {
    var m :| 0 <= m < |open'| && open'[m] == p;
    i := if open[j].cum + qty == open[j].qty && m >= j then m + 1 else m;
  }

  lemma TradeEvent(cfg: Config, s: Sys, a: Action) returns (f: ExecEvent)
    requires Enabled(cfg, s, a) && StatusRule(s, a) && a.Trade?
    ensures var o := s.open[a.j];
      && f == Decode(TradeReport(o, a)) && f.kind.Fill() && f.id == o.id && f.lastQty == a.qty
      && f.leaves == o.qty - (o.cum + a.qty) && (f.kind.KFilled? ==> f.leaves == 0.0)
  {
    f := Decode(TradeReport(s.open[a.j], a));
  }

  /** The fill that a trade reports agrees with the order it is about. */
  lemma TradeLeavesAgree(cfg: Config, s: Sys, a: Action) returns (f: ExecEvent)
    requires Conserved(cfg, s) && Enabled(cfg, s, a) && StatusRule(s, a) && a.Trade?
    ensures f == Decode(TradeReport(s.open[a.j], a)) && f.kind.Fill() && f.id == s.open[a.j].id && f.lastQty == a.qty
    ensures LeavesAgree(cfg, s.first, s.fills + [f])
  {
    f := TradeEvent(cfg, s, a);
    assert s.open[a.j] in s.open;
    TradedSnoc(s.fills, f, f.id);
    NewFillConserves(cfg, s, f);
  }

  lemma TradeConserves(cfg: Config, s: Sys, a: Action)
    requires Inv(s) && Conserved(cfg, s) && Enabled(cfg, s, a) && StatusRule(s, a) && a.Trade?
    ensures Conserved(cfg, Do(cfg, s, a))
  {
    var s' := Do(cfg, s, a);
    var f := TradeLeavesAgree(cfg, s, a);
    assert s'.fills == s.fills + [f];
    StepArrival(cfg, s, a);
    OrdersAfterTrade(cfg, s, a, f);
    FillTold(s, s', TradeReport(s.open[a.j], a));
    assert s'.processed == s.processed && SlotsAgree(cfg, s');
  }

  lemma FillTold(s: Sys, s': Sys, r: FixReport)
    requires FillsTold(s) && s'.first == s.first && s'.told == s.told + [r]
    requires s'.fills == if Decode(r).kind.Fill() then s.fills + [Decode(r)] else s.fills
    requires Decode(r).id >= s.first ==> Decode(r).lastQty > 0.0
    ensures FillsTold(s')
  {
  }

  lemma AliveIsOfThisRun(s: Sys)
    requires Inv(s)
    ensures forall o | o in s.open :: o.id >= s.first
    ensures forall c | (c in s.wire || c in s.strat.out) && c.New? :: c.id >= s.first
  {
    forall o | o in s.open ensures o.id >= s.first {
      OpenIdsMember(s.open, o);
      AliveIdsAreOurs(s, o.slot, o.id);
    }
    forall c | (c in s.wire || c in s.strat.out) && c.New? ensures c.id >= s.first {
      if c in s.wire {
        NewIdsMember(s.wire, c);
      } else {
        NewIdsMember(s.strat.out, c);
      }
      assert c.id in Working(s, c.slot);
      AliveIdsAreOurs(s, c.slot, c.id);
    }
  }

  /** A report about no order of this run, fill or not. */
  lemma ForeignConserves(cfg: Config, s: Sys, a: Action)
    requires Inv(s) && Conserved(cfg, s) && Enabled(cfg, s, a)
    requires (a.Stray? || a.Repeat?) && Decode(a.r).id < s.first
    ensures Conserved(cfg, Do(cfg, s, a))
  {
    var s', f := Do(cfg, s, a), Decode(a.r);
    StepArrival(cfg, s, a);
    NewFillConserves(cfg, s, f);
    FillTold(s, s', a.r);
    forall id | id >= s.first ensures Traded(s'.fills, id) == Traded(s.fills, id) {
      TradedSnoc(s.fills, f, id);
    }
    AliveIsOfThisRun(s);
  }

  lemma ReportConserves(cfg: Config, s: Sys)
    requires Inv(s) && Conserved(cfg, s) && Enabled(cfg, s, OnReport)
    ensures Conserved(cfg, Do(cfg, s, OnReport))
  {
    var s', e := Do(cfg, s, OnReport), s.execs[0];
    ReportArrival(cfg, s);
    StepArrival(cfg, s, OnReport);
    assert e in Pending(s);
    assert TradesOf(s'.processed) <= s.fills;
    forall k | 0 <= k < SLOTS && s'.strat.slots[k].id >= s.first
      ensures s'.strat.slots[k].qty == cfg.orderQty - Traded(TradesOf(s'.processed), s'.strat.slots[k].id)
    {
      SlotsAfterReport(cfg, s, k, TradesOf(s'.processed));
    }
    assert OrdersAgree(cfg, s') && LeavesAgree(cfg, s'.first, s'.fills);
  }

  /** The report finds every slot that holds its id, so no slot misses a fill. */
  lemma ReportFindsSlot(s: Sys, e: ExecEvent, k: nat)
    requires Tags(s) && Harmless(s, e) && k < SLOTS && s.strat.slots[k].id == e.id >= s.first
    ensures OnExec(s.strat.slots, e)[k] == Moved(s.strat.slots[k], e)
  {
  }

  lemma SlotsAfterReport(cfg: Config, s: Sys, k: nat, done': seq<ExecEvent>)
    requires Tags(s) && SlotsAgree(cfg, s) && LeavesAgree(cfg, s.first, s.fills) && Enabled(cfg, s, OnReport)
    requires Harmless(s, s.execs[0]) && k < SLOTS
    requires done' == TradesOf(s.processed) + (if s.execs[0].kind.Fill() then [s.execs[0]] else []) && done' <= s.fills
    ensures var q' := OnExec(s.strat.slots, s.execs[0])[k];
      q'.id >= s.first ==> q'.qty == cfg.orderQty - Traded(done', q'.id)
  {
    var e, q := s.execs[0], s.strat.slots[k];
    if q.id >= s.first {
      SlotAfterReport(cfg, s.first, q, e, TradesOf(s.processed), done', s.fills);
      if q.id == e.id {
        ReportFindsSlot(s, e, k);
      } else {
        OtherSlotStays(s.strat.slots, e, k);
      }
    } else {
      OtherSlotStays(s.strat.slots, e, k);
    }
  }

  /** A slot with another id stays, and a moved one keeps its id or is emptied. */
  lemma OtherSlotStays(slots: seq<Quote>, e: ExecEvent, k: nat)
    requires |slots| == SLOTS && e.sym < MAX_SYMBOLS && k < SLOTS
    ensures slots[k].id != e.id ==> OnExec(slots, e)[k] == slots[k]
    ensures OnExec(slots, e)[k].id == slots[k].id || OnExec(slots, e)[k].id == 0
  {
    var i := OnExecTouchesOne(slots, e);
  }

  lemma SlotAfterReport(cfg: Config, first: nat, q: Quote, e: ExecEvent, done: seq<ExecEvent>, done': seq<ExecEvent>,
                        fills: seq<ExecEvent>)
    requires LeavesAgree(cfg, first, fills) && done' == done + (if e.kind.Fill() then [e] else []) && done' <= fills
    requires q.id >= first && q.qty == cfg.orderQty - Traded(done, q.id)
    ensures q.id != e.id ==> q.qty == cfg.orderQty - Traded(done', q.id)
    ensures q.id == e.id && Moved(q, e) != EMPTY ==> Moved(q, e).qty == cfg.orderQty - Traded(done', q.id)
  {
    if e.kind.Fill() {
      var m := |done|;
      TradedSnoc(done, e, q.id);
      assert fills[m] == e && fills[..m + 1] == done + [e];
    } else {
      assert done' == done;
    }
  }

  lemma FreshIdUntraded(cfg: Config, s: Sys)
    requires Conserved(cfg, s)
    ensures Traded(s.fills, s.strat.seed) == 0.0 && Traded(TradesOf(s.processed), s.strat.seed) == 0.0
  {
    NothingTraded(s.fills, s.strat.seed);
    assert forall e :: e in TradesOf(s.processed) ==> e in s.fills;
    NothingTraded(TradesOf(s.processed), s.strat.seed);
  }

  lemma RequoteConserves(cfg: Config, s: Sys, k: nat, px: real, ok: bool)
    requires Inv(s) && Conserved(cfg, s) && k < SLOTS
    ensures Conserved(cfg, s.(strat := Requote(cfg, s.strat, k, px, ok)))
  {
    FreshIdUntraded(cfg, s);
    assert Pending(s.(strat := Requote(cfg, s.strat, k, px, ok))) == Pending(s);
  }

  lemma CancelConserves(cfg: Config, s: Sys, k: nat, ok: bool)
    requires Inv(s) && Conserved(cfg, s) && k < SLOTS
    ensures Conserved(cfg, s.(strat := CancelSide(cfg, s.strat, k, ok)))
  {
    assert Pending(s.(strat := CancelSide(cfg, s.strat, k, ok))) == Pending(s);
  }

  lemma DecideConserves(cfg: Config, s: Sys, sym: nat, bid: real, ask: real, okBuy: bool, okSell: bool)
    requires Inv(s) && Conserved(cfg, s) && sym < MAX_SYMBOLS
    ensures Conserved(cfg, s.(strat := Decide(cfg, s.strat, sym, bid, ask, okBuy, okSell)))
  {
    var P := t => Inv(s.(strat := t)) && Conserved(cfg, s.(strat := t));
    forall t: Strat, k: nat, px: real, ok: bool | P(t) && k < SLOTS == |t.slots| ensures P(Requote(cfg, t, k, px, ok)) {
      RequoteKeepsInv(cfg, s.(strat := t), k, px, ok);
      RequoteConserves(cfg, s.(strat := t), k, px, ok);
    }
    forall t: Strat, k: nat, ok: bool | P(t) && k < SLOTS == |t.slots| ensures P(CancelSide(cfg, t, k, ok)) {
      CancelSideKeepsInv(cfg, s.(strat := t), k, ok);
      CancelConserves(cfg, s.(strat := t), k, ok);
    }
    DecidePreserves(cfg, s.strat, sym, bid, ask, okBuy, okSell, P);
  }

  lemma StepConserves(cfg: Config, s: Sys, a: Action)
    requires Inv(s) && Conserved(cfg, s) && Enabled(cfg, s, a) && StatusRule(s, a)
    requires !DropsFill(s, a) && !RepeatsFill(s, a) && cfg.orderQty > 0.0
    ensures Conserved(cfg, Do(cfg, s, a))
  {
    match a {
      case Snapshot(sym, bid, ask, okBuy, okSell) =>
        DecideConserves(cfg, s, sym, bid, ask, okBuy, okSell);
      case OnReport => ReportConserves(cfg, s);
      case Trade(_, _, _, _) => TradeConserves(cfg, s, a);
      case Stray(_) => ForeignConserves(cfg, s, a);
      case Repeat(r) =>
        if Decode(r).id < s.first {
          ForeignConserves(cfg, s, a);
        } else {
          ChannelsConserve(cfg, s, a);
        }
      case _ => ChannelsConserve(cfg, s, a);
    }
  }

  lemma {:induction false} RunConserves(cfg: Config, s: Sys, acts: seq<Action>)
    requires Inv(s) && Conserved(cfg, s) && cfg.orderQty > 0.0
    requires Admissible(cfg, s, acts) && RuleAlong(cfg, s, acts)
    requires NoFillDropped(cfg, s, acts) && NoFillRepeated(cfg, s, acts)
    ensures Inv(Exec(cfg, s, acts)) && Conserved(cfg, Exec(cfg, s, acts))
    decreases |acts|
  {
    if acts != [] {
      StepKeepsInv(cfg, s, acts[0]);
      StepConserves(cfg, s, acts[0]);
      RunConserves(cfg, Do(cfg, s, acts[0]), acts[1..]);
    }
  }

  /**
   Every reported fill is, in order, either in the trade ring or still on its
   way; every slot's quantity plus the fills handled for its order is the
   quantity sent; every fill reports what the fills so far leave of its order, and
   an order reported filled has traded exactly the quantity sent.
   */
  lemma FillConservation(cfg: Config, s0: Sys, acts: seq<Action>) returns (s: Sys)
    requires s0.first > 0 && s0 == Initial(s0.first) && cfg.orderQty > 0.0
    requires Admissible(cfg, s0, acts) && RuleAlong(cfg, s0, acts)
    requires NoFillDropped(cfg, s0, acts) && NoFillRepeated(cfg, s0, acts)
    ensures s == Exec(cfg, s0, acts) && Arrived(s)
    ensures forall k | 0 <= k < |s.strat.slots| && s.strat.slots[k].id >= s.first ::
      s.strat.slots[k].qty + Traded(TradesOf(s.processed), s.strat.slots[k].id) == cfg.orderQty
    ensures LeavesAgree(cfg, s.first, s.fills)
    ensures forall m | 0 <= m < |s.fills| && s.fills[m].id >= s.first && s.fills[m].kind.KFilled? ::
      Traded(s.fills[..m + 1], s.fills[m].id) == cfg.orderQty
  {
    InitialInv(s0.first);
    InitialConserves(cfg, s0.first);
    RunConserves(cfg, s0, acts);
    s := Exec(cfg, s0, acts);
  }

  lemma InitialConserves(cfg: Config, first: nat)
    requires first > 0
    ensures Conserved(cfg, Initial(first))
  {
  }

  lemma {:induction false} TradedGrows(es: seq<ExecEvent>, m: nat, id: nat)
    requires m <= |es| && forall e | e in es && e.id == id :: e.lastQty > 0.0
    ensures Traded(es[..m], id) <= Traded(es, id)
    decreases |es|
  {
    if m == |es| {
      assert es[..m] == es;
    } else {
      var n := |es| - 1;
      assert es[..n][..m] == es[..m] && es[n] in es;
      TradedGrows(es[..n], m, id);
    }
  }

  lemma CountedTwice(cfg: Config, first: nat, fills: seq<ExecEvent>, m: nat)
    requires m < |fills| && fills[m].id >= first && LeavesAgree(cfg, first, fills)
    requires forall f | f in fills && f.id >= first :: f.lastQty > 0.0
    ensures !LeavesAgree(cfg, first, fills + [fills[m]])
  {
    var f := fills[m];
    var fills' := fills + [f];
    TradedGrows(fills, m + 1, f.id);
    TradedSnoc(fills, f, f.id);
    assert f in fills && fills'[|fills|] == f && fills'[..|fills| + 1] == fills';
  }

  /**
   A repeated report: what the fills report as left still agrees with what they
   add up to if and only if it is not about a fill of this run.
   */
  lemma RepeatAgreesIffNoFill(cfg: Config, s: Sys, r: FixReport)
    requires Conserved(cfg, s) && Enabled(cfg, s, Repeat(r))
    ensures LeavesAgree(cfg, s.first, Do(cfg, s, Repeat(r)).fills) <==> !RepeatsFill(s, Repeat(r))
  {
    var f := Decode(r);
    if RepeatsFill(s, Repeat(r)) {
      var m :| 0 <= m < |s.fills| && s.fills[m] == f;
      CountedTwice(cfg, s.first, s.fills, m);
    } else if f.kind.Fill() {
      NewFillConserves(cfg, s, f);
    }
  }
}
