/**
 Bounded convergence. While the market stands still, a ranking bounds the number
 of commands a slot can still cause; every snapshot that meets the slot at rest
 lowers it; at rank zero the slot is where the strategy wants it and stays there.
 */
module Ranking {
  import opened Events
  import opened OrderManager
  import opened MarketMaker
  import opened QuoteSystem
  import opened CancelDiscipline
  import opened Convergence

  datatype Market = Market(sym: nat, bid: real, ask: real)

  predicate SlotOfMarket(m: Market, k: nat) {
    m.sym < MAX_SYMBOLS && (k == SlotOf(m.sym, Buy) || k == SlotOf(m.sym, Sell))
  }

  /** One tick inside the best price of the slot's side. */
  function Target(cfg: Config, m: Market, k: nat): real {
    if k % 2 == 0 then m.bid + cfg.tick else m.ask - cfg.tick
  }

  predicate IsWide(cfg: Config, m: Market) {
    Wide(cfg, m.bid, m.ask)
  }

  /** The standing snapshot, with room in the order ring. */
  function Tick(m: Market): Action {
    Snapshot(m.sym, m.bid, m.ask, true, true)
  }

  /** No fills, refusals, unsolicited cancels, strays or repeats; snapshots of this symbol all say the same. */
  ghost predicate Quiet(s: Sys, m: Market, a: Action) {
    && Cooperative(s, a)
    && !a.Refuse? && !a.Trade? && !a.Expire? && !a.Stray? && !a.Repeat?
    && (a.Snapshot? && a.sym == m.sym ==> a == Tick(m))
  }

  ghost predicate QuietAlong(cfg: Config, s: Sys, m: Market, acts: seq<Action>)
    requires Admissible(cfg, s, acts)
    decreases |acts|
  {
    acts == [] || (Quiet(s, m, acts[0]) && QuietAlong(cfg, Do(cfg, s, acts[0]), m, acts[1..]))
  }

  /** How many more commands slot `k` can cause. */
  ghost function Rank(cfg: Config, s: Sys, m: Market, k: nat): nat
    requires k < |s.strat.slots|
  {
    RankOf(cfg, m, k, s.strat.slots[k], EndPending(Pending(s), s.strat.slots[k].id))
  }

  ghost function RankOf(cfg: Config, m: Market, k: nat, q: Quote, ending: bool): nat {
    if IsWide(cfg, m) then
      if q.state == NoQuote || q.state == PendingCancel then 1
      else if !Near(cfg, q.price, Target(cfg, m, k)) then 2
      else if ending then 1 else 0
    else if q.state == PendingNew || q.state == Live then 1 else 0
  }

  function CountFor(cmds: seq<OrderCmd>, k: nat): nat {
    if cmds == [] then 0 else (if cmds[|cmds| - 1].slot == k then 1 else 0) + CountFor(cmds[..|cmds| - 1], k)
  }

  lemma CountSnoc(cmds: seq<OrderCmd>, c: OrderCmd, k: nat)
    ensures CountFor(cmds + [c], k) == CountFor(cmds, k) + (if c.slot == k then 1 else 0)
  {
    assert (cmds + [c])[..|cmds|] == cmds;
  }

  lemma {:induction false} CountConcat(a: seq<OrderCmd>, b: seq<OrderCmd>, k: nat)
    ensures CountFor(a + b, k) == CountFor(a, k) + CountFor(b, k)
    decreases |b|
  {
    if b == [] {
      assert a + b == a;
    } else {
      var c := b[|b| - 1];
      CountConcat(a, b[..|b| - 1], k);
      CountSnoc(a + b[..|b| - 1], c, k);
      assert a + b == (a + b[..|b| - 1]) + [c];
    }
  }

  // --------------------------- what a snapshot does ---------------------------

  /** A snapshot that wants `px` makes a slot in this state send a command. */
  predicate Moves(cfg: Config, wide: bool, px: real, q: Quote) {
    if wide then q.state == NoQuote || (q.state == Live && !Near(cfg, q.price, px))
    else q.state == Live
  }

  function Moved(cfg: Config, wide: bool, px: real, q: Quote, id: nat): Quote {
    if !Moves(cfg, wide, px, q) then q
    else if q.state == NoQuote then Quote(PendingNew, id, px, cfg.orderQty)
    else q.(state := PendingCancel)
  }

  lemma CancelSideEffect(cfg: Config, st: Strat, j: nat, k: nat)
    requires j < |st.slots| && k < |st.slots| && !cfg.dryRun
    ensures var st' := CancelSide(cfg, st, j, true);
      && st.seed <= st'.seed <= st.seed + 1
      && (if k == j && st.slots[k].state == Live
          then st'.slots[k] == st.slots[k].(state := PendingCancel) && CountFor(st'.out, k) == CountFor(st.out, k) + 1
          else st'.slots[k] == st.slots[k] && CountFor(st'.out, k) == CountFor(st.out, k))
  {
    CountSnoc(st.out, Cancel(j, st.seed, st.slots[j].id, st.slots[j].qty), k);
  }

  lemma RequoteEffect(cfg: Config, st: Strat, j: nat, px: real, k: nat)
    requires j < |st.slots| && k < |st.slots| && !cfg.dryRun
    ensures var st', q := Requote(cfg, st, j, px, true), st.slots[k];
      && st.seed <= st'.seed <= st.seed + 1
      && (if k == j && q.state == NoQuote
          then st'.slots[k] == Quote(PendingNew, st.seed, px, cfg.orderQty)
            && CountFor(st'.out, k) == CountFor(st.out, k) + 1
          else if k == j && q.state == Live && !Near(cfg, q.price, px)
          then st'.slots[k] == q.(state := PendingCancel) && CountFor(st'.out, k) == CountFor(st.out, k) + 1
          else st'.slots[k] == q && CountFor(st'.out, k) == CountFor(st.out, k))
  {
    if st.slots[j].state == Live {
      CancelSideEffect(cfg, st, j, k);
    } else {
      CountSnoc(st.out, New(j, st.seed, px, cfg.orderQty), k);
    }
  }

  lemma TwoRequotes(cfg: Config, st: Strat, b: nat, o: nat, bid: real, ask: real, k: nat) returns (st': Strat, id: nat)
    requires |st.slots| == SLOTS && b < SLOTS && o < SLOTS && b != o && (k == b || k == o) && !cfg.dryRun
    ensures st' == Requote(cfg, Requote(cfg, st, b, bid, true), o, ask, true) && st.seed <= id
    ensures var px := if k == b then bid else ask;
      && st'.slots[k] == Moved(cfg, true, px, st.slots[k], id)
      && CountFor(st'.out, k) == CountFor(st.out, k) + (if Moves(cfg, true, px, st.slots[k]) then 1 else 0)
  {
    var st1 := Requote(cfg, st, b, bid, true);
    RequoteEffect(cfg, st, b, bid, k);
    RequoteEffect(cfg, st1, o, ask, k);
    st', id := Requote(cfg, st1, o, ask, true), if k == b then st.seed else st1.seed;
  }

  lemma TwoCancels(cfg: Config, st: Strat, b: nat, o: nat, px: real, id: nat, k: nat) returns (st': Strat)
    requires |st.slots| == SLOTS && b < SLOTS && o < SLOTS && b != o && (k == b || k == o) && !cfg.dryRun
    ensures st' == CancelSide(cfg, CancelSide(cfg, st, b, true), o, true)
    ensures st'.slots[k] == Moved(cfg, false, px, st.slots[k], id)
    ensures CountFor(st'.out, k) == CountFor(st.out, k) + (if Moves(cfg, false, px, st.slots[k]) then 1 else 0)
  {
    var st1 := CancelSide(cfg, st, b, true);
    CancelSideEffect(cfg, st, b, k);
    CancelSideEffect(cfg, st1, o, k);
    st' := CancelSide(cfg, st1, o, true);
  }

  predicate WouldMove(cfg: Config, st: Strat, m: Market, k: nat)
    requires k < |st.slots|
  {
    Moves(cfg, IsWide(cfg, m), Target(cfg, m, k), st.slots[k])
  }

  /** The standing snapshot, seen from one of the two slots of its symbol. */
  lemma TickEffect(cfg: Config, st: Strat, m: Market, k: nat) returns (st': Strat, id: nat)
    requires |st.slots| == SLOTS && SlotOfMarket(m, k) && !cfg.dryRun
    requires IsWide(cfg, m) ==> Fits(cfg, m.bid, m.ask)
    ensures st' == Decide(cfg, st, m.sym, m.bid, m.ask, true, true) && st.seed <= id
    ensures st'.slots[k] == Moved(cfg, IsWide(cfg, m), Target(cfg, m, k), st.slots[k], id)
    ensures CountFor(st'.out, k) == CountFor(st.out, k) + (if WouldMove(cfg, st, m, k) then 1 else 0)
  {
    if IsWide(cfg, m) {
      st', id := WideTick(cfg, st, m, k, m.bid + cfg.tick, m.ask - cfg.tick);
    } else {
      id := st.seed;
      st' := NarrowTick(cfg, st, m, k, id);
    }
  }

  lemma WideTick(cfg: Config, st: Strat, m: Market, k: nat, b: real, a: real) returns (st': Strat, id: nat)
    requires |st.slots| == SLOTS && SlotOfMarket(m, k) && !cfg.dryRun && IsWide(cfg, m) && Fits(cfg, m.bid, m.ask)
    requires b == m.bid + cfg.tick && a == m.ask - cfg.tick
    ensures st' == Decide(cfg, st, m.sym, m.bid, m.ask, true, true) && st.seed <= id
    ensures st'.slots[k] == Moved(cfg, true, Target(cfg, m, k), st.slots[k], id)
    ensures CountFor(st'.out, k) == CountFor(st.out, k)
      + (if Moves(cfg, true, Target(cfg, m, k), st.slots[k]) then 1 else 0)
  {
    DecideQuotes(cfg, st, m.sym, m.bid, m.ask, b, a, true, true);
    assert Target(cfg, m, k) == if k == SlotOf(m.sym, Buy) then b else a;
    st', id := TwoRequotes(cfg, st, SlotOf(m.sym, Buy), SlotOf(m.sym, Sell), b, a, k);
  }

  lemma NarrowTick(cfg: Config, st: Strat, m: Market, k: nat, id: nat) returns (st': Strat)
    requires |st.slots| == SLOTS && SlotOfMarket(m, k) && !cfg.dryRun && !IsWide(cfg, m)
    ensures st' == Decide(cfg, st, m.sym, m.bid, m.ask, true, true)
    ensures st'.slots[k] == Moved(cfg, false, Target(cfg, m, k), st.slots[k], id)
    ensures CountFor(st'.out, k) == CountFor(st.out, k)
      + (if Moves(cfg, false, Target(cfg, m, k), st.slots[k]) then 1 else 0)
  {
    DecideCancels(cfg, st, m.sym, m.bid, m.ask, true, true);
    st' := TwoCancels(cfg, st, SlotOf(m.sym, Buy), SlotOf(m.sym, Sell), Target(cfg, m, k), id, k);
  }

  lemma RequotesElsewhere(cfg: Config, st: Strat, b: nat, o: nat, bid: real, ask: real, okBuy: bool, okSell: bool,
                          k: nat)
    returns (st': Strat)
    requires b < |st.slots| && o < |st.slots| && k < |st.slots| && k != b && k != o
    ensures st' == Requote(cfg, Requote(cfg, st, b, bid, okBuy), o, ask, okSell)
    ensures st'.slots[k] == st.slots[k] && CountFor(st'.out, k) == CountFor(st.out, k)
  {
    var st1 := Requote(cfg, st, b, bid, okBuy);
    RequoteElsewhere(cfg, st, b, bid, okBuy, k);
    RequoteElsewhere(cfg, st1, o, ask, okSell, k);
    st' := Requote(cfg, st1, o, ask, okSell);
  }

  lemma CancelsElsewhere(cfg: Config, st: Strat, b: nat, o: nat, okBuy: bool, okSell: bool, k: nat) returns (st': Strat)
    requires b < |st.slots| && o < |st.slots| && k < |st.slots| && k != b && k != o
    ensures st' == CancelSide(cfg, CancelSide(cfg, st, b, okBuy), o, okSell)
    ensures st'.slots[k] == st.slots[k] && CountFor(st'.out, k) == CountFor(st.out, k)
  {
    var st1 := CancelSide(cfg, st, b, okBuy);
    CancelElsewhere(cfg, st, b, okBuy, k);
    CancelElsewhere(cfg, st1, o, okSell, k);
    st' := CancelSide(cfg, st1, o, okSell);
  }

  /** A snapshot of another symbol leaves the slot and its commands alone. */
  lemma OtherSymbol(cfg: Config, st: Strat, a: Action, k: nat) returns (st': Strat)
    requires |st.slots| == SLOTS && a.Snapshot? && a.sym < MAX_SYMBOLS
    requires k < SLOTS && k != SlotOf(a.sym, Buy) && k != SlotOf(a.sym, Sell)
    ensures st' == Decide(cfg, st, a.sym, a.bid, a.ask, a.okBuy, a.okSell)
    ensures st'.slots[k] == st.slots[k] && CountFor(st'.out, k) == CountFor(st.out, k)
  {
    if !Wide(cfg, a.bid, a.ask) {
      DecideCancels(cfg, st, a.sym, a.bid, a.ask, a.okBuy, a.okSell);
      st' := CancelsElsewhere(cfg, st, SlotOf(a.sym, Buy), SlotOf(a.sym, Sell), a.okBuy, a.okSell, k);
    } else if Fits(cfg, a.bid, a.ask) {
      var bid, ask := a.bid + cfg.tick, a.ask - cfg.tick;
      DecideQuotes(cfg, st, a.sym, a.bid, a.ask, bid, ask, a.okBuy, a.okSell);
      st' := RequotesElsewhere(cfg, st, SlotOf(a.sym, Buy), SlotOf(a.sym, Sell), bid, ask, a.okBuy, a.okSell, k);
    } else {
      st' := st;
    }
  }

  lemma CancelElsewhere(cfg: Config, st: Strat, j: nat, ok: bool, k: nat)
    requires j < |st.slots| && k < |st.slots| && j != k
    ensures var st' := CancelSide(cfg, st, j, ok);
      st'.slots[k] == st.slots[k] && CountFor(st'.out, k) == CountFor(st.out, k)
  {
    CountSnoc(st.out, Cancel(j, st.seed, st.slots[j].id, st.slots[j].qty), k);
  }

  lemma RequoteElsewhere(cfg: Config, st: Strat, j: nat, px: real, ok: bool, k: nat)
    requires j < |st.slots| && k < |st.slots| && j != k
    ensures var st' := Requote(cfg, st, j, px, ok);
      st'.slots[k] == st.slots[k] && CountFor(st'.out, k) == CountFor(st.out, k)
  {
    CancelElsewhere(cfg, st, j, ok, k);
    CountSnoc(st.out, New(j, st.seed, px, cfg.orderQty), k);
  }

  // ------------------------------ the ranking ------------------------------

  /** Commands caused for slot `k` so far plus those still possible. */
  ghost function Budget(cfg: Config, s: Sys, m: Market, k: nat): nat
    requires k < |s.strat.slots|
  {
    CountFor(Sent(s), k) + Rank(cfg, s, m, k)
  }

  ghost predicate Standing(cfg: Config, m: Market, k: nat) {
    && SlotOfMarket(m, k) && !cfg.dryRun
    && (m.ask - m.bid >= cfg.minSpread ==> cfg.tick > 0.0 && m.ask - m.bid - 2.0 * cfg.tick >= cfg.tick / 2.0)
  }

  lemma SeedNotEnding(s: Sys, id: nat)
    requires Inv(s) && id >= s.strat.seed
    ensures !EndPending(Pending(s), id)
  {
    forall e | e in Pending(s) ensures e.id < s.strat.seed {
      assert Harmless(s, e);
    }
  }

  /** A command the snapshot causes is one the rank had counted. */
  lemma RankAfterTick(cfg: Config, m: Market, k: nat, q: Quote, id: nat, ending: bool, ending': bool)
    requires IsWide(cfg, m) ==> cfg.tick > 0.0
    requires ending' == if q.state == NoQuote && IsWide(cfg, m) then false else ending
    ensures RankOf(cfg, m, k, Moved(cfg, IsWide(cfg, m), Target(cfg, m, k), q, id), ending')
      == RankOf(cfg, m, k, q, ending) - if Moves(cfg, IsWide(cfg, m), Target(cfg, m, k), q) then 1 else 0
  {
  }

  lemma TickBudget(cfg: Config, s: Sys, m: Market, k: nat) returns (s': Sys)
    requires Inv(s) && Standing(cfg, m, k) && Enabled(cfg, s, Tick(m))
    ensures s' == Do(cfg, s, Tick(m)) && |s'.strat.slots| == SLOTS
    ensures Budget(cfg, s', m, k) == Budget(cfg, s, m, k)
    ensures Rank(cfg, s', m, k) == Rank(cfg, s, m, k) - if WouldMove(cfg, s.strat, m, k) then 1 else 0
  {
    s' := Do(cfg, s, Tick(m));
    var st', id := TickEffect(cfg, s.strat, m, k);
    SeedNotEnding(s, id);
    assert Pending(s') == Pending(s);
    CountConcat(s.left, s.strat.out, k);
    CountConcat(s.left, st'.out, k);
    RankAfterTick(cfg, m, k, s.strat.slots[k], id, EndPending(Pending(s), s.strat.slots[k].id),
                  EndPending(Pending(s), st'.slots[k].id));
  }

  lemma OtherSnapshotBudget(cfg: Config, s: Sys, m: Market, a: Action, k: nat) returns (s': Sys)
    requires Inv(s) && SlotOfMarket(m, k) && a.Snapshot? && a.sym != m.sym && Enabled(cfg, s, a)
    ensures s' == Do(cfg, s, a) && |s'.strat.slots| == SLOTS
    ensures Budget(cfg, s', m, k) == Budget(cfg, s, m, k) && Rank(cfg, s', m, k) == Rank(cfg, s, m, k)
  {
    s' := Do(cfg, s, a);
    var _ := OtherSymbol(cfg, s.strat, a, k);
    assert Pending(s') == Pending(s);
    CountConcat(s.left, s.strat.out, k);
    CountConcat(s.left, s'.strat.out, k);
  }

  /** Handling a report never raises the rank: a terminal one was already counted as ending. */
  lemma RankAfterReport(cfg: Config, m: Market, k: nat, q: Quote, e: ExecEvent, ending: bool, ending': bool)
    requires q.id == e.id
      ==> (e.kind.Terminal() ==> ending) && q.state != NoQuote && (e.kind.KNew? ==> q.state == PendingNew)
    requires ending' ==> ending || (q.id == e.id && e.kind.Terminal())
    ensures var q' := if q.id == e.id then OrderManager.Moved(q, e) else q;
      RankOf(cfg, m, k, q', ending') <= RankOf(cfg, m, k, q, ending)
  {
  }

  lemma ReportBudget(cfg: Config, s: Sys, m: Market, k: nat) returns (s': Sys)
    requires Sound(s) && k < SLOTS && Enabled(cfg, s, OnReport)
    ensures s' == Do(cfg, s, OnReport) && |s'.strat.slots| == SLOTS
    ensures Sent(s') == Sent(s) && Rank(cfg, s', m, k) <= Rank(cfg, s, m, k)
  {
    s' := Do(cfg, s, OnReport);
    var e, q, q' := s.execs[0], s.strat.slots[k], s'.strat.slots[k];
    PendingAfterReport(s, s', q'.id);
    assert Harmless(s, e);
    SlotAfterReport(s, e, k);
    if q.id == e.id {
      AwaitedState(s, e, k);
    }
    RankAfterReport(cfg, m, k, q, e, EndPending(Pending(s), q.id), EndPending(Pending(s'), q'.id));
  }

  lemma PendingAfterReport(s: Sys, s': Sys, id: nat)
    requires s.execs != [] && s'.execs == s.execs[1..] && s'.reports == s.reports
    ensures s.execs[0] in Pending(s)
    ensures EndPending(Pending(s'), id) ==> EndPending(Pending(s), id)
    ensures s.execs[0].kind.Terminal() ==> EndPending(Pending(s), s.execs[0].id)
  {
    assert Pending(s) == [s.execs[0]] + Pending(s');
    EndStays(Pending(s'), Pending(s), id);
  }

  /** A report that finds slot `k` finds an order there, unacknowledged if it is its acknowledgement. */
  lemma AwaitedState(s: Sys, e: ExecEvent, k: nat)
    requires Sound(s) && k < SLOTS && s.execs != [] && e == s.execs[0] && s.strat.slots[k].id == e.id
    ensures s.strat.slots[k].state != NoQuote && (e.kind.KNew? ==> s.strat.slots[k].state == PendingNew)
  {
    assert e in Pending(s);
    if e.kind.KNew? {
      HeadAckAwaited(s, k);
    }
    assert Awaits(s, k, s.strat.slots[k]);
  }

  /** A working quote that nobody asked to cancel is not cancelled. */
  lemma CancelIsOfAnother(s: Sys, k: nat)
    requires Sound(s) && k < SLOTS && s.wire != [] && s.wire[0].Cancel?
    requires s.strat.slots[k].state == PendingNew || s.strat.slots[k].state == Live
    ensures s.wire[0].orig != s.strat.slots[k].id && s.wire[0].id != s.strat.slots[k].id
  {
    var c := s.wire[0];
    assert c in s.wire && c in Sent(s);
    assert Awaits(s, k, s.strat.slots[k]);
  }

  lemma ExchangeBudget(cfg: Config, s: Sys, m: Market, a: Action, k: nat) returns (s': Sys)
    requires Sound(s) && k < SLOTS && Enabled(cfg, s, a) && Quiet(s, m, a) && !a.Snapshot? && !a.OnReport?
    ensures s' == Do(cfg, s, a) && |s'.strat.slots| == SLOTS
    ensures Sent(s') == Sent(s) && Rank(cfg, s', m, k) <= Rank(cfg, s, m, k)
  {
    s' := Do(cfg, s, a);
    var q := s.strat.slots[k];
    assert Sent(s') == Sent(s);
    if a.Deliver? {
      PendingAfterDeliver(cfg, s, a);
    } else {
      PendingGrows(s, s');
    }
    if (q.state == PendingNew || q.state == Live) && (a.CancelOpen? || a.CancelUnknown?) {
      CancelIsOfAnother(s, k);
    }
    assert q.state == PendingNew || q.state == Live ==> EndPending(Pending(s'), q.id) ==> EndPending(Pending(s), q.id);
  }

  lemma StepBudget(cfg: Config, s: Sys, m: Market, a: Action, k: nat) returns (s': Sys)
    requires Sound(s) && Standing(cfg, m, k) && Enabled(cfg, s, a) && Quiet(s, m, a)
    ensures s' == Do(cfg, s, a) && Sound(s')
    ensures Budget(cfg, s', m, k) <= Budget(cfg, s, m, k) && Rank(cfg, s', m, k) <= Rank(cfg, s, m, k)
    ensures CountFor(Sent(s), k) <= CountFor(Sent(s'), k)
  {
    if a.Snapshot? {
      if a.sym == m.sym {
        s' := TickBudget(cfg, s, m, k);
      } else {
        s' := OtherSnapshotBudget(cfg, s, m, a, k);
      }
    } else if a.OnReport? {
      s' := ReportBudget(cfg, s, m, k);
    } else {
      s' := ExchangeBudget(cfg, s, m, a, k);
    }
    StepSound(cfg, s, a);
  }

  /** Over any quiet run a slot causes at most as many commands as its rank, and the rank never rises. */
  lemma {:induction false} RunBudget(cfg: Config, s: Sys, m: Market, acts: seq<Action>, k: nat) returns (s': Sys)
    requires Sound(s) && Standing(cfg, m, k) && Admissible(cfg, s, acts) && QuietAlong(cfg, s, m, acts)
    ensures s' == Exec(cfg, s, acts) && Sound(s')
    ensures Budget(cfg, s', m, k) <= Budget(cfg, s, m, k) && Rank(cfg, s', m, k) <= Rank(cfg, s, m, k)
    ensures CountFor(Sent(s), k) <= CountFor(Sent(s'), k)
    decreases |acts|
  {
    if acts == [] {
      s' := s;
    } else {
      var s1 := StepBudget(cfg, s, m, acts[0], k);
      s' := RunBudget(cfg, s1, m, acts[1..], k);
    }
  }

  // ------------------------------ slots at rest ------------------------------

  /** Nothing that could move the slot is on its way; the other slots may be as busy as they like. */
  ghost predicate AtRest(s: Sys, k: nat)
    requires k < |s.strat.slots|
  {
    var q := s.strat.slots[k];
    q.state == NoQuote || (q.state == Live && !EndPending(Pending(s), q.id))
  }

  /**
   Where the strategy wants the slot to be. On a wide market the bid stands less
   than half a tick from one tick above the best bid, the offer less than half a
   tick from one tick below the best offer, each as an order open at the exchange;
   on a narrow one there is no quote and no order.
   */
  ghost predicate AtTarget(cfg: Config, s: Sys, m: Market, k: nat)
    requires k < |s.strat.slots|
  {
    var q := s.strat.slots[k];
    if m.ask - m.bid < cfg.minSpread then q.state == NoQuote && Working(s, k) == []
    else
      && q.state == Live && IsOpen(s, k, q.id)
      && if k % 2 == 0
         then m.bid + cfg.tick / 2.0 < q.price < m.bid + 3.0 * cfg.tick / 2.0
         else m.ask - 3.0 * cfg.tick / 2.0 < q.price < m.ask - cfg.tick / 2.0
  }

  /** A quiet run that ends with the slot at rest. */
  ghost predicate Settles(cfg: Config, s: Sys, m: Market, k: nat, acts: seq<Action>, s': Sys) {
    && Admissible(cfg, s, acts) && QuietAlong(cfg, s, m, acts) && Exec(cfg, s, acts) == s'
    && k < |s'.strat.slots| && AtRest(s', k)
  }

  predicate Ticks(cfg: Config, s: Sys, m: Market, s': Sys) {
    Enabled(cfg, s, Tick(m)) && Do(cfg, s, Tick(m)) == s'
  }

  lemma RestProgress(cfg: Config, s: Sys, m: Market, k: nat, s': Sys)
    requires Sound(s) && Standing(cfg, m, k) && AtRest(s, k) && Ticks(cfg, s, m, s')
    ensures Sound(s') && Budget(cfg, s', m, k) == Budget(cfg, s, m, k)
    ensures Rank(cfg, s', m, k) == if Rank(cfg, s, m, k) == 0 then 0 else Rank(cfg, s, m, k) - 1
  {
    var _ := TickBudget(cfg, s, m, k);
    StepSound(cfg, s, Tick(m));
  }

  lemma RankZeroIsTarget(cfg: Config, s: Sys, m: Market, k: nat)
    requires Sound(s) && k < SLOTS && AtRest(s, k) && Rank(cfg, s, m, k) == 0
    ensures AtTarget(cfg, s, m, k) && !WouldMove(cfg, s.strat, m, k)
  {
    assert AtMostOne(s, k) && Awaits(s, k, s.strat.slots[k]);
  }

  lemma SettleThenTick(cfg: Config, m: Market, k: nat, s: Sys, r: seq<Action>, s1: Sys, s2: Sys)
    requires Sound(s) && Standing(cfg, m, k) && Settles(cfg, s, m, k, r, s1) && Ticks(cfg, s1, m, s2)
    ensures Sound(s2) && Budget(cfg, s2, m, k) <= Budget(cfg, s, m, k)
    ensures Rank(cfg, s2, m, k) <= if Rank(cfg, s, m, k) == 0 then 0 else Rank(cfg, s, m, k) - 1
  {
    var _ := RunBudget(cfg, s, m, r, k);
    RestProgress(cfg, s1, m, k, s2);
  }

  /** A slot at rest at its target stays there in every quiet step: at most its open quantity changes. */
  lemma RestStep(cfg: Config, s: Sys, m: Market, a: Action, k: nat) returns (s': Sys)
    requires Sound(s) && Standing(cfg, m, k) && AtRest(s, k) && Rank(cfg, s, m, k) == 0
    requires Enabled(cfg, s, a) && Quiet(s, m, a)
    ensures s' == Do(cfg, s, a) && Sound(s') && AtRest(s', k) && Rank(cfg, s', m, k) == 0
  {
    s' := StepBudget(cfg, s, m, a, k);
    if a.Snapshot? {
      RankZeroIsTarget(cfg, s, m, k);
      SnapshotKeeps(cfg, s, m, a, k);
    } else {
      StateKept(cfg, s, a, k);
    }
    RankZeroRests(cfg, s', m, k);
  }

  lemma RankZeroRests(cfg: Config, s: Sys, m: Market, k: nat)
    requires k < |s.strat.slots| && Rank(cfg, s, m, k) == 0
    requires s.strat.slots[k].state == NoQuote || s.strat.slots[k].state == Live
    ensures AtRest(s, k)
  {
  }

  /** A slot at rest keeps its state in every step but a snapshot; an empty slot does so even before. */
  lemma StateKept(cfg: Config, s: Sys, a: Action, k: nat)
    requires Sound(s) && k < SLOTS && AtRest(s, k) && Enabled(cfg, s, a) && !a.Snapshot?
    ensures Do(cfg, s, a).strat.slots[k].state == s.strat.slots[k].state
  {
    if a.OnReport? {
      var s', e := Do(cfg, s, a), s.execs[0];
      PendingAfterReport(s, s', e.id);
      assert Harmless(s, e);
      SlotAfterReport(s, e, k);
      if s.strat.slots[k].id == e.id {
        AwaitedState(s, e, k);
      }
    }
  }

  /** A snapshot that would not move the slot leaves it as it is. */
  lemma SnapshotKeeps(cfg: Config, s: Sys, m: Market, a: Action, k: nat)
    requires Inv(s) && Standing(cfg, m, k) && a.Snapshot? && Enabled(cfg, s, a) && Quiet(s, m, a)
    requires !WouldMove(cfg, s.strat, m, k)
    ensures Do(cfg, s, a).strat.slots[k] == s.strat.slots[k] && Pending(Do(cfg, s, a)) == Pending(s)
  {
    if a.sym == m.sym {
      var _, _ := TickEffect(cfg, s.strat, m, k);
    } else {
      var _ := OtherSymbol(cfg, s.strat, a, k);
    }
  }

  lemma {:induction false} RestRun(cfg: Config, s: Sys, m: Market, acts: seq<Action>, k: nat) returns (s': Sys)
    requires Sound(s) && Standing(cfg, m, k) && AtRest(s, k) && Rank(cfg, s, m, k) == 0
    requires Admissible(cfg, s, acts) && QuietAlong(cfg, s, m, acts)
    ensures s' == Exec(cfg, s, acts) && Sound(s') && AtRest(s', k) && Rank(cfg, s', m, k) == 0
    decreases |acts|
  {
    if acts == [] {
      s' := s;
    } else {
      var s1 := RestStep(cfg, s, m, acts[0], k);
      s' := RestRun(cfg, s1, m, acts[1..], k);
    }
  }

  /** However the quiet run goes on, the slot stays at its target and no command is sent for it. */
  ghost predicate Rests(cfg: Config, t: Sys, m: Market, k: nat) {
    forall acts | Admissible(cfg, t, acts) && QuietAlong(cfg, t, m, acts) ::
      RestsAfter(cfg, t, m, k, Exec(cfg, t, acts))
  }

  ghost predicate RestsAfter(cfg: Config, t: Sys, m: Market, k: nat, u: Sys) {
    k < |u.strat.slots| && AtTarget(cfg, u, m, k) && CountFor(Sent(u), k) == CountFor(Sent(t), k)
  }

  lemma SettleAtTarget(cfg: Config, m: Market, k: nat, s: Sys, r: seq<Action>, t: Sys)
    requires Sound(s) && Standing(cfg, m, k) && Rank(cfg, s, m, k) == 0 && Settles(cfg, s, m, k, r, t)
    ensures Sound(t) && AtTarget(cfg, t, m, k) && CountFor(Sent(t), k) <= CountFor(Sent(s), k)
    ensures Rests(cfg, t, m, k)
  {
    var _ := RunBudget(cfg, s, m, r, k);
    RankZeroIsTarget(cfg, t, m, k);
    forall acts | Admissible(cfg, t, acts) && QuietAlong(cfg, t, m, acts)
      ensures RestsAfter(cfg, t, m, k, Exec(cfg, t, acts))
    {
      var u := RunBudget(cfg, t, m, acts, k);
      var _ := RestRun(cfg, t, m, acts, k);
      RankZeroIsTarget(cfg, u, m, k);
    }
  }

  /** Rounds of "the slot comes to rest, then one more of the standing snapshot is handled". */
  ghost predicate Rounds(cfg: Config, s: Sys, m: Market, k: nat, rs: seq<seq<Action>>, t: Sys)
    decreases |rs|
  {
    if rs == [] then t == s
    else exists s1, s2 :: Settles(cfg, s, m, k, rs[0], s1) && Ticks(cfg, s1, m, s2) && Rounds(cfg, s2, m, k, rs[1..], t)
  }

  lemma {:induction false} RoundsLowerRank(cfg: Config, m: Market, k: nat, s: Sys, rs: seq<seq<Action>>, t: Sys)
    requires Sound(s) && Standing(cfg, m, k) && Rounds(cfg, s, m, k, rs, t)
    ensures Sound(t) && Budget(cfg, t, m, k) <= Budget(cfg, s, m, k)
    ensures Rank(cfg, t, m, k) <= if Rank(cfg, s, m, k) <= |rs| then 0 else Rank(cfg, s, m, k) - |rs|
    decreases |rs|
  {
    if rs != [] {
      var s1, s2 :| Settles(cfg, s, m, k, rs[0], s1) && Ticks(cfg, s1, m, s2) && Rounds(cfg, s2, m, k, rs[1..], t);
      SettleThenTick(cfg, m, k, s, rs[0], s1, s2);
      RoundsLowerRank(cfg, m, k, s2, rs[1..], t);
    }
  }

  lemma AtMostTwo(cfg: Config, s: Sys, m: Market, k: nat)
    requires k < |s.strat.slots|
    ensures Rank(cfg, s, m, k) <= 2 && CountFor(Sent(s), k) <= Budget(cfg, s, m, k) <= CountFor(Sent(s), k) + 2
  {
  }

  /**
   From any state of a cooperative run, however many cancels and fills are still
   in flight, and however busy the other slots remain: once two snapshots (or
   more) have each met the slot at rest and it has come to rest again, it is at
   its target, it has caused at most two commands, and it causes no more.
   */
  lemma AnsweredWithinTwoSnapshots(cfg: Config, m: Market, k: nat, s: Sys, rs: seq<seq<Action>>, s': Sys,
                                   r: seq<Action>, t: Sys)
    requires Sound(s) && Standing(cfg, m, k) && |rs| >= 2
    requires Rounds(cfg, s, m, k, rs, s') && Settles(cfg, s', m, k, r, t)
    ensures Sound(t) && AtTarget(cfg, t, m, k)
    ensures CountFor(Sent(t), k) <= CountFor(Sent(s), k) + 2
    ensures Rests(cfg, t, m, k)
  {
    RoundsLowerRank(cfg, m, k, s, rs, s');
    AtMostTwo(cfg, s, m, k);
    SettleAtTarget(cfg, m, k, s', r, t);
  }

  // ------------------------- markets without an answer -------------------------

  /** A wide market in which no quote is ever placed, or none is ever near enough. */
  ghost predicate Hopeless(cfg: Config, m: Market) {
    IsWide(cfg, m) && (cfg.tick <= 0.0 || !Fits(cfg, m.bid, m.ask))
  }

  /** When the improved prices do not fit, a snapshot neither moves the slot's quote nor sends anything for it. */
  lemma UnfitSnapshot(cfg: Config, s: Sys, m: Market, a: Action, k: nat)
    requires Inv(s) && SlotOfMarket(m, k) && IsWide(cfg, m) && !Fits(cfg, m.bid, m.ask)
    requires a.Snapshot? && Enabled(cfg, s, a) && Quiet(s, m, a)
    ensures var s' := Do(cfg, s, a);
      s'.strat.slots[k] == s.strat.slots[k] && CountFor(Sent(s'), k) == CountFor(Sent(s), k)
  {
    var s' := Do(cfg, s, a);
    if a.sym == m.sym {
      DecideSkips(cfg, s.strat, m.sym, m.bid, m.ask, true, true);
    } else {
      var st' := OtherSymbol(cfg, s.strat, a, k);
      CountConcat(s.left, s.strat.out, k);
      CountConcat(s.left, st'.out, k);
    }
  }

  lemma UnfitStep(cfg: Config, s: Sys, m: Market, a: Action, k: nat) returns (s': Sys)
    requires Sound(s) && SlotOfMarket(m, k) && IsWide(cfg, m) && !Fits(cfg, m.bid, m.ask)
    requires Enabled(cfg, s, a) && Quiet(s, m, a)
    ensures s' == Do(cfg, s, a) && Sound(s') && CountFor(Sent(s'), k) == CountFor(Sent(s), k)
    ensures s.strat.slots[k].state == NoQuote ==> s'.strat.slots[k].state == NoQuote
  {
    s' := Do(cfg, s, a);
    StepSound(cfg, s, a);
    if a.Snapshot? {
      UnfitSnapshot(cfg, s, m, a, k);
    } else {
      SentKept(cfg, s, a);
      if s.strat.slots[k].state == NoQuote {
        StateKept(cfg, s, a, k);
      }
    }
  }

  lemma SentKept(cfg: Config, s: Sys, a: Action)
    requires Enabled(cfg, s, a) && !a.Snapshot?
    ensures Sent(Do(cfg, s, a)) == Sent(s)
  {
    if a.Send? {
      assert s.strat.out == [s.strat.out[0]] + s.strat.out[1..];
    }
  }

  /** A standing quote is left alone, and an empty slot stays empty, for as long as the market stands. */
  lemma {:induction false} UnfitRun(cfg: Config, s: Sys, m: Market, acts: seq<Action>, k: nat) returns (s': Sys)
    requires Sound(s) && SlotOfMarket(m, k)
    requires m.ask - m.bid >= cfg.minSpread && m.ask - m.bid - 2.0 * cfg.tick < cfg.tick / 2.0
    requires Admissible(cfg, s, acts) && QuietAlong(cfg, s, m, acts)
    ensures s' == Exec(cfg, s, acts) && Sound(s') && CountFor(Sent(s'), k) == CountFor(Sent(s), k)
    ensures s.strat.slots[k].state == NoQuote ==> s'.strat.slots[k].state == NoQuote
    decreases |acts|
  {
    if acts == [] {
      s' := s;
    } else {
      var s1 := UnfitStep(cfg, s, m, acts[0], k);
      s' := UnfitRun(cfg, s1, m, acts[1..], k);
    }
  }

  lemma {:induction false} UnfitRounds(cfg: Config, s: Sys, m: Market, k: nat, rs: seq<seq<Action>>, t: Sys)
    requires Sound(s) && SlotOfMarket(m, k) && IsWide(cfg, m) && !Fits(cfg, m.bid, m.ask)
    requires Rounds(cfg, s, m, k, rs, t) && s.strat.slots[k].state == NoQuote
    ensures Sound(t) && t.strat.slots[k].state == NoQuote
    decreases |rs|
  {
    if rs != [] {
      var s1, s2 :| Settles(cfg, s, m, k, rs[0], s1) && Ticks(cfg, s1, m, s2) && Rounds(cfg, s2, m, k, rs[1..], t);
      var _ := UnfitRun(cfg, s, m, rs[0], k);
      var _ := UnfitStep(cfg, s1, m, Tick(m), k);
      UnfitRounds(cfg, s2, m, k, rs[1..], t);
    }
  }

  /** Two answered snapshots and rest bring the slot to its target, from wherever a cooperative run has led. */
  ghost predicate Converges(cfg: Config, m: Market, k: nat) {
    forall s, rs, s', r, t | Sound(s) && |rs| >= 2 && Rounds(cfg, s, m, k, rs, s') && Settles(cfg, s', m, k, r, t) ::
      k < |t.strat.slots| && AtTarget(cfg, t, m, k)
  }

  // ------------------------------ settling ------------------------------

  predicate Settled(s: Sys) {
    s.strat.out == [] && s.wire == [] && s.reports == [] && s.execs == []
  }

  /** With nothing on its way anywhere, every slot is at rest. */
  lemma SettledIsAtRest(s: Sys, k: nat)
    requires Sound(s) && Settled(s) && k < SLOTS
    ensures AtRest(s, k)
  {
    assert Awaits(s, k, s.strat.slots[k]);
    assert Pending(s) == [];
  }

  function Unsettled(s: Sys): nat {
    4 * |s.strat.out| + 3 * |s.wire| + 2 * |s.reports| + |s.execs|
  }

  lemma NextSettlingStep(cfg: Config, s: Sys, m: Market) returns (a: Action)
    requires Sound(s) && !Settled(s)
    ensures Enabled(cfg, s, a) && Quiet(s, m, a) && !a.Snapshot?
    ensures Unsettled(Do(cfg, s, a)) < Unsettled(s)
  {
    if s.execs != [] {
      a := OnReport;
      assert s.execs[0] in Pending(s) && Harmless(s, s.execs[0]);
    } else if s.reports != [] {
      a := Deliver(true);
    } else if s.wire != [] && s.wire[0].New? {
      a := Accept;
    } else if s.wire != [] {
      if NotOpen(s, s.wire[0].orig) {
        a := Ignore;
      } else {
        var o :| o in s.open && o.id == s.wire[0].orig;
        var j :| 0 <= j < |s.open| && s.open[j] == o;
        a := CancelOpen(j, true);
      }
    } else {
      a := Send(true);
    }
  }

  /** Settling is always possible, and it takes no snapshot. */
  lemma {:induction false} CanSettle(cfg: Config, s: Sys, m: Market) returns (acts: seq<Action>)
    requires Sound(s)
    ensures Admissible(cfg, s, acts) && QuietAlong(cfg, s, m, acts) && Settled(Exec(cfg, s, acts))
    ensures forall a | a in acts :: !a.Snapshot?
    decreases Unsettled(s)
  {
    if Settled(s) {
      acts := [];
    } else {
      var a := NextSettlingStep(cfg, s, m);
      StepSound(cfg, s, a);
      var rest := CanSettle(cfg, Do(cfg, s, a), m);
      acts := [a] + rest;
    }
  }

  lemma PushesAtMostTwo(cfg: Config, st: Strat, sym: nat, bid: real, ask: real, okBuy: bool, okSell: bool)
    requires |st.slots| == SLOTS && sym < MAX_SYMBOLS
    ensures |Decide(cfg, st, sym, bid, ask, okBuy, okSell).out| <= |st.out| + 2
  {
  }

  lemma CanRest(cfg: Config, s: Sys, m: Market, k: nat) returns (r: seq<Action>, t: Sys)
    requires Sound(s) && k < SLOTS
    ensures Settles(cfg, s, m, k, r, t) && Sound(t) && Settled(t)
  {
    r := CanSettle(cfg, s, m);
    t := Exec(cfg, s, r);
    QuietIsCooperative(cfg, s, m, r);
    RunSound(cfg, s, r);
    SettledIsAtRest(t, k);
  }

  lemma OneRound(cfg: Config, m: Market, k: nat, s: Sys) returns (r: seq<Action>, s1: Sys, s2: Sys)
    requires Sound(s) && m.sym < MAX_SYMBOLS && k < SLOTS
    ensures Settles(cfg, s, m, k, r, s1) && Ticks(cfg, s1, m, s2) && Sound(s2)
  {
    r, s1 := CanRest(cfg, s, m, k);
    PushesAtMostTwo(cfg, s1.strat, m.sym, m.bid, m.ask, true, true);
    s2 := Do(cfg, s1, Tick(m));
    StepSound(cfg, s1, Tick(m));
  }

  /** Rounds can always be carried out, so the bound above is about runs that exist. */
  lemma {:induction false} RoundsExist(cfg: Config, m: Market, k: nat, s: Sys, n: nat)
    returns (rs: seq<seq<Action>>, t: Sys)
    requires Sound(s) && m.sym < MAX_SYMBOLS && k < SLOTS
    ensures |rs| == n && Rounds(cfg, s, m, k, rs, t) && Sound(t)
    decreases n
  {
    if n == 0 {
      rs, t := [], s;
    } else {
      var r, s1, s2 := OneRound(cfg, m, k, s);
      var rest;
      rest, t := RoundsExist(cfg, m, k, s2, n - 1);
      rs := [r] + rest;
      assert rs[0] == r && rs[1..] == rest;
    }
  }

  /** Without a positive tick no price is near enough. */
  lemma NoTickNoTarget(cfg: Config, t: Sys, m: Market, k: nat)
    requires k < |t.strat.slots| && IsWide(cfg, m) && cfg.tick <= 0.0
    ensures !AtTarget(cfg, t, m, k)
  {
  }

  lemma FreshStart(k: nat) returns (s: Sys)
    requires k < SLOTS
    ensures Sound(s) && s.strat.slots[k].state == NoQuote
  {
    s := Initial(1);
    ReachableSound(Config(0.0, 0.0, 0.0, false), s, []);
  }

  /** From a fresh start a hopeless market leaves the slot off its target. */
  lemma HopelessMisses(cfg: Config, m: Market, k: nat)
    returns (s: Sys, rs: seq<seq<Action>>, s': Sys, r: seq<Action>, t: Sys)
    requires SlotOfMarket(m, k) && Hopeless(cfg, m)
    ensures Sound(s) && |rs| == 2 && Rounds(cfg, s, m, k, rs, s') && Settles(cfg, s', m, k, r, t)
    ensures !AtTarget(cfg, t, m, k)
  {
    s := FreshStart(k);
    rs, s' := RoundsExist(cfg, m, k, s, 2);
    r, t := CanRest(cfg, s', m, k);
    HopelessEnd(cfg, m, k, s, rs, s', r, t);
  }

  lemma HopelessEnd(cfg: Config, m: Market, k: nat, s: Sys, rs: seq<seq<Action>>, s': Sys, r: seq<Action>, t: Sys)
    requires SlotOfMarket(m, k) && Hopeless(cfg, m) && Sound(s) && s.strat.slots[k].state == NoQuote
    requires Rounds(cfg, s, m, k, rs, s') && Settles(cfg, s', m, k, r, t)
    ensures !AtTarget(cfg, t, m, k)
  {
    if cfg.tick <= 0.0 {
      NoTickNoTarget(cfg, t, m, k);
    } else {
      UnfitRounds(cfg, s, m, k, rs, s');
      UnfitStaysEmpty(cfg, s', m, r, k, t);
    }
  }

  lemma UnfitStaysEmpty(cfg: Config, s: Sys, m: Market, r: seq<Action>, k: nat, t: Sys)
    requires Sound(s) && SlotOfMarket(m, k) && IsWide(cfg, m) && !Fits(cfg, m.bid, m.ask)
    requires s.strat.slots[k].state == NoQuote && Settles(cfg, s, m, k, r, t)
    ensures !AtTarget(cfg, t, m, k)
  {
    var _ := UnfitRun(cfg, s, m, r, k);
  }

  /**
   The exact condition. A narrow market is always answered. A wide one is
   answered if and only if the tick is positive and the improved prices fit;
   otherwise an empty slot stays empty, or no price is near enough.
   */
  lemma AnsweredIffFits(cfg: Config, m: Market, k: nat)
    requires SlotOfMarket(m, k) && !cfg.dryRun
    ensures Converges(cfg, m, k) <==>
      (m.ask - m.bid >= cfg.minSpread ==> cfg.tick > 0.0 && m.ask - m.bid - 2.0 * cfg.tick >= cfg.tick / 2.0)
  {
    if Hopeless(cfg, m) {
      var s, rs, s', r, t := HopelessMisses(cfg, m, k);
    } else {
      forall s, rs, s', r, t | Sound(s) && |rs| >= 2 && Rounds(cfg, s, m, k, rs, s') && Settles(cfg, s', m, k, r, t)
        ensures k < |t.strat.slots| && AtTarget(cfg, t, m, k)
      {
        AnsweredWithinTwoSnapshots(cfg, m, k, s, rs, s', r, t);
      }
    }
  }

  lemma {:induction false} QuietIsCooperative(cfg: Config, s: Sys, m: Market, acts: seq<Action>)
    requires Admissible(cfg, s, acts) && QuietAlong(cfg, s, m, acts)
    ensures CooperativeAlong(cfg, s, acts)
    decreases |acts|
  {
    if acts != [] {
      QuietIsCooperative(cfg, Do(cfg, s, acts[0]), m, acts[1..]);
    }
  }
}
