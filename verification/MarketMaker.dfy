/**
 The strategy half of the quote protocol: what one two-sided snapshot makes the
 engine do to its quote slots and to the outgoing order ring. A push may be
 refused (`ok == false`), as the ring may be full or look full.
 */
module MarketMaker {
  import opened Events
  import opened OrderManager
  import SpscRing

  datatype Config = Config(tick: real, minSpread: real, orderQty: real, dryRun: bool)

  datatype Strat = Strat(slots: seq<Quote>, seed: nat, out: seq<OrderCmd>)

  function Abs(x: real): real {
    if x < 0.0 then -x else x
  }

  /** Within half a tick of the wanted price: no need to move. */
  predicate Near(cfg: Config, price: real, target: real) {
    Abs(price - target) < cfg.tick * 0.5
  }

  function CancelSide(cfg: Config, st: Strat, k: nat, ok: bool): (st': Strat)
    requires k < |st.slots|
    ensures |st'.slots| == |st.slots|
  {
    var q := st.slots[k];
    if q.state != Live then st
    else if !cfg.dryRun && ok then
      Strat(st.slots[k := q.(state := PendingCancel)], st.seed + 1, st.out + [Cancel(k, st.seed, q.id, q.qty)])
    else st.(seed := st.seed + 1)
  }

  function Requote(cfg: Config, st: Strat, k: nat, px: real, ok: bool): (st': Strat)
    requires k < |st.slots|
    ensures |st'.slots| == |st.slots|
  {
    var q := st.slots[k];
    if q.state == PendingNew || q.state == PendingCancel then st
    else if q.state == Live then
      if Near(cfg, q.price, px) then st else CancelSide(cfg, st, k, ok)
    else if !cfg.dryRun && ok then
      Strat(st.slots[k := Quote(PendingNew, st.seed, px, cfg.orderQty)], st.seed + 1,
            st.out + [New(k, st.seed, px, cfg.orderQty)])
    else st.(seed := st.seed + 1)
  }

  predicate Wide(cfg: Config, bid: real, ask: real) {
    ask - bid >= cfg.minSpread
  }

  predicate Fits(cfg: Config, bid: real, ask: real) {
    (ask - cfg.tick) - (bid + cfg.tick) >= cfg.tick * 0.5
  }

  function Decide(cfg: Config, st: Strat, sym: nat, bid: real, ask: real, okBuy: bool, okSell: bool): (st': Strat)
    requires |st.slots| == SLOTS && sym < MAX_SYMBOLS
    ensures |st'.slots| == SLOTS
  {
    var b, s := SlotOf(sym, Buy), SlotOf(sym, Sell);
    if Wide(cfg, bid, ask) then
      if !Fits(cfg, bid, ask) then st
      else Requote(cfg, Requote(cfg, st, b, bid + cfg.tick, okBuy), s, ask - cfg.tick, okSell)
    else CancelSide(cfg, CancelSide(cfg, st, b, okBuy), s, okSell)
  }

  /** The strategy object: quote slots, the ClOrdID seed and the producer end of the order ring. */
  class Strategy {
    const cfg: Config
    const q: array<Quote>
    const ring: SpscRing.Ring<OrderCmd>
    var seed: nat

    ghost predicate Valid()
      reads this, q, ring, ring.buf
    {
      q.Length == SLOTS && ring.Valid()
    }

    ghost function View(): Strat
      reads this, q, ring, ring.buf
      requires Valid()
    {
      Strat(q[..], seed, ring.Queue())
    }

    constructor (cfg: Config, q: array<Quote>, ring: SpscRing.Ring<OrderCmd>, seed: nat)
      requires q.Length == SLOTS && ring.Valid()
      ensures this.cfg == cfg && this.q == q && this.ring == ring
      ensures Valid() && View() == Strat(q[..], seed, ring.Queue())
    {
      this.cfg := cfg;
      this.q := q;
      this.ring := ring;
      this.seed := seed;
    }

    method CancelSlot(k: nat) returns (ok: bool)
      requires Valid() && k < SLOTS
      modifies this`seed, q, ring, ring.buf
      ensures Valid() && View() == CancelSide(cfg, old(View()), k, ok)
    {
      ok := false;
      var o := q[k];
      if o.state != Live {
        return;
      }
      var c := Cancel(k, seed, o.id, o.qty);
      seed := seed + 1;
      if !cfg.dryRun {
        var pushed, seen := ring.TryPush(c);
        ok := pushed;
        if ok {
          q[k] := o.(state := PendingCancel);
        }
      }
    }

    method RequoteSlot(k: nat, px: real) returns (ok: bool)
      requires Valid() && k < SLOTS
      modifies this`seed, q, ring, ring.buf
      ensures Valid() && View() == Requote(cfg, old(View()), k, px, ok)
    {
      ok := false;
      var o := q[k];
      if o.state == PendingNew || o.state == PendingCancel {
        return;
      }
      if o.state == Live {
        if Near(cfg, o.price, px) {
          return;
        }
        ok := CancelSlot(k);
        return;
      }
      var c := New(k, seed, px, cfg.orderQty);
      seed := seed + 1;
      if !cfg.dryRun {
        var pushed, seen := ring.TryPush(c);
        ok := pushed;
        if ok {
          q[k] := Quote(PendingNew, c.id, px, c.qty);
        }
      }
    }

    method QuoteBoth(sym: nat, b: real, a: real) returns (okBuy: bool, okSell: bool)
      requires Valid() && sym < MAX_SYMBOLS
      modifies this`seed, q, ring, ring.buf
      ensures Valid()
      ensures View()
        == Requote(cfg, Requote(cfg, old(View()), SlotOf(sym, Buy), b, okBuy), SlotOf(sym, Sell), a, okSell)
    {
      okBuy := RequoteSlot(SlotOf(sym, Buy), b);
      okSell := RequoteSlot(SlotOf(sym, Sell), a);
    }

    method CancelBoth(sym: nat) returns (okBuy: bool, okSell: bool)
      requires Valid() && sym < MAX_SYMBOLS
      modifies this`seed, q, ring, ring.buf
      ensures Valid()
      ensures View()
        == CancelSide(cfg, CancelSide(cfg, old(View()), SlotOf(sym, Buy), okBuy), SlotOf(sym, Sell), okSell)
    {
      okBuy := CancelSlot(SlotOf(sym, Buy));
      okSell := CancelSlot(SlotOf(sym, Sell));
    }

    method DecideOn(sym: nat, bid: real, ask: real) returns (okBuy: bool, okSell: bool)
      requires Valid() && sym < MAX_SYMBOLS
      modifies this`seed, q, ring, ring.buf
      ensures Valid() && View() == Decide(cfg, old(View()), sym, bid, ask, okBuy, okSell)
    {
      okBuy, okSell := false, false;
      ghost var was := View();
      if ask - bid >= cfg.minSpread {
        var b, a := bid + cfg.tick, ask - cfg.tick;
        if a - b < cfg.tick * 0.5 {
          DecideSkips(cfg, was, sym, bid, ask, okBuy, okSell);
          return;
        }
        okBuy, okSell := QuoteBoth(sym, b, a);
        DecideQuotes(cfg, was, sym, bid, ask, b, a, okBuy, okSell);
      } else {
        okBuy, okSell := CancelBoth(sym);
        DecideCancels(cfg, was, sym, bid, ask, okBuy, okSell);
      }
    }
  }

  lemma DecideSkips(cfg: Config, st: Strat, sym: nat, bid: real, ask: real, okBuy: bool, okSell: bool)
    requires |st.slots| == SLOTS && sym < MAX_SYMBOLS && Wide(cfg, bid, ask) && !Fits(cfg, bid, ask)
    ensures Decide(cfg, st, sym, bid, ask, okBuy, okSell) == st
  {
  }

  /** What every requote and every cancel of a side keeps, a decision keeps. */
  lemma DecidePreserves(cfg: Config, st: Strat, sym: nat, bid: real, ask: real, okBuy: bool, okSell: bool,
                        P: Strat -> bool)
    requires |st.slots| == SLOTS && sym < MAX_SYMBOLS && P(st)
    requires forall t: Strat, k: nat, px: real, ok: bool | P(t) && k < SLOTS == |t.slots| ::
      P(Requote(cfg, t, k, px, ok))
    requires forall t: Strat, k: nat, ok: bool | P(t) && k < SLOTS == |t.slots| :: P(CancelSide(cfg, t, k, ok))
    ensures P(Decide(cfg, st, sym, bid, ask, okBuy, okSell))
  {
  }

  lemma DecideQuotes(cfg: Config, st: Strat, sym: nat, bid: real, ask: real, b: real, a: real, okBuy: bool,
                     okSell: bool)
    requires |st.slots| == SLOTS && sym < MAX_SYMBOLS && Wide(cfg, bid, ask) && Fits(cfg, bid, ask)
    requires b == bid + cfg.tick && a == ask - cfg.tick
    ensures Decide(cfg, st, sym, bid, ask, okBuy, okSell)
      == Requote(cfg, Requote(cfg, st, SlotOf(sym, Buy), b, okBuy), SlotOf(sym, Sell), a, okSell)
  {
  }

  lemma DecideCancels(cfg: Config, st: Strat, sym: nat, bid: real, ask: real, okBuy: bool, okSell: bool)
    requires |st.slots| == SLOTS && sym < MAX_SYMBOLS && !Wide(cfg, bid, ask)
    ensures Decide(cfg, st, sym, bid, ask, okBuy, okSell)
      == CancelSide(cfg, CancelSide(cfg, st, SlotOf(sym, Buy), okBuy), SlotOf(sym, Sell), okSell)
  {
  }

  // --------------------------- one decision's quotes ---------------------------

  /** Command `i` is a new order for `slot`. */
  predicate Places(st: Strat, i: nat, slot: nat) {
    i < |st.out| && st.out[i].New? && st.out[i].slot == slot
  }

  /** A bid and an offer placed by one decision leave at least half a tick between them. */
  lemma OneDecisionDoesNotCross(cfg: Config, st: Strat, sym: nat, bid: real, ask: real, okBuy: bool, okSell: bool,
                                i: nat, j: nat)
    requires |st.slots| == SLOTS && sym < MAX_SYMBOLS && cfg.tick > 0.0
    requires var st' := Decide(cfg, st, sym, bid, ask, okBuy, okSell);
      |st.out| <= i && |st.out| <= j && Places(st', i, SlotOf(sym, Buy)) && Places(st', j, SlotOf(sym, Sell))
    ensures var st' := Decide(cfg, st, sym, bid, ask, okBuy, okSell);
      st'.out[j].price - st'.out[i].price >= cfg.tick * 0.5 && bid < st'.out[i].price && st'.out[j].price < ask
  {
    if Wide(cfg, bid, ask) && Fits(cfg, bid, ask) {
      var b, a := bid + cfg.tick, ask - cfg.tick;
      DecideQuotes(cfg, st, sym, bid, ask, b, a, okBuy, okSell);
      OneAtMost(cfg, st, SlotOf(sym, Buy), b, okBuy);
      OneAtMost(cfg, Requote(cfg, st, SlotOf(sym, Buy), b, okBuy), SlotOf(sym, Sell), a, okSell);
    }
  }

  lemma OneAtMost(cfg: Config, st: Strat, k: nat, px: real, ok: bool)
    requires k < |st.slots|
    ensures var st' := Requote(cfg, st, k, px, ok);
      && st.out <= st'.out && |st'.out| <= |st.out| + 1
      && (forall i | |st.out| <= i < |st'.out| :: st'.out[i].slot == k && (st'.out[i].New? ==> st'.out[i].price == px))
  {
  }
}
