/**
 The trading rule in the terms of a market maker: best prices, spread, tick and
 slots. Slot `2 * sym` is the bid of a symbol and `2 * sym + 1` its offer.
 */
module QuoteRules {
  import opened Events
  import opened OrderManager
  import opened MarketMaker

  /** With room in the ring: a Live quote is pulled exactly when it is at least half a tick from the price wanted. */
  lemma RequoteMovesIff(cfg: Config, st: Strat, k: nat, px: real)
    requires k < |st.slots| && st.slots[k].state == Live && !cfg.dryRun
    ensures var q, st' := st.slots[k], Requote(cfg, st, k, px, true);
      if px <= q.price - cfg.tick / 2.0 || px >= q.price + cfg.tick / 2.0
      then st' == Strat(st.slots[k := q.(state := PendingCancel)], st.seed + 1,
                        st.out + [Cancel(k, st.seed, q.id, q.qty)])
      else st' == st
  {
  }

  /** An empty slot is filled with an order at the price wanted, of the configured size, under a fresh id. */
  lemma RequotePlaces(cfg: Config, st: Strat, k: nat, px: real)
    requires k < |st.slots| && st.slots[k].state == NoQuote && !cfg.dryRun
    ensures Requote(cfg, st, k, px, true)
      == Strat(st.slots[k := Quote(PendingNew, st.seed, px, cfg.orderQty)], st.seed + 1,
               st.out + [New(k, st.seed, px, cfg.orderQty)])
  {
  }

  /** A slot that waits for the venue is left alone. */
  lemma RequoteWaits(cfg: Config, st: Strat, k: nat, px: real, ok: bool)
    requires k < |st.slots| && (st.slots[k].state == PendingNew || st.slots[k].state == PendingCancel)
    ensures Requote(cfg, st, k, px, ok) == st
  {
  }

  /** When no command can be pushed, or none may be, the one that would have been sent still uses up an id. */
  lemma RequoteRefused(cfg: Config, st: Strat, k: nat, px: real, ok: bool)
    requires k < |st.slots| && (cfg.dryRun || !ok)
    ensures var q := st.slots[k];
      Requote(cfg, st, k, px, ok)
        == if q.state == NoQuote ||
              (q.state == Live && (px <= q.price - cfg.tick / 2.0 || px >= q.price + cfg.tick / 2.0))
           then st.(seed := st.seed + 1) else st
  {
  }

  /** A cancel of the order that slot `k` holds is among the new commands. */
  ghost predicate PullsFrom(st: Strat, st': Strat, k: nat)
    requires k < |st.slots|
  {
    exists id :: st.seed <= id < st'.seed && Cancel(k, id, st.slots[k].id, st.slots[k].qty) in st'.out
  }

  /**
   What quoting at `px` makes of a slot: an empty one holds an order at that price,
   a Live one is pulled exactly if it is half a tick or more away, and everything
   else stays, in particular when there is no room for a command.
   */
  ghost predicate Quoted(cfg: Config, st: Strat, st': Strat, k: nat, px: real, ok: bool)
    requires k < |st.slots| == |st'.slots|
  {
    var q, q' := st.slots[k], st'.slots[k];
    if cfg.dryRun || !ok then q' == q
    else match q.state
      case NoQuote =>
        && q' == Quote(PendingNew, q'.id, px, cfg.orderQty) && st.seed <= q'.id < st'.seed
        && New(k, q'.id, px, cfg.orderQty) in st'.out
      case Live =>
        if px <= q.price - cfg.tick / 2.0 || px >= q.price + cfg.tick / 2.0
        then q' == q.(state := PendingCancel) && PullsFrom(st, st', k) else q' == q
      case _ => q' == q
  }

  /** Nothing but this slot changed, and commands were only added. */
  ghost predicate OnlySlot(st: Strat, st': Strat, k: nat)
    requires k < |st.slots|
  {
    && |st'.slots| == |st.slots| && st'.slots == st.slots[k := st'.slots[k]]
    && st.out <= st'.out && st.seed <= st'.seed
  }

  lemma SideRule(cfg: Config, st: Strat, k: nat, px: real, ok: bool)
    requires k < |st.slots|
    ensures var st' := Requote(cfg, st, k, px, ok); OnlySlot(st, st', k) && Quoted(cfg, st, st', k, px, ok)
  {
    var q, st' := st.slots[k], Requote(cfg, st, k, px, ok);
    if !cfg.dryRun && ok && q.state == Live {
      RequoteMovesIff(cfg, st, k, px);
      if st' != st {
        assert st'.out[|st.out|] == Cancel(k, st.seed, q.id, q.qty);
      }
    } else if !cfg.dryRun && ok && q.state == NoQuote {
      assert st'.out[|st.out|] == New(k, st.seed, px, cfg.orderQty);
    }
  }

  lemma BothQuoted(cfg: Config, st: Strat, mid: Strat, st': Strat, b: nat, bid: real, ask: real, okBuy: bool,
                   okSell: bool)
    requires b + 1 < |st.slots| && OnlySlot(st, mid, b) && OnlySlot(mid, st', b + 1)
    requires Quoted(cfg, st, mid, b, bid, okBuy) && Quoted(cfg, mid, st', b + 1, ask, okSell)
    ensures Quoted(cfg, st, st', b, bid, okBuy) && Quoted(cfg, st, st', b + 1, ask, okSell)
  {
  }

  /**
   A market at least as wide as the configured spread, whose prices one tick
   inside are still half a tick apart: both sides are quoted one tick inside.
   */
  lemma WideMarketIsQuoted(cfg: Config, st: Strat, sym: nat, bid: real, ask: real, okBuy: bool, okSell: bool)
    requires |st.slots| == SLOTS && sym < MAX_SYMBOLS
    requires ask - bid >= cfg.minSpread && ask - bid - 2.0 * cfg.tick >= cfg.tick * 0.5
    ensures var st' := Decide(cfg, st, sym, bid, ask, okBuy, okSell);
      && Quoted(cfg, st, st', 2 * sym, bid + cfg.tick, okBuy)
      && Quoted(cfg, st, st', 2 * sym + 1, ask - cfg.tick, okSell)
  {
    WideMarket(cfg, st, sym, bid, ask, okBuy, okSell);
  }

  /** Whatever follows from what every requote does follows for the two that a wide market causes. */
  lemma TwoSteps(cfg: Config, st: Strat, sym: nat, bid: real, ask: real, okBuy: bool, okSell: bool,
                 b: nat, o: nat, pb: real, pa: real, P: (Strat, Strat, nat, real, bool) -> bool, Q: Strat -> bool)
    requires |st.slots| == SLOTS && sym < MAX_SYMBOLS
    requires ask - bid >= cfg.minSpread && ask - bid - 2.0 * cfg.tick >= cfg.tick * 0.5
    requires b == 2 * sym && o == 2 * sym + 1 && pb == bid + cfg.tick && pa == ask - cfg.tick
    requires forall t: Strat, k: nat, px: real, ok: bool | k < |t.slots| :: P(t, Requote(cfg, t, k, px, ok), k, px, ok)
    requires forall mid, st' | P(st, mid, b, pb, okBuy) && P(mid, st', o, pa, okSell) :: Q(st')
    ensures Q(Decide(cfg, st, sym, bid, ask, okBuy, okSell))
  {
    var mid := Requote(cfg, st, b, pb, okBuy);
    var st' := Requote(cfg, mid, o, pa, okSell);
    assert P(st, mid, b, pb, okBuy) && P(mid, st', o, pa, okSell);
  }

  /** Both sides are quoted one tick inside, and the commands say so. */
  ghost predicate BothSides(cfg: Config, st: Strat, st': Strat, sym: nat, bid: real, ask: real, okBuy: bool,
                            okSell: bool)
    requires |st.slots| == SLOTS && sym < MAX_SYMBOLS
  {
    && |st'.slots| == SLOTS && AllExplained(st, st', sym)
    && Quoted(cfg, st, st', 2 * sym, bid + cfg.tick, okBuy)
    && Quoted(cfg, st, st', 2 * sym + 1, ask - cfg.tick, okSell)
  }

  lemma WideMarket(cfg: Config, st: Strat, sym: nat, bid: real, ask: real, okBuy: bool, okSell: bool)
    requires |st.slots| == SLOTS && sym < MAX_SYMBOLS
    requires ask - bid >= cfg.minSpread && ask - bid - 2.0 * cfg.tick >= cfg.tick * 0.5
    ensures BothSides(cfg, st, Decide(cfg, st, sym, bid, ask, okBuy, okSell), sym, bid, ask, okBuy, okSell)
  {
    forall t: Strat, k: nat, px: real, ok: bool | k < |t.slots|
      ensures Step(cfg, t, Requote(cfg, t, k, px, ok), k, px, ok)
    {
      SideStep(cfg, t, k, px, ok);
    }
    var b, o, pb, pa := 2 * sym, 2 * sym + 1, bid + cfg.tick, ask - cfg.tick;
    forall mid, st' | Step(cfg, st, mid, b, pb, okBuy) && Step(cfg, mid, st', o, pa, okSell)
      ensures BothSides(cfg, st, st', sym, bid, ask, okBuy, okSell)
    {
      StepsTogether(cfg, st, mid, st', sym, pb, pa, okBuy, okSell);
    }
    TwoSteps(cfg, st, sym, bid, ask, okBuy, okSell, b, o, pb, pa,
      (t: Strat, t': Strat, k: nat, px: real, ok: bool) => Step(cfg, t, t', k, px, ok),
      (t: Strat) => BothSides(cfg, st, t, sym, bid, ask, okBuy, okSell));
  }

  lemma StepsTogether(cfg: Config, st: Strat, mid: Strat, st': Strat, sym: nat, pb: real, pa: real, okBuy: bool,
                      okSell: bool)
    requires |st.slots| == SLOTS && sym < MAX_SYMBOLS
    requires Step(cfg, st, mid, 2 * sym, pb, okBuy) && Step(cfg, mid, st', 2 * sym + 1, pa, okSell)
    ensures |st'.slots| == SLOTS && AllExplained(st, st', sym)
    ensures Quoted(cfg, st, st', 2 * sym, pb, okBuy) && Quoted(cfg, st, st', 2 * sym + 1, pa, okSell)
  {
    BothQuoted(cfg, st, mid, st', 2 * sym, pb, pa, okBuy, okSell);
    BothExplained(st, mid, st', sym);
  }

  /** All there is to say about requoting one side. */
  ghost predicate Step(cfg: Config, st: Strat, st': Strat, k: nat, px: real, ok: bool) {
    k < |st.slots| && OnlySlot(st, st', k) && Quoted(cfg, st, st', k, px, ok) && OneCommand(st, st', k)
  }

  lemma SideStep(cfg: Config, st: Strat, k: nat, px: real, ok: bool)
    requires k < |st.slots|
    ensures Step(cfg, st, Requote(cfg, st, k, px, ok), k, px, ok)
  {
    SideRule(cfg, st, k, px, ok);
    RequoteCommand(cfg, st, k, px, ok);
  }

  /** A market narrower than the configured spread: every Live quote of the symbol is pulled, and none is placed. */
  lemma NarrowMarketIsLeft(cfg: Config, st: Strat, sym: nat, bid: real, ask: real, okBuy: bool, okSell: bool, k: nat)
    requires |st.slots| == SLOTS && sym < MAX_SYMBOLS && (k == 2 * sym || k == 2 * sym + 1)
    requires ask - bid < cfg.minSpread
    ensures var q, st' := st.slots[k], Decide(cfg, st, sym, bid, ask, okBuy, okSell);
      if q.state == Live && !cfg.dryRun && (if k == 2 * sym then okBuy else okSell)
      then st'.slots[k] == q.(state := PendingCancel) && PullsFrom(st, st', k) else st'.slots[k] == q
  {
    DecideCancels(cfg, st, sym, bid, ask, okBuy, okSell);
    PullRule(cfg, st, 2 * sym, okBuy);
    PullRule(cfg, CancelSide(cfg, st, 2 * sym, okBuy), 2 * sym + 1, okSell);
  }

  /** Pulling one side: only a Live quote, which uses up an id whether or not the command could be pushed. */
  lemma PullRule(cfg: Config, st: Strat, k: nat, ok: bool)
    requires k < |st.slots|
    ensures var q, st' := st.slots[k], CancelSide(cfg, st, k, ok);
      && st.out <= st'.out && st'.slots == st.slots[k := st'.slots[k]]
      && st'.seed == st.seed + (if q.state == Live then 1 else 0)
      && if q.state == Live && !cfg.dryRun && ok
         then st'.slots[k] == q.(state := PendingCancel) && PullsFrom(st, st', k) else st'.slots == st.slots
  {
    var q, st' := st.slots[k], CancelSide(cfg, st, k, ok);
    if q.state == Live && !cfg.dryRun && ok {
      assert st'.out[|st.out|] == Cancel(k, st.seed, q.id, q.qty);
    }
  }

  /** A wide market without room for both prices one tick inside: nothing happens. */
  lemma TightMarketIsSkipped(cfg: Config, st: Strat, sym: nat, bid: real, ask: real, okBuy: bool, okSell: bool)
    requires |st.slots| == SLOTS && sym < MAX_SYMBOLS
    requires ask - bid >= cfg.minSpread && ask - bid - 2.0 * cfg.tick < cfg.tick * 0.5
    ensures Decide(cfg, st, sym, bid, ask, okBuy, okSell) == st
  {
  }

  /** Every command a decision sends says what happened to one slot of the symbol. */
  predicate Explained(st: Strat, st': Strat, sym: nat, c: OrderCmd) {
    && (c.slot == 2 * sym || c.slot == 2 * sym + 1) && c.slot < |st.slots| && c.slot < |st'.slots|
    && st.seed <= c.id < st'.seed
    && var q, q' := st.slots[c.slot], st'.slots[c.slot];
    match c
    case New(_, id, price, qty) => q.state == NoQuote && q' == Quote(PendingNew, id, price, qty)
    case Cancel(_, _, orig, qty) =>
      q.state == Live && q' == q.(state := PendingCancel) && orig == q.id && qty == q.qty
  }

  predicate AllExplained(st: Strat, st': Strat, sym: nat) {
    && |st'.slots| == |st.slots| && st.out <= st'.out && |st'.out| <= |st.out| + 2
    && (forall i | |st.out| <= i < |st'.out| :: Explained(st, st', sym, st'.out[i]))
    && (forall k | 0 <= k < |st.slots| && k / 2 != sym :: st'.slots[k] == st.slots[k])
  }

  /** A decision sends only such commands, at most two of them, and touches no other symbol. */
  lemma CommandsAreExplained(cfg: Config, st: Strat, sym: nat, bid: real, ask: real, okBuy: bool, okSell: bool)
    requires |st.slots| == SLOTS && sym < MAX_SYMBOLS
    ensures AllExplained(st, Decide(cfg, st, sym, bid, ask, okBuy, okSell), sym)
  {
    if ask - bid < cfg.minSpread {
      NarrowExplained(cfg, st, sym, bid, ask, okBuy, okSell);
    } else if ask - bid - 2.0 * cfg.tick >= cfg.tick * 0.5 {
      WideExplained(cfg, st, sym, bid, ask, okBuy, okSell);
    } else {
      TightMarketIsSkipped(cfg, st, sym, bid, ask, okBuy, okSell);
    }
  }

  lemma NarrowExplained(cfg: Config, st: Strat, sym: nat, bid: real, ask: real, okBuy: bool, okSell: bool)
    requires |st.slots| == SLOTS && sym < MAX_SYMBOLS && ask - bid < cfg.minSpread
    ensures AllExplained(st, Decide(cfg, st, sym, bid, ask, okBuy, okSell), sym)
  {
    DecideCancels(cfg, st, sym, bid, ask, okBuy, okSell);
    var mid := CancelSide(cfg, st, 2 * sym, okBuy);
    PullCommand(cfg, st, 2 * sym, okBuy);
    PullCommand(cfg, mid, 2 * sym + 1, okSell);
    BothExplained(st, mid, CancelSide(cfg, mid, 2 * sym + 1, okSell), sym);
  }

  lemma WideExplained(cfg: Config, st: Strat, sym: nat, bid: real, ask: real, okBuy: bool, okSell: bool)
    requires |st.slots| == SLOTS && sym < MAX_SYMBOLS
    requires ask - bid >= cfg.minSpread && ask - bid - 2.0 * cfg.tick >= cfg.tick * 0.5
    ensures AllExplained(st, Decide(cfg, st, sym, bid, ask, okBuy, okSell), sym)
  {
    WideMarket(cfg, st, sym, bid, ask, okBuy, okSell);
  }

  /** One side's share: at most one command, for this slot. */
  predicate OneCommand(st: Strat, st': Strat, k: nat)
    requires k < |st.slots|
  {
    && |st'.slots| == |st.slots| && st'.slots == st.slots[k := st'.slots[k]] && st.seed <= st'.seed
    && (st'.out == st.out ||
        (|st'.out| == |st.out| + 1 && st.out == st'.out[..|st.out|] && st'.out[|st.out|].slot == k
         && Explained(st, st', k / 2, st'.out[|st.out|])))
  }

  lemma RequoteCommand(cfg: Config, st: Strat, k: nat, px: real, ok: bool)
    requires k < |st.slots|
    ensures OneCommand(st, Requote(cfg, st, k, px, ok), k)
  {
  }

  lemma PullCommand(cfg: Config, st: Strat, k: nat, ok: bool)
    requires k < |st.slots|
    ensures OneCommand(st, CancelSide(cfg, st, k, ok), k)
  {
  }

  lemma BothExplained(st: Strat, mid: Strat, st': Strat, sym: nat)
    requires 2 * sym + 1 < |st.slots| == |mid.slots|
    requires OneCommand(st, mid, 2 * sym) && OneCommand(mid, st', 2 * sym + 1)
    ensures AllExplained(st, st', sym)
  {
  }
}
