/**
 The strategy thread between the book and the decision: a popped snapshot is
 applied to its book, and the engine decides only if the book has both sides.
 */
module BookDecisions {
  import opened Events
  import opened OrderManager
  import opened MarketMaker
  import opened QuoteRules
  import BookFeed

  /** A popped snapshot, and whether the order ring has room for a command of each side. */
  datatype Pop = Pop(event: BookFeed.MdEvent, okBuy: bool, okSell: bool)

  predicate WellFormed(p: Pop) {
    p.event.sym < MAX_SYMBOLS && |p.event.bids| == |p.event.asks| == BookFeed.DEPTH
  }

  /** `has_bba` of the book that the snapshot leaves. */
  predicate TwoSided(p: Pop, maxDepth: int) {
    var b := BookFeed.Projection(p.event, maxDepth);
    b.nBids > 0 && b.nAsks > 0
  }

  function BestBid(p: Pop): real
    requires WellFormed(p)
  {
    p.event.bids[0].px
  }

  function BestAsk(p: Pop): real
    requires WellFormed(p)
  {
    p.event.asks[0].px
  }

  function OnPop(cfg: Config, st: Strat, p: Pop, maxDepth: int): (st': Strat)
    requires |st.slots| == SLOTS && WellFormed(p)
    ensures |st'.slots| == SLOTS
  {
    if !TwoSided(p, maxDepth) then st
    else Decide(cfg, st, p.event.sym, BestBid(p), BestAsk(p), p.okBuy, p.okSell)
  }

  function AfterPops(cfg: Config, st: Strat, pops: seq<Pop>, maxDepth: int): (st': Strat)
    requires |st.slots| == SLOTS && forall p | p in pops :: WellFormed(p)
    ensures |st'.slots| == SLOTS
  {
    if pops == [] then st
    else OnPop(cfg, AfterPops(cfg, st, pops[..|pops| - 1], maxDepth), pops[|pops| - 1], maxDepth)
  }

  /** A snapshot for the slot's symbol, with room for a command of its side. */
  predicate Ours(sym: nat, k: nat, okBuy: bool, okSell: bool) {
    k / 2 == sym && if k % 2 == 0 then okBuy else okSell
  }

  /**
   This snapshot takes a Live quote of slot `k` off the market: it is for the
   slot's symbol, both sides of the book are shown, there is room for the command,
   and the spread is less than the configured one, or large enough for both prices
   one tick inside, of which the slot's is half a tick or more away.
   */
  predicate Withdraws(cfg: Config, p: Pop, maxDepth: int, k: nat, q: Quote)
    requires WellFormed(p)
  {
    var bid, ask := p.event.bids[0].px, p.event.asks[0].px;
    var px := if k % 2 == 0 then bid + cfg.tick else ask - cfg.tick;
    && Shown(p.event.nBids, maxDepth) && Shown(p.event.nAsks, maxDepth)
    && Ours(p.event.sym, k, p.okBuy, p.okSell)
    && (ask - bid < cfg.minSpread ||
        (ask - bid - 2.0 * cfg.tick >= cfg.tick / 2.0
         && (px <= q.price - cfg.tick / 2.0 || px >= q.price + cfg.tick / 2.0)))
  }

  /** The depth limit, as a 16-bit count, leaves something of a side with this many levels. */
  predicate Shown(count: nat, maxDepth: int) {
    if count <= maxDepth then count > 0 else maxDepth % 65536 > 0
  }

  lemma CancelEffect(cfg: Config, st: Strat, j: nat, ok: bool, k: nat)
    requires j < |st.slots| && k < |st.slots| && !cfg.dryRun
    ensures CancelSide(cfg, st, j, ok).slots[k]
      == if j == k && ok && st.slots[k].state == Live then st.slots[k].(state := PendingCancel) else st.slots[k]
  {
  }

  lemma RequoteEffect(cfg: Config, st: Strat, j: nat, px: real, ok: bool, k: nat)
    requires j < |st.slots| && k < |st.slots| && !cfg.dryRun
    requires st.slots[k].state == Live || st.slots[k].state == PendingCancel
    ensures Requote(cfg, st, j, px, ok).slots[k]
      == if j == k && ok && st.slots[k].state == Live && !Near(cfg, st.slots[k].price, px)
         then st.slots[k].(state := PendingCancel) else st.slots[k]
  {
  }

  lemma NarrowEffect(cfg: Config, st: Strat, sym: nat, bid: real, ask: real, okBuy: bool, okSell: bool, k: nat)
    requires |st.slots| == SLOTS && sym < MAX_SYMBOLS && k < SLOTS && !cfg.dryRun && st.slots[k].state == Live
    requires !Wide(cfg, bid, ask)
    ensures Decide(cfg, st, sym, bid, ask, okBuy, okSell).slots[k]
      == if Ours(sym, k, okBuy, okSell) then st.slots[k].(state := PendingCancel) else st.slots[k]
  {
    DecideCancels(cfg, st, sym, bid, ask, okBuy, okSell);
    var b, o := SlotOf(sym, Buy), SlotOf(sym, Sell);
    var st1 := CancelSide(cfg, st, b, okBuy);
    CancelEffect(cfg, st, b, okBuy, k);
    CancelEffect(cfg, st1, o, okSell, k);
  }

  lemma WideEffect(cfg: Config, st: Strat, sym: nat, bid: real, ask: real, okBuy: bool, okSell: bool, k: nat)
    requires |st.slots| == SLOTS && sym < MAX_SYMBOLS && k < SLOTS && !cfg.dryRun && st.slots[k].state == Live
    requires Wide(cfg, bid, ask) && Fits(cfg, bid, ask)
    ensures var px := if k % 2 == 0 then bid + cfg.tick else ask - cfg.tick;
      Decide(cfg, st, sym, bid, ask, okBuy, okSell).slots[k]
      == if Ours(sym, k, okBuy, okSell) && !Near(cfg, st.slots[k].price, px)
         then st.slots[k].(state := PendingCancel) else st.slots[k]
  {
    DecideQuotes(cfg, st, sym, bid, ask, bid + cfg.tick, ask - cfg.tick, okBuy, okSell);
    var b, o := SlotOf(sym, Buy), SlotOf(sym, Sell);
    var st1 := Requote(cfg, st, b, bid + cfg.tick, okBuy);
    RequoteEffect(cfg, st, b, bid + cfg.tick, okBuy, k);
    RequoteEffect(cfg, st1, o, ask - cfg.tick, okSell, k);
  }

  /** What one snapshot does to a Live quote. */
  lemma PopEffect(cfg: Config, st: Strat, p: Pop, maxDepth: int, k: nat)
    requires |st.slots| == SLOTS && k < SLOTS && WellFormed(p) && !cfg.dryRun && st.slots[k].state == Live
    ensures var q := st.slots[k];
      OnPop(cfg, st, p, maxDepth).slots[k]
        == if Withdraws(cfg, p, maxDepth, k, q) then q.(state := PendingCancel) else q
  {
    var sym, bid, ask := p.event.sym, BestBid(p), BestAsk(p);
    if TwoSided(p, maxDepth) && !Wide(cfg, bid, ask) {
      NarrowEffect(cfg, st, sym, bid, ask, p.okBuy, p.okSell, k);
    } else if TwoSided(p, maxDepth) && Fits(cfg, bid, ask) {
      WideEffect(cfg, st, sym, bid, ask, p.okBuy, p.okSell, k);
    } else if TwoSided(p, maxDepth) {
      DecideSkips(cfg, st, sym, bid, ask, p.okBuy, p.okSell);
    }
  }

  /** A slot that waits for a cancel is left alone. */
  lemma PendingStays(cfg: Config, st: Strat, p: Pop, maxDepth: int, k: nat)
    requires |st.slots| == SLOTS && k < SLOTS && WellFormed(p) && st.slots[k].state == PendingCancel
    ensures OnPop(cfg, st, p, maxDepth).slots[k] == st.slots[k]
  {
    DecidePreserves(cfg, st, p.event.sym, BestBid(p), BestAsk(p), p.okBuy, p.okSell,
                    (t: Strat) => |t.slots| == SLOTS && t.slots[k] == st.slots[k]);
  }

  /**
   A Live quote stands through any sequence of snapshots if and only if none of
   them withdraws it. In particular nothing withdraws it while one side of its
   book is empty, however long that lasts.
   */
  lemma {:induction false} QuoteStandsIff(cfg: Config, st: Strat, pops: seq<Pop>, maxDepth: int, k: nat)
    requires |st.slots| == SLOTS && k < SLOTS && st.slots[k].state == Live && !cfg.dryRun
    requires forall p | p in pops :: WellFormed(p)
    ensures var q := st.slots[k];
      AfterPops(cfg, st, pops, maxDepth).slots[k]
        == if forall p | p in pops :: !Withdraws(cfg, p, maxDepth, k, q) then q else q.(state := PendingCancel)
    decreases |pops|
  {
    if pops != [] {
      var n := |pops| - 1;
      QuoteStandsIff(cfg, st, pops[..n], maxDepth, k);
      var before := AfterPops(cfg, st, pops[..n], maxDepth);
      if before.slots[k].state == Live {
        PopEffect(cfg, before, pops[n], maxDepth, k);
      } else {
        PendingStays(cfg, before, pops[n], maxDepth, k);
      }
      assert pops == pops[..n] + [pops[n]];
    }
  }

  // ------------------------- from message to command -------------------------

  /** The first entry of this kind has this price. */
  predicate FirstPrice(entries: seq<BookFeed.Entry>, kind: char, i: nat, px: real) {
    && i < |entries| && entries[i].kind == kind && entries[i].px.Some? && entries[i].px.value == px
    && forall j | 0 <= j < i :: entries[j].kind != kind
  }

  lemma FirstIsBest(entries: seq<BookFeed.Entry>, kind: char, levels: seq<BookFeed.Level>, count: nat, i: nat, px: real)
    requires BookFeed.SideOf(entries, kind, levels, count) && FirstPrice(entries, kind, i, px)
    ensures count > 0 && levels[0].px == px
  {
    assert forall l | 0 <= l < i :: entries[l].kind != kind;
    assert (set l | 0 <= l < i && entries[l].kind == kind) == {};
    BookFeed.CountGrows(entries, kind, i, |entries|);
  }

  lemma BestPrices(symbols: seq<string>, m: BookFeed.SnapshotMessage, n: nat, ev: BookFeed.MdEvent, i: nat, bid: real,
                   j: nat, ask: real)
    requires BookFeed.Decoded(symbols, m, n, ev)
    requires FirstPrice(m.entries, '0', i, bid) && FirstPrice(m.entries, '1', j, ask)
    ensures ev.sym < |symbols| && symbols[ev.sym] == m.symbol && |ev.bids| == |ev.asks| == 5
    ensures ev.nBids > 0 && ev.bids[0].px == bid && ev.nAsks > 0 && ev.asks[0].px == ask
  {
    BookFeed.DecodedShows(symbols, m, n, ev);
    FirstIsBest(m.entries, '0', ev.bids, ev.nBids, i, bid);
    FirstIsBest(m.entries, '1', ev.asks, ev.nAsks, j, ask);
  }

  /** The prices that a decision on the message is about. */
  lemma MessageDecides(cfg: Config, st: Strat, symbols: seq<string>, m: BookFeed.SnapshotMessage, n: nat, p: Pop,
                       maxDepth: int, i: nat, bid: real, j: nat, ask: real)
    requires |st.slots| == SLOTS && WellFormed(p) && BookFeed.Decoded(symbols, m, n, p.event) && 1 <= maxDepth <= 5
    requires FirstPrice(m.entries, '0', i, bid) && FirstPrice(m.entries, '1', j, ask)
    ensures p.event.sym < |symbols| && symbols[p.event.sym] == m.symbol
    ensures OnPop(cfg, st, p, maxDepth) == Decide(cfg, st, p.event.sym, bid, ask, p.okBuy, p.okSell)
  {
    BestPrices(symbols, m, n, p.event, i, bid, j, ask);
  }

  /**
   A message whose first bid and first offer are far enough apart: when its event
   is popped, both sides of that symbol are quoted one tick inside those prices.
   */
  lemma WideMessageIsQuoted(cfg: Config, st: Strat, symbols: seq<string>, m: BookFeed.SnapshotMessage, n: nat, p: Pop,
                            maxDepth: int, i: nat, bid: real, j: nat, ask: real)
    requires |st.slots| == SLOTS && WellFormed(p) && BookFeed.Decoded(symbols, m, n, p.event) && 1 <= maxDepth <= 5
    requires FirstPrice(m.entries, '0', i, bid) && FirstPrice(m.entries, '1', j, ask)
    requires ask - bid >= cfg.minSpread && ask - bid - 2.0 * cfg.tick >= cfg.tick * 0.5
    ensures var sym, st' := p.event.sym, OnPop(cfg, st, p, maxDepth);
      && sym < |symbols| && symbols[sym] == m.symbol
      && Quoted(cfg, st, st', 2 * sym, bid + cfg.tick, p.okBuy)
      && Quoted(cfg, st, st', 2 * sym + 1, ask - cfg.tick, p.okSell)
  {
    MessageDecides(cfg, st, symbols, m, n, p, maxDepth, i, bid, j, ask);
    WideMarketIsQuoted(cfg, st, p.event.sym, bid, ask, p.okBuy, p.okSell);
  }

  /** When they are closer together than the configured spread, the Live quotes of that symbol are pulled. */
  lemma NarrowMessagePulls(cfg: Config, st: Strat, symbols: seq<string>, m: BookFeed.SnapshotMessage, n: nat, p: Pop,
                           maxDepth: int, i: nat, bid: real, j: nat, ask: real, k: nat)
    requires |st.slots| == SLOTS && WellFormed(p) && BookFeed.Decoded(symbols, m, n, p.event) && 1 <= maxDepth <= 5
    requires FirstPrice(m.entries, '0', i, bid) && FirstPrice(m.entries, '1', j, ask) && ask - bid < cfg.minSpread
    requires k == 2 * p.event.sym || k == 2 * p.event.sym + 1
    ensures var q, st' := st.slots[k], OnPop(cfg, st, p, maxDepth);
      if q.state == Live && !cfg.dryRun && (if k == 2 * p.event.sym then p.okBuy else p.okSell)
      then st'.slots[k] == q.(state := PendingCancel) && PullsFrom(st, st', k) else st'.slots[k] == q
  {
    MessageDecides(cfg, st, symbols, m, n, p, maxDepth, i, bid, j, ask);
    NarrowMarketIsLeft(cfg, st, p.event.sym, bid, ask, p.okBuy, p.okSell, k);
  }

  /** A message without bids or without offers changes nothing. */
  lemma OneSidedMessageIsIgnored(cfg: Config, st: Strat, symbols: seq<string>, m: BookFeed.SnapshotMessage, n: nat,
                                 p: Pop, maxDepth: int, kind: char)
    requires |st.slots| == SLOTS && WellFormed(p) && BookFeed.Decoded(symbols, m, n, p.event) && 1 <= maxDepth <= 5
    requires kind in {'0', '1'} && forall i | 0 <= i < |m.entries| :: m.entries[i].kind != kind
    ensures OnPop(cfg, st, p, maxDepth) == st
  {
    BookFeed.DecodedShows(symbols, m, n, p.event);
    assert (set i | 0 <= i < |m.entries| && m.entries[i].kind == kind) == {};
    assert BookFeed.CountOf(m.entries, kind, |m.entries|) == 0;
  }

  /** One turn of the market data loop, on the objects themselves. */
  method HandlePop(s: Strategy, book: BookFeed.OrderBook, e: BookFeed.MdEvent, maxDepth: int)
    returns (okBuy: bool, okSell: bool)
    requires s.Valid() && book.Valid() && WellFormed(Pop(e, false, false))
    modifies book, book.bids, book.asks, s`seed, s.q, s.ring, s.ring.buf
    ensures s.Valid() && s.View() == OnPop(s.cfg, old(s.View()), Pop(e, okBuy, okSell), maxDepth)
    ensures book.View() == BookFeed.Projection(e, maxDepth)
  {
    okBuy, okSell := false, false;
    book.ApplySnapshot(e, maxDepth);
    ghost var b := book.View();
    assert s.View() == old(s.View());
    if book.nBids > 0 && book.nAsks > 0 {
      okBuy, okSell := s.DecideOn(e.sym, book.bids[0].px, book.asks[0].px);
      assert book.View() == b;
    }
  }
}
