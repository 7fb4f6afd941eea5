/**
 The venue rule behind "never double-quotes" is exact. FixApp calls a trade a
 partial fill only when OrdStatus says PARTIALLY_FILLED. A trade that leaves
 quantity open under any other status frees the slot of a working order, and
 the next wide snapshot quotes the slot a second time.
 */
module StatusRule {
  import opened Events
  import opened OrderManager
  import opened MarketMaker
  import opened QuoteSystem

  lemma {:induction false} ExecConcat(cfg: Config, s: Sys, a: seq<Action>, b: seq<Action>)
    requires Admissible(cfg, s, a) && Admissible(cfg, Exec(cfg, s, a), b)
    ensures Admissible(cfg, s, a + b) && Exec(cfg, s, a + b) == Exec(cfg, Exec(cfg, s, a), b)
    ensures RuleAlong(cfg, s, a) && RuleAlong(cfg, Exec(cfg, s, a), b) ==> RuleAlong(cfg, s, a + b)
    decreases |a|
  {
    if a == [] {
      assert a + b == b;
    } else {
      assert (a + b)[0] == a[0] && (a + b)[1..] == a[1..] + b;
      ExecConcat(cfg, Do(cfg, s, a[0]), a[1..], b);
    }
  }

  /** Slot `k` holds `id`, the order is open, and the last pending report will free the slot. */
  ghost predicate AboutToFree(s: Sys, k: nat, id: nat) {
    && Tags(s) && k < SLOTS && s.strat.slots[k].id == id >= s.first
    && id in OpenIds(s.open, k)
    && (forall e | e in Pending(s) :: e.sym < MAX_SYMBOLS)
    && EndsWithTerminal(Pending(s), k, id)
  }

  ghost predicate EndsWithTerminal(p: seq<ExecEvent>, k: nat, id: nat) {
    && p != [] && p[|p| - 1].id == id && p[|p| - 1].sym == k / 2 && p[|p| - 1].kind.Terminal()
    && forall i | 0 <= i < |p| - 1 :: p[i].id == id ==> !p[i].kind.Terminal()
  }

  ghost predicate Freed(s: Sys, k: nat, id: nat) {
    && Tags(s) && k < SLOTS && s.strat.slots[k].state == NoQuote && id in OpenIds(s.open, k)
  }

  lemma ReportKeepsTags(cfg: Config, s: Sys, k: nat, id: nat)
    requires Tags(s) && k < SLOTS && s.strat.slots[k].id == id >= s.first
    requires Enabled(cfg, s, OnReport)
    ensures var s', e := Do(cfg, s, OnReport), s.execs[0];
      && Tags(s')
      && (e.id != id || !e.kind.Terminal() ==> s'.strat.slots[k].id == id)
      && (e.id == id && e.sym == k / 2 && e.kind.Terminal() ==> s'.strat.slots[k].state == NoQuote)
  {
    var s', e := Do(cfg, s, OnReport), s.execs[0];
    forall l | 0 <= l < SLOTS
      ensures s'.strat.slots[l].id == s.strat.slots[l].id || s'.strat.slots[l].id == 0
    {
      OnExecAt(s.strat.slots, e, l);
    }
    TagsStay(s, s');
    OnExecAt(s.strat.slots, e, k);
  }

  lemma PopStep(cfg: Config, s: Sys, k: nat, id: nat)
    requires AboutToFree(s, k, id) && s.execs != []
    ensures Enabled(cfg, s, OnReport)
    ensures var s' := Do(cfg, s, OnReport); if |Pending(s)| == 1 then Freed(s', k, id) else AboutToFree(s', k, id)
  {
    var p := Pending(s);
    assert p[0] in p;
    ReportKeepsTags(cfg, s, k, id);
    var s' := Do(cfg, s, OnReport);
    assert Pending(s') == p[1..];
    if |p| > 1 {
      assert EndsWithTerminal(p[1..], k, id);
      assert forall f :: f in p[1..] ==> f in p;
    }
  }

  /** Handling everything that is pending frees the slot while its order is still open. */
  lemma {:induction false} DrainFrees(cfg: Config, s: Sys, k: nat, id: nat) returns (acts: seq<Action>)
    requires AboutToFree(s, k, id)
    ensures Admissible(cfg, s, acts) && RuleAlong(cfg, s, acts)
    ensures Freed(Exec(cfg, s, acts), k, id)
    decreases 2 * |s.reports| + |s.execs|
  {
    if s.execs != [] {
      PopStep(cfg, s, k, id);
      var s' := Do(cfg, s, OnReport);
      var rest := [];
      if |Pending(s)| > 1 {
        rest := DrainFrees(cfg, s', k, id);
      }
      acts := [OnReport] + rest;
    } else {
      var s' := Do(cfg, s, Deliver(true));
      assert Pending(s') == Pending(s);
      var rest := DrainFrees(cfg, s', k, id);
      acts := [Deliver(true)] + rest;
    }
  }

  lemma {:induction false} EmptyRing(cfg: Config, s: Sys, k: nat, id: nat) returns (acts: seq<Action>)
    requires Freed(s, k, id)
    ensures Admissible(cfg, s, acts) && RuleAlong(cfg, s, acts)
    ensures Freed(Exec(cfg, s, acts), k, id) && Exec(cfg, s, acts).strat.out == []
    decreases |s.strat.out|
  {
    if s.strat.out == [] {
      acts := [];
    } else {
      var rest := EmptyRing(cfg, Do(cfg, s, Send(true)), k, id);
      acts := [Send(true)] + rest;
    }
  }

  /** A wide market with room for one side only. */
  lemma QuoteOneSide(cfg: Config, st: Strat, k: nat) returns (a: Action, st': Strat)
    requires |st.slots| == SLOTS && k < SLOTS && st.slots[k].state == NoQuote && st.out == [] && !cfg.dryRun
    ensures a.Snapshot? && a.sym < MAX_SYMBOLS
    ensures st' == Decide(cfg, st, a.sym, a.bid, a.ask, a.okBuy, a.okSell)
    ensures |st'.out| == 1 && st'.out[0].New? && st'.out[0].slot == k
  {
    var ask := Abs(cfg.minSpread) + 3.0 * Abs(cfg.tick);
    a := Snapshot(k / 2, 0.0, ask, k % 2 == 0, k % 2 == 1);
    assert Wide(cfg, 0.0, ask) && Fits(cfg, 0.0, ask);
    DecideQuotes(cfg, st, k / 2, 0.0, ask, cfg.tick, ask - cfg.tick, a.okBuy, a.okSell);
    var st1 := Requote(cfg, st, SlotOf(k / 2, Buy), cfg.tick, a.okBuy);
    st' := Requote(cfg, st1, SlotOf(k / 2, Sell), ask - cfg.tick, a.okSell);
  }

  lemma QuoteAgain(cfg: Config, s: Sys, k: nat, id: nat) returns (a: Action)
    requires Freed(s, k, id) && s.strat.out == [] && !cfg.dryRun
    ensures a.Snapshot? && Enabled(cfg, s, a)
    ensures |Working(Do(cfg, s, a), k)| >= 2
  {
    var st';
    a, st' := QuoteOneSide(cfg, s.strat, k);
    assert NewIds(st'.out, k) == [st'.out[0].id];
  }

  lemma BrokenRuleQuotesTwice(cfg: Config, s: Sys, a: Action) returns (acts: seq<Action>, k: nat)
    requires Inv(s) && Enabled(cfg, s, a) && !StatusRule(s, a) && !cfg.dryRun
    ensures var s' := Do(cfg, s, a);
      k < SLOTS && Admissible(cfg, s', acts) && RuleAlong(cfg, s', acts) && |Working(Exec(cfg, s', acts), k)| >= 2
  {
    var o, s1 := s.open[a.j], Do(cfg, s, a);
    k := o.slot;
    TradeIsAboutToFree(cfg, s, a);
    var d := DrainFrees(cfg, s1, k, o.id);
    var s2 := Exec(cfg, s1, d);
    var e := EmptyRing(cfg, s2, k, o.id);
    var s3 := Exec(cfg, s2, e);
    var q := QuoteAgain(cfg, s3, k, o.id);
    ThenOne(cfg, s3, q);
    ExecConcat(cfg, s2, e, [q]);
    ExecConcat(cfg, s1, d, e + [q]);
    acts := d + (e + [q]);
  }

  lemma ThenOne(cfg: Config, s: Sys, a: Action)
    requires Enabled(cfg, s, a) && !a.Trade?
    ensures Admissible(cfg, s, [a]) && RuleAlong(cfg, s, [a]) && Exec(cfg, s, [a]) == Do(cfg, s, a)
  {
  }

  lemma AliveIsNotReportedDead(s: Sys, k: nat, id: nat)
    requires Inv(s) && k < SLOTS && id in Working(s, k)
    ensures forall e | e in Pending(s) :: e.sym < MAX_SYMBOLS && (e.id == id ==> !e.kind.Terminal())
  {
    forall e | e in Pending(s) ensures e.sym < MAX_SYMBOLS && (e.id == id ==> !e.kind.Terminal()) {
      assert Harmless(s, e);
    }
  }

  /** What a trade that breaks the rule does: the order stays open, its report decodes as a complete fill. */
  lemma TradeBreaksRule(cfg: Config, s: Sys, a: Action) returns (s': Sys, o: Order, e: ExecEvent)
    requires Enabled(cfg, s, a) && !StatusRule(s, a)
    ensures a.Trade? && a.j < |s.open| && s' == Do(cfg, s, a) && o == s.open[a.j]
    ensures s'.open == s.open[a.j := o.(cum := o.cum + a.qty)] && s'.strat == s.strat && s'.first == s.first
    ensures Pending(s') == Pending(s) + [e] && e.id == o.id && e.sym == o.slot / 2 && e.kind.Terminal()
  {
    s', o := Do(cfg, s, a), s.open[a.j];
    e := Decode(TradeReport(o, a));
    PendingGrows(s, s');
  }

  /** An open order is the one its slot names, and no report of its end is pending. */
  lemma OpenIsNotReportedDead(s: Sys, j: nat)
    requires Inv(s) && j < |s.open|
    ensures var o := s.open[j];
      && o.slot < SLOTS && s.strat.slots[o.slot].id == o.id >= s.first && s.strat.slots[o.slot].state != NoQuote
      && o.id in OpenIds(s.open, o.slot) && Working(s, o.slot) == [o.id]
      && forall e | e in Pending(s) :: e.sym < MAX_SYMBOLS && (e.id == o.id ==> !e.kind.Terminal())
  {
    var o := s.open[j];
    assert o in s.open;
    OpenIdsAt(s.open, j, o.slot);
    AliveOnce(s, o.slot, o.id);
    AliveIsNotReportedDead(s, o.slot, o.id);
  }

  lemma EarlyFillIsAboutToFree(s: Sys, s': Sys, j: nat, o': Order, e: ExecEvent)
    requires Tags(s) && j < |s.open| && o'.id == s.open[j].id && o'.slot == s.open[j].slot < SLOTS
    requires s.strat.slots[o'.slot].id == o'.id >= s.first && o'.id in OpenIds(s.open, o'.slot)
    requires forall f | f in Pending(s) :: f.sym < MAX_SYMBOLS && (f.id == o'.id ==> !f.kind.Terminal())
    requires s'.open == s.open[j := o'] && s'.strat == s.strat && s'.first == s.first
    requires Pending(s') == Pending(s) + [e] && e.id == o'.id && e.sym == o'.slot / 2 && e.kind.Terminal()
    ensures AboutToFree(s', o'.slot, o'.id)
  {
    SameOpenIds(s.open, j, o', o'.slot);
    EndsAfter(Pending(s), e, o'.slot, o'.id);
  }

  lemma TradeIsAboutToFree(cfg: Config, s: Sys, a: Action)
    requires Inv(s) && Enabled(cfg, s, a) && !StatusRule(s, a)
    ensures a.Trade? && AboutToFree(Do(cfg, s, a), s.open[a.j].slot, s.open[a.j].id)
  {
    var s', o, e := TradeBreaksRule(cfg, s, a);
    OpenIsNotReportedDead(s, a.j);
    EarlyFillIsAboutToFree(s, s', a.j, s'.open[a.j], e);
  }

  lemma EndsAfter(p: seq<ExecEvent>, e: ExecEvent, k: nat, id: nat)
    requires k < SLOTS && e.id == id && e.sym == k / 2 && e.kind.Terminal()
    requires forall f | f in p :: f.sym < MAX_SYMBOLS && (f.id == id ==> !f.kind.Terminal())
    ensures EndsWithTerminal(p + [e], k, id) && forall f | f in p + [e] :: f.sym < MAX_SYMBOLS
  {
    forall i | 0 <= i < |p| ensures (p + [e])[i].id == id ==> !(p + [e])[i].kind.Terminal() {
      assert p[i] in p;
    }
  }

  /** A step of the venue is safe for all futures exactly when it obeys the status rule. */
  lemma SafeIffStatusRule(cfg: Config, s: Sys, a: Action)
    requires Inv(s) && Enabled(cfg, s, a) && !cfg.dryRun
    ensures StatusRule(s, a) <==>
      forall acts: seq<Action>, k: nat
        | k < SLOTS && Admissible(cfg, Do(cfg, s, a), acts) && RuleAlong(cfg, Do(cfg, s, a), acts) ::
        |Working(Exec(cfg, Do(cfg, s, a), acts), k)| <= 1
  {
    var s' := Do(cfg, s, a);
    if StatusRule(s, a) {
      StepKeepsInv(cfg, s, a);
      forall acts: seq<Action>, k: nat | k < SLOTS && Admissible(cfg, s', acts) && RuleAlong(cfg, s', acts)
        ensures |Working(Exec(cfg, s', acts), k)| <= 1
      {
        RunKeepsInv(cfg, s', acts);
        assert AtMostOne(Exec(cfg, s', acts), k);
      }
    } else {
      var acts, k := BrokenRuleQuotesTwice(cfg, s, a);
    }
  }
}
