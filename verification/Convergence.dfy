/**
 No quote waits in vain, and a fixed market is answered within two snapshots.
 The venue is cooperative: nothing is lost, cancels are acknowledged under the
 order's own id, OrdStatus tells complete from partial fills, and no
 acknowledgement is repeated to the harm of a quote.
 */
module Convergence {
  import opened Common
  import opened Events
  import opened OrderManager
  import opened MarketMaker
  import opened QuoteSystem
  import opened CancelDiscipline
  import QuoteFills

  predicate NotOpen(s: Sys, id: nat) {
    forall o | o in s.open :: o.id != id
  }

  ghost predicate Cooperative(s: Sys, a: Action) {
    match a
    case Send(loggedOn) => loggedOn
    case Deliver(ok) => ok
    case Ignore => s.wire != [] && s.wire[0].Cancel? && NotOpen(s, s.wire[0].orig)
    case CancelUnknown => s.wire != [] && s.wire[0].Cancel? && NotOpen(s, s.wire[0].orig)
    case CancelOpen(_, ownId) => ownId
    case Trade(j, qty, _, status) =>
      j < |s.open| && (s.open[j].cum + qty < s.open[j].qty <==> status == Some('1'))
    case Stray(r) => Decode(r).id != 0
    case Repeat(r) => Decode(r).id != 0 && RepeatFits(s, a)
    case _ => true
  }

  ghost predicate CooperativeAlong(cfg: Config, s: Sys, acts: seq<Action>)
    requires Admissible(cfg, s, acts)
    decreases |acts|
  {
    acts == [] || (Cooperative(s, acts[0]) && CooperativeAlong(cfg, Do(cfg, s, acts[0]), acts[1..]))
  }

  // --------------------------- nobody waits in vain ---------------------------

  ghost predicate EndPending(p: seq<ExecEvent>, id: nat) {
    exists e :: e in p && e.id == id && e.kind.Terminal()
  }

  ghost predicate AckPending(p: seq<ExecEvent>, id: nat) {
    exists e :: e in p && e.id == id && e.kind.KNew?
  }

  ghost predicate CancelQueued(s: Sys, id: nat) {
    exists c :: (c in s.wire || c in s.strat.out) && c.Cancel? && c.orig == id
  }

  predicate NewQueued(s: Sys, k: nat, id: nat) {
    id in NewIds(s.wire, k) || id in NewIds(s.strat.out, k)
  }

  predicate IsOpen(s: Sys, k: nat, id: nat) {
    id in OpenIds(s.open, k)
  }

  /** What a slot in this state is waiting for is still on its way. */
  ghost predicate Awaits(s: Sys, k: nat, q: Quote) {
    q.state != NoQuote ==>
      && q.id >= s.first
      && (EndPending(Pending(s), q.id) ||
          match q.state
          case NoQuote => true
          case PendingNew => NewQueued(s, k, q.id) || (IsOpen(s, k, q.id) && AckPending(Pending(s), q.id))
          case Live => IsOpen(s, k, q.id)
          case PendingCancel => IsOpen(s, k, q.id) && CancelQueued(s, q.id))
  }

  ghost predicate Answered(s: Sys) {
    && (forall k | 0 <= k < |s.strat.slots| :: Awaits(s, k, s.strat.slots[k]))
    && (forall k | 0 <= k < |s.strat.slots| :: s.strat.slots[k].state == NoQuote ==> s.strat.slots[k].id == 0)
    && (forall c | c in s.wire :: c in s.left)
    && (forall e | e in Pending(s) :: e.id != 0)
  }

  lemma EndStays(p: seq<ExecEvent>, p': seq<ExecEvent>, id: nat)
    requires forall e | e in p :: e in p'
    ensures EndPending(p, id) ==> EndPending(p', id)
    ensures AckPending(p, id) ==> AckPending(p', id)
  {
  }

  /** Nothing a slot may wait for disappears, except in exchange for what comes next. */
  lemma AwaitsKept(s: Sys, s': Sys, k: nat, q: Quote)
    requires Awaits(s, k, q) && s'.first == s.first
    requires EndPending(Pending(s'), q.id) || (
      && (forall e | e in Pending(s) :: e in Pending(s'))
      && (NewQueued(s, k, q.id) ==> NewQueued(s', k, q.id) || (IsOpen(s', k, q.id) && AckPending(Pending(s'), q.id)))
      && (IsOpen(s, k, q.id) ==> IsOpen(s', k, q.id))
      && (IsOpen(s, k, q.id) && CancelQueued(s, q.id) ==> CancelQueued(s', q.id)))
    ensures Awaits(s', k, q)
  {
    if !EndPending(Pending(s'), q.id) {
      EndStays(Pending(s), Pending(s'), q.id);
    }
  }

  lemma NewIdsAfterPop(cmds: seq<OrderCmd>, k: nat, id: nat)
    requires cmds != []
    ensures id in NewIds(cmds, k)
      <==> (cmds[0].New? && cmds[0].slot == k && cmds[0].id == id) || id in NewIds(cmds[1..], k)
  {
  }

  lemma SendAnswered(cfg: Config, s: Sys) returns (s': Sys)
    requires Answered(s) && Enabled(cfg, s, Send(true))
    ensures s' == Do(cfg, s, Send(true)) && Answered(s')
  {
    s' := Do(cfg, s, Send(true));
    var c := s.strat.out[0];
    assert Pending(s') == Pending(s);
    assert c in s'.left && forall d :: d in s.left ==> d in s'.left;
    assert s.strat.out == [c] + s.strat.out[1..];
    forall k | 0 <= k < |s'.strat.slots| ensures Awaits(s', k, s'.strat.slots[k]) {
      NewIdsConcat(s.wire, [c], k);
      NewIdsConcat([c], s.strat.out[1..], k);
      assert forall d :: d in s.wire || d in s.strat.out ==> d in s'.wire || d in s'.strat.out;
      AwaitsKept(s, s', k, s.strat.slots[k]);
    }
  }

  lemma AcceptAnswered(cfg: Config, s: Sys) returns (s': Sys)
    requires Answered(s) && Enabled(cfg, s, Accept) && s.wire[0].id != 0
    ensures s' == Do(cfg, s, Accept) && Answered(s')
  {
    s' := Do(cfg, s, Accept);
    var c := s.wire[0];
    var o, e := s'.open[|s.open|], Decode(s'.reports[|s.reports|]);
    PendingGrows(s, s');
    assert Pending(s') == Pending(s) + [e];
    assert e in Pending(s') && e.id == c.id && e.kind.KNew?;
    assert s.wire == [c] + s.wire[1..];
    forall k | 0 <= k < |s'.strat.slots| ensures Awaits(s', k, s'.strat.slots[k]) {
      var q := s.strat.slots[k];
      NewIdsAfterPop(s.wire, k, q.id);
      OpenIdsConcat(s.open, [o], k);
      assert OpenIds([o], k) == if o.slot == k then [o.id] else [];
      assert forall d :: d in s.wire && d.Cancel? ==> d in s'.wire;
      AwaitsKept(s, s', k, q);
    }
  }

  /** The exchange ends an order and says so, or drops a request about an order that has ended. */
  lemma EndAnswered(s: Sys, s': Sys, ended: nat, news: seq<ExecEvent>)
    requires Answered(s) && s'.first == s.first && s'.strat == s.strat && s'.left == s.left
    requires Pending(s') == Pending(s) + news && forall e | e in news :: e.id != 0
    requires EndPending(news, ended) || NotOpen(s, ended)
    requires s'.wire == s.wire || (s.wire != [] && s'.wire == s.wire[1..] &&
             (s.wire[0].Cancel? ==> s.wire[0].orig == ended) &&
             (s.wire[0].New? ==> s.wire[0].id == ended && EndPending(news, ended)))
    requires forall k, id :: id != ended && IsOpen(s, k, id) ==> IsOpen(s', k, id)
    ensures Answered(s')
  {
    forall k | 0 <= k < |s'.strat.slots| ensures Awaits(s', k, s'.strat.slots[k]) {
      var q := s.strat.slots[k];
      if q.id == ended && EndPending(news, ended) {
        var e :| e in news && e.id == ended && e.kind.Terminal();
        assert e in Pending(s');
      } else {
        if s'.wire != s.wire {
          NewIdsAfterPop(s.wire, k, q.id);
          assert forall d :: d in s.wire && d.Cancel? && d.orig != ended ==> d in s'.wire;
        }
        if q.id == ended && IsOpen(s, k, q.id) {
          OpenIdsHasOrder(s.open, k, q.id);
        }
        AwaitsKept(s, s', k, q);
      }
    }
  }

  lemma {:induction false} OpenIdsHasOrder(open: seq<Order>, k: nat, id: nat)
    requires id in OpenIds(open, k)
    ensures exists o :: o in open && o.slot == k && o.id == id
  {
    if open[0].slot == k && open[0].id == id {
      assert open[0] in open;
    } else {
      OpenIdsHasOrder(open[1..], k, id);
      var o :| o in open[1..] && o.slot == k && o.id == id;
      assert o in open;
    }
  }

  lemma OpenIdsAfterClose(open: seq<Order>, j: nat, k: nat, id: nat)
    requires j < |open| && id != open[j].id && id in OpenIds(open, k)
    ensures id in OpenIds(Without(open, j), k)
  {
    OpenIdsAt(open, j, k);
  }

  /** Steps that only add to what is pending. */
  lemma GrowAnswered(s: Sys, s': Sys)
    requires Answered(s) && s'.first == s.first && s'.strat == s.strat && s'.left == s.left && s'.wire == s.wire
    requires forall e | e in Pending(s) :: e in Pending(s')
    requires forall e | e in Pending(s') :: e.id != 0
    requires forall k :: OpenIds(s'.open, k) == OpenIds(s.open, k)
    ensures Answered(s')
  {
    forall k | 0 <= k < |s'.strat.slots| ensures Awaits(s', k, s'.strat.slots[k]) {
      AwaitsKept(s, s', k, s.strat.slots[k]);
    }
  }

  lemma {:induction false} NewIdsHasCmd(cmds: seq<OrderCmd>, k: nat, id: nat)
    requires id in NewIds(cmds, k)
    ensures exists c :: c in cmds && c.New? && c.slot == k && c.id == id
  {
    if cmds[0].New? && cmds[0].slot == k && cmds[0].id == id {
      assert cmds[0] in cmds;
    } else {
      NewIdsHasCmd(cmds[1..], k, id);
      var c :| c in cmds[1..] && c.New? && c.slot == k && c.id == id;
      assert c in cmds;
    }
  }

  lemma QueuedIsUnacked(s: Sys, k: nat, id: nat)
    requires NewsUnacked(s, s.wire) && NewsUnacked(s, s.strat.out) && NewQueued(s, k, id)
    ensures !AckPending(Pending(s), id)
  {
    var cmds := if id in NewIds(s.wire, k) then s.wire else s.strat.out;
    NewIdsHasCmd(cmds, k, id);
  }

  /** One report is handled; `q` is a slot before and `q'` the same slot after it. */
  lemma SlotAnswered(s: Sys, s': Sys, e: ExecEvent, k: nat, q: Quote, q': Quote)
    requires Awaits(s, k, q) && (q.state == NoQuote ==> q.id != e.id) && s'.first == s.first
    requires Pending(s) == [e] + Pending(s')
    requires s'.open == s.open && s'.wire == s.wire && s'.strat.out == s.strat.out
    requires q' == if q.id == e.id then Moved(q, e) else q
    requires NewsUnacked(s, s.wire) && NewsUnacked(s, s.strat.out)
    requires q.id == e.id && e.kind.KNew? ==> q.state == PendingNew
    ensures Awaits(s', k, q')
  {
    assert e in Pending(s);
    assert forall f :: f in Pending(s) ==> f == e || f in Pending(s');
    if q.state != NoQuote && q'.state != NoQuote {
      assert EndPending(Pending(s), q.id) ==> EndPending(Pending(s'), q.id);
      assert CancelQueued(s, q.id) ==> CancelQueued(s', q.id);
      if q.id == e.id && e.kind.KNew? {
        assert AckPending(Pending(s), q.id);
        if NewQueued(s, k, q.id) {
          QueuedIsUnacked(s, k, q.id);
        }
      } else {
        assert AckPending(Pending(s), q.id) ==> AckPending(Pending(s'), q.id);
      }
    }
  }

  lemma SlotAfterReport(s: Sys, e: ExecEvent, k: nat)
    requires Tags(s) && Answered(s) && k < SLOTS && Harmless(s, e) && e.id != 0
    ensures var q := s.strat.slots[k]; OnExec(s.strat.slots, e)[k] == if q.id == e.id then Moved(q, e) else q
  {
    var i := OnExecTouchesOne(s.strat.slots, e);
    if s.strat.slots[k].id == e.id {
      if e.id >= s.first {
        QuoteFills.ReportFindsSlot(s, e, k);
      }
    }
  }

  lemma SlotReported(s: Sys, s': Sys, k: nat)
    requires Tags(s) && Disciplined(s) && Answered(s) && s.execs != [] && k < SLOTS
    requires Harmless(s, s.execs[0]) && s.execs[0].id != 0
    requires s'.strat == s.strat.(slots := OnExec(s.strat.slots, s.execs[0]))
    requires s'.first == s.first && s'.open == s.open && s'.wire == s.wire && Pending(s) == [s.execs[0]] + Pending(s')
    ensures Awaits(s', k, s'.strat.slots[k])
    ensures s'.strat.slots[k].state == NoQuote ==> s'.strat.slots[k].id == 0
  {
    var e := s.execs[0];
    SlotAfterReport(s, e, k);
    if e.kind.KNew? && s.strat.slots[k].id == e.id {
      HeadAckAwaited(s, k);
    }
    SlotAnswered(s, s', e, k, s.strat.slots[k], s'.strat.slots[k]);
  }

  lemma ReportAnswered(cfg: Config, s: Sys) returns (s': Sys)
    requires Inv(s) && Disciplined(s) && Answered(s) && Enabled(cfg, s, OnReport)
    ensures s' == Do(cfg, s, OnReport) && Answered(s')
  {
    s' := Do(cfg, s, OnReport);
    assert Pending(s) == [s.execs[0]] + Pending(s');
    assert s.execs[0] in Pending(s);
    forall k | 0 <= k < SLOTS
      ensures Awaits(s', k, s'.strat.slots[k])
      ensures s'.strat.slots[k].state == NoQuote ==> s'.strat.slots[k].id == 0
    {
      SlotReported(s, s', k);
    }
  }

  lemma PlaceAnswered(s: Sys, k: nat, px: real, qty: real) returns (s': Sys)
    requires Inv(s) && Answered(s) && k < SLOTS && s.strat.slots[k].state == NoQuote
    ensures s' == s.(strat := Strat(s.strat.slots[k := Quote(PendingNew, s.strat.seed, px, qty)], s.strat.seed + 1,
                                    s.strat.out + [New(k, s.strat.seed, px, qty)]))
    ensures Answered(s')
  {
    var id, c := s.strat.seed, New(k, s.strat.seed, px, qty);
    s' := s.(strat := Strat(s.strat.slots[k := Quote(PendingNew, id, px, qty)], id + 1, s.strat.out + [c]));
    assert Pending(s') == Pending(s);
    forall l | 0 <= l < SLOTS ensures Awaits(s', l, s'.strat.slots[l]) {
      NewIdsConcat(s.strat.out, [c], l);
      assert NewIds([c], l) == if l == k then [id] else [];
      if l != k {
        assert forall d :: d in s.strat.out ==> d in s'.strat.out;
        AwaitsKept(s, s', l, s.strat.slots[l]);
      }
    }
  }

  lemma PullAnswered(s: Sys, k: nat) returns (s': Sys)
    requires Inv(s) && Answered(s) && k < SLOTS && s.strat.slots[k].state == Live
    ensures var q := s.strat.slots[k];
      s' == s.(strat := Strat(s.strat.slots[k := q.(state := PendingCancel)], s.strat.seed + 1,
                              s.strat.out + [Cancel(k, s.strat.seed, q.id, q.qty)]))
    ensures Answered(s')
  {
    var q := s.strat.slots[k];
    var c := Cancel(k, s.strat.seed, q.id, q.qty);
    s' := s.(strat := Strat(s.strat.slots[k := q.(state := PendingCancel)], s.strat.seed + 1, s.strat.out + [c]));
    assert Pending(s') == Pending(s);
    assert c in s'.strat.out && CancelQueued(s', q.id);
    assert forall d :: d in s.strat.out ==> d in s'.strat.out;
    forall l | 0 <= l < SLOTS ensures Awaits(s', l, s'.strat.slots[l]) {
      NewIdsConcat(s.strat.out, [c], l);
      assert NewIds([c], l) == [];
      AwaitsKept(s, s', l, s.strat.slots[l]);
    }
  }

  lemma SeedAnswered(s: Sys)
    requires Answered(s)
    ensures Answered(s.(strat := s.strat.(seed := s.strat.seed + 1)))
  {
    var s' := s.(strat := s.strat.(seed := s.strat.seed + 1));
    assert Pending(s') == Pending(s);
    forall l | 0 <= l < |s.strat.slots| ensures Awaits(s', l, s'.strat.slots[l]) {
      AwaitsKept(s, s', l, s.strat.slots[l]);
    }
  }

  lemma CancelSideAnswered(cfg: Config, s: Sys, k: nat, ok: bool) returns (s': Sys)
    requires Inv(s) && Answered(s) && k < SLOTS
    ensures s' == s.(strat := CancelSide(cfg, s.strat, k, ok)) && Answered(s')
  {
    if s.strat.slots[k].state != Live {
      s' := s;
    } else if !cfg.dryRun && ok {
      s' := PullAnswered(s, k);
    } else {
      SeedAnswered(s);
      s' := s.(strat := s.strat.(seed := s.strat.seed + 1));
    }
  }

  lemma RequoteAnswered(cfg: Config, s: Sys, k: nat, px: real, ok: bool) returns (s': Sys)
    requires Inv(s) && Answered(s) && k < SLOTS
    ensures s' == s.(strat := Requote(cfg, s.strat, k, px, ok)) && Answered(s')
  {
    var q := s.strat.slots[k];
    if q.state == NoQuote && !cfg.dryRun && ok {
      s' := PlaceAnswered(s, k, px, cfg.orderQty);
    } else if q.state == NoQuote {
      SeedAnswered(s);
      s' := s.(strat := s.strat.(seed := s.strat.seed + 1));
    } else if q.state == Live && !Near(cfg, q.price, px) {
      s' := CancelSideAnswered(cfg, s, k, ok);
    } else {
      s' := s;
    }
  }

  lemma DecideAnswered(cfg: Config, s: Sys, sym: nat, bid: real, ask: real, okBuy: bool, okSell: bool)
    requires Inv(s) && Answered(s) && sym < MAX_SYMBOLS
    ensures Answered(s.(strat := Decide(cfg, s.strat, sym, bid, ask, okBuy, okSell)))
  {
    var P := t => Inv(s.(strat := t)) && Answered(s.(strat := t));
    forall t: Strat, k: nat, px: real, ok: bool | P(t) && k < SLOTS == |t.slots| ensures P(Requote(cfg, t, k, px, ok)) {
      RequoteKeepsInv(cfg, s.(strat := t), k, px, ok);
      var _ := RequoteAnswered(cfg, s.(strat := t), k, px, ok);
    }
    forall t: Strat, k: nat, ok: bool | P(t) && k < SLOTS == |t.slots| ensures P(CancelSide(cfg, t, k, ok)) {
      CancelSideKeepsInv(cfg, s.(strat := t), k, ok);
      var _ := CancelSideAnswered(cfg, s.(strat := t), k, ok);
    }
    DecidePreserves(cfg, s.strat, sym, bid, ask, okBuy, okSell, P);
  }

  // ------------------------------ every step ------------------------------

  lemma ClosingAnswered(cfg: Config, s: Sys, a: Action) returns (s': Sys)
    requires Inv(s) && Answered(s) && Enabled(cfg, s, a) && Cooperative(s, a)
    requires a.CancelOpen? || a.Expire? || (a.Trade? && s.open[a.j].cum + a.qty == s.open[a.j].qty)
    ensures s' == Do(cfg, s, a) && Answered(s')
  {
    s' := Do(cfg, s, a);
    var o, e := s.open[a.j], Decode(s'.reports[|s.reports|]);
    PendingGrows(s, s');
    assert o in s.open;
    QuoteFills.OpenIdsMember(s.open, o);
    AliveIdsAreOurs(s, o.slot, o.id);
    assert e in [e] && EndPending([e], o.id);
    forall k, id | id != o.id && IsOpen(s, k, id) ensures IsOpen(s', k, id) {
      OpenIdsAfterClose(s.open, a.j, k, id);
    }
    EndAnswered(s, s', o.id, [e]);
  }

  lemma HeadIdNonzero(s: Sys)
    requires Inv(s) && s.wire != []
    ensures s.wire[0].id != 0
  {
    var c := s.wire[0];
    assert c in s.wire;
    if c.New? {
      QuoteFills.NewIdsMember(s.wire, c);
      assert c.id in Working(s, c.slot);
      AliveIdsAreOurs(s, c.slot, c.id);
    }
  }

  lemma DroppingAnswered(cfg: Config, s: Sys, a: Action) returns (s': Sys)
    requires Inv(s) && Answered(s) && Enabled(cfg, s, a) && Cooperative(s, a)
    requires a.Refuse? || a.Ignore? || a.CancelUnknown?
    ensures s' == Do(cfg, s, a) && Answered(s')
  {
    s' := Do(cfg, s, a);
    var c := s.wire[0];
    HeadIdNonzero(s);
    PendingGrows(s, s');
    var news := if a.Ignore? then [] else [Decode(s'.reports[|s.reports|])];
    assert a.Refuse? ==> news[0] in news && EndPending(news, c.id);
    EndAnswered(s, s', if c.New? then c.id else c.orig, news);
  }

  lemma GrowingAnswered(cfg: Config, s: Sys, a: Action) returns (s': Sys)
    requires Inv(s) && Answered(s) && Enabled(cfg, s, a) && Cooperative(s, a)
    requires a.Stray? || a.Repeat? || a.Deliver? || (a.Trade? && s.open[a.j].cum + a.qty < s.open[a.j].qty)
    ensures s' == Do(cfg, s, a) && Answered(s')
  {
    s' := Do(cfg, s, a);
    if a.Deliver? {
      PendingAfterDeliver(cfg, s, a);
    } else {
      PendingGrows(s, s');
    }
    if a.Trade? {
      var o := s.open[a.j];
      assert o in s.open;
      QuoteFills.OpenIdsMember(s.open, o);
      AliveIdsAreOurs(s, o.slot, o.id);
      forall k ensures OpenIds(s'.open, k) == OpenIds(s.open, k) {
        SameOpenIds(s.open, a.j, s'.open[a.j], k);
      }
    }
    GrowAnswered(s, s');
  }

  lemma StepAnswered(cfg: Config, s: Sys, a: Action)
    requires Inv(s) && Disciplined(s) && Answered(s) && Enabled(cfg, s, a) && Cooperative(s, a)
    ensures StatusRule(s, a) && RepeatFits(s, a) && Answered(Do(cfg, s, a))
  {
    match a {
      case Snapshot(sym, bid, ask, okBuy, okSell) =>
        DecideAnswered(cfg, s, sym, bid, ask, okBuy, okSell);
      case OnReport => var _ := ReportAnswered(cfg, s);
      case Send(_) => var _ := SendAnswered(cfg, s);
      case Accept =>
        HeadIdNonzero(s);
        var _ := AcceptAnswered(cfg, s);
      case CancelOpen(_, _) => var _ := ClosingAnswered(cfg, s, a);
      case Expire(_) => var _ := ClosingAnswered(cfg, s, a);
      case Trade(j, qty, _, _) =>
        if s.open[j].cum + qty == s.open[j].qty {
          var _ := ClosingAnswered(cfg, s, a);
        } else {
          var _ := GrowingAnswered(cfg, s, a);
        }
      case Stray(_) => var _ := GrowingAnswered(cfg, s, a);
      case Repeat(_) => var _ := GrowingAnswered(cfg, s, a);
      case Deliver(_) => var _ := GrowingAnswered(cfg, s, a);
      case _ => var _ := DroppingAnswered(cfg, s, a);
    }
  }

  /** Everything proved so far about a state of a cooperative run. */
  ghost predicate Sound(s: Sys) {
    Inv(s) && Disciplined(s) && Answered(s)
  }

  lemma StepSound(cfg: Config, s: Sys, a: Action)
    requires Sound(s) && Enabled(cfg, s, a) && Cooperative(s, a)
    ensures Sound(Do(cfg, s, a))
  {
    StepAnswered(cfg, s, a);
    StepKeepsInv(cfg, s, a);
    StepDisciplined(cfg, s, a);
  }

  lemma {:induction false} RunSound(cfg: Config, s: Sys, acts: seq<Action>)
    requires Sound(s) && Admissible(cfg, s, acts) && CooperativeAlong(cfg, s, acts)
    ensures Sound(Exec(cfg, s, acts))
    decreases |acts|
  {
    if acts != [] {
      StepSound(cfg, s, acts[0]);
      RunSound(cfg, Do(cfg, s, acts[0]), acts[1..]);
    }
  }

  lemma InitialSound(first: nat)
    requires first > 0
    ensures Sound(Initial(first))
  {
    InitialInv(first);
    assert Disciplined(Initial(first));
  }

  /** Every state of a cooperative run is sound. */
  lemma ReachableSound(cfg: Config, s0: Sys, acts: seq<Action>)
    requires s0.first > 0 && s0 == Initial(s0.first)
    requires Admissible(cfg, s0, acts) && CooperativeAlong(cfg, s0, acts)
    ensures Sound(Exec(cfg, s0, acts))
  {
    InitialSound(s0.first);
    RunSound(cfg, s0, acts);
  }
}
