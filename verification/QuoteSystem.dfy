/**
 The whole quote protocol as a transition system: strategy, order ring, sender
 that drops commands while logged off, wire, nondeterministic exchange, report
 wire, exec ring that may refuse, order manager. `left`, `told`, `processed` and
 `fills` only record history.
 */
module QuoteSystem {
  import opened Common
  import opened Events
  import opened OrderManager
  import opened MarketMaker

  const RING_CAPACITY: nat := 4096

  datatype Order = Order(slot: nat, id: nat, price: real, qty: real, cum: real)

  datatype Sys = Sys(
    first: nat,                  // the ClOrdID seed of this run
    strat: Strat,                // slots, seed and the order ring
    left: seq<OrderCmd>,         // commands popped by the sender so far
    wire: seq<OrderCmd>,         // sent, not yet handled by the exchange
    open: seq<Order>,            // orders working at the exchange
    reports: seq<FixReport>,     // execution reports on their way back
    told: seq<FixReport>,        // execution reports sent so far, lost or not
    execs: seq<ExecEvent>,       // the exec ring
    processed: seq<ExecEvent>,   // events the strategy has handled so far
    fills: seq<ExecEvent>)       // fills reported by the exchange so far

  datatype Action =
    | Snapshot(sym: nat, bid: real, ask: real, okBuy: bool, okSell: bool)
    | OnReport
    | Send(loggedOn: bool)
    | Accept | Refuse | Ignore
    | CancelOpen(j: nat, ownId: bool) | CancelUnknown
    | Trade(j: nat, qty: real, px: real, status: Option<char>)
    | Expire(j: nat)
    | Stray(r: FixReport)        // about an earlier session, or without a ClOrdID
    | Repeat(r: FixReport)       // a report sent before
    | Deliver(ok: bool)

  function Initial(first: nat): Sys {
    Sys(first, Strat(seq(SLOTS, _ => EMPTY), first, []), [], [], [], [], [], [], [], [])
  }

  function Report(id: nat, execType: char, status: Option<char>, slot: nat, px: real, qty: real,
                  leaves: real): FixReport {
    FixReport(Some(id), Some(execType), status, Some(if slot % 2 == 0 then '1' else '2'), slot / 2, px, qty, leaves)
  }

  function TradeReport(o: Order, a: Action): FixReport
    requires a.Trade?
  {
    Report(o.id, 'F', a.status, o.slot, a.px, a.qty, o.qty - o.cum - a.qty)
  }

  function Without<T>(xs: seq<T>, j: nat): seq<T>
    requires j < |xs|
  {
    xs[..j] + xs[j + 1..]
  }

  predicate Enabled(cfg: Config, s: Sys, a: Action) {
    && |s.strat.slots| == SLOTS
    && match a
      case Snapshot(sym, bid, ask, okBuy, okSell) =>
        sym < MAX_SYMBOLS && |Decide(cfg, s.strat, sym, bid, ask, okBuy, okSell).out| <= RING_CAPACITY
      case OnReport => s.execs != [] && s.execs[0].sym < MAX_SYMBOLS
      case Send(_) => s.strat.out != []
      case Accept => s.wire != [] && s.wire[0].New?
      case Refuse => s.wire != [] && s.wire[0].New?
      case Ignore => s.wire != []
      case CancelOpen(j, _) =>
        s.wire != [] && s.wire[0].Cancel? && j < |s.open| && s.open[j].id == s.wire[0].orig
      case CancelUnknown => s.wire != [] && s.wire[0].Cancel?
      case Trade(j, qty, _, _) => j < |s.open| && 0.0 < qty <= s.open[j].qty - s.open[j].cum
      case Expire(j) => j < |s.open|
      case Stray(r) => Decode(r).id < s.first && r.sym < MAX_SYMBOLS
      case Repeat(r) => r in s.told
      case Deliver(ok) => s.reports != [] && (ok ==> |s.execs| < RING_CAPACITY)
  }

  /** The exchange sends a report. */
  function Tell(s: Sys, r: FixReport): Sys {
    s.(reports := s.reports + [r], told := s.told + [r])
  }

  /** A report about no order of this run, or one sent before; a fill in it counts as reported. */
  function TellAgain(s: Sys, r: FixReport): Sys {
    Tell(s, r).(fills := if Decode(r).kind.Fill() then s.fills + [Decode(r)] else s.fills)
  }

  function Do(cfg: Config, s: Sys, a: Action): Sys
    requires Enabled(cfg, s, a)
  {
    match a
    case Snapshot(sym, bid, ask, okBuy, okSell) =>
      s.(strat := Decide(cfg, s.strat, sym, bid, ask, okBuy, okSell))
    case OnReport =>
      s.(strat := s.strat.(slots := OnExec(s.strat.slots, s.execs[0])),
         execs := s.execs[1..], processed := s.processed + [s.execs[0]])
    case Send(loggedOn) =>
      var c := s.strat.out[0];
      s.(strat := s.strat.(out := s.strat.out[1..]), left := s.left + [c],
         wire := if loggedOn then s.wire + [c] else s.wire)
    case Accept =>
      var c := s.wire[0];
      Tell(s, Report(c.id, '0', Some('0'), c.slot, 0.0, 0.0, c.qty))
        .(wire := s.wire[1..], open := s.open + [Order(c.slot, c.id, c.price, c.qty, 0.0)])
    case Refuse =>
      var c := s.wire[0];
      Tell(s, Report(c.id, '8', Some('8'), c.slot, 0.0, 0.0, 0.0)).(wire := s.wire[1..])
    case Ignore => s.(wire := s.wire[1..])
    case CancelOpen(j, ownId) =>
      var c := s.wire[0];
      Tell(s, Report(if ownId then c.orig else c.id, '4', Some('4'), s.open[j].slot, 0.0, 0.0, 0.0))
        .(wire := s.wire[1..], open := Without(s.open, j))
    case CancelUnknown =>
      var c := s.wire[0];
      Tell(s, Report(c.id, '4', Some('4'), c.slot, 0.0, 0.0, 0.0)).(wire := s.wire[1..])
    case Trade(j, qty, px, status) =>
      var o := s.open[j];
      Tell(s, TradeReport(o, a))
        .(open := if o.cum + qty == o.qty then Without(s.open, j) else s.open[j := o.(cum := o.cum + qty)],
          fills := s.fills + [Decode(TradeReport(o, a))])
    case Expire(j) =>
      var o := s.open[j];
      Tell(s, Report(o.id, '4', Some('4'), o.slot, 0.0, 0.0, 0.0)).(open := Without(s.open, j))
    case Stray(r) => TellAgain(s, r)
    case Repeat(r) => TellAgain(s, r)
    case Deliver(ok) =>
      s.(reports := s.reports[1..], execs := if ok then s.execs + [Decode(s.reports[0])] else s.execs)
  }

  predicate Admissible(cfg: Config, s: Sys, acts: seq<Action>)
    decreases |acts|
  {
    acts == [] || (Enabled(cfg, s, acts[0]) && Admissible(cfg, Do(cfg, s, acts[0]), acts[1..]))
  }

  function Exec(cfg: Config, s: Sys, acts: seq<Action>): Sys
    requires Admissible(cfg, s, acts)
    decreases |acts|
  {
    if acts == [] then s else Exec(cfg, Do(cfg, s, acts[0]), acts[1..])
  }

  /**
   The venue rule the decoder relies on: a trade that leaves quantity open says
   so in OrdStatus. Without it the decoder calls the trade a complete fill.
   */
  predicate StatusRule(s: Sys, a: Action) {
    a.Trade? && a.j < |s.open| && s.open[a.j].cum + a.qty < s.open[a.j].qty ==> a.status == Some('1')
  }

  predicate RuleAlong(cfg: Config, s: Sys, acts: seq<Action>)
    requires Admissible(cfg, s, acts)
    decreases |acts|
  {
    acts == [] || (StatusRule(s, acts[0]) && RuleAlong(cfg, Do(cfg, s, acts[0]), acts[1..]))
  }

  // ------------------------- what is working where -------------------------

  /** Ids of the new-order commands for a slot, in queue order. */
  function NewIds(cmds: seq<OrderCmd>, k: nat): seq<nat> {
    if cmds == [] then []
    else (if cmds[0].New? && cmds[0].slot == k then [cmds[0].id] else []) + NewIds(cmds[1..], k)
  }

  /** Ids of the orders a slot has working at the exchange. */
  function OpenIds(open: seq<Order>, k: nat): seq<nat> {
    if open == [] then []
    else (if open[0].slot == k then [open[0].id] else []) + OpenIds(open[1..], k)
  }

  /** Every order of slot `k` that is open, in flight or queued. */
  function Working(s: Sys, k: nat): seq<nat> {
    OpenIds(s.open, k) + NewIds(s.wire, k) + NewIds(s.strat.out, k)
  }

  /** Reports not yet handled by the strategy, oldest first. */
  function Pending(s: Sys): (p: seq<ExecEvent>)
    ensures |p| == |s.execs| + |s.reports|
  {
    s.execs + seq(|s.reports|, i requires 0 <= i < |s.reports| => Decode(s.reports[i]))
  }

  lemma {:induction false} NewIdsConcat(a: seq<OrderCmd>, b: seq<OrderCmd>, k: nat)
    ensures NewIds(a + b, k) == NewIds(a, k) + NewIds(b, k)
  {
    if a == [] {
      assert a + b == b;
    } else {
      assert (a + b)[1..] == a[1..] + b;
      NewIdsConcat(a[1..], b, k);
    }
  }

  lemma {:induction false} OpenIdsConcat(a: seq<Order>, b: seq<Order>, k: nat)
    ensures OpenIds(a + b, k) == OpenIds(a, k) + OpenIds(b, k)
  {
    if a == [] {
      assert a + b == b;
    } else {
      OpenIdsConcat(a[1..], b, k);
      assert (a + b)[0] == a[0] && (a + b)[1..] == a[1..] + b;
      Regroup(if a[0].slot == k then [a[0].id] else [], OpenIds(a[1..], k), OpenIds(b, k));
    }
  }

  lemma OpenIdsAt(open: seq<Order>, j: nat, k: nat)
    requires j < |open|
    ensures OpenIds(open, k) == OpenIds(open[..j], k) + (if open[j].slot == k then [open[j].id] else [])
      + OpenIds(open[j + 1..], k)
    ensures OpenIds(Without(open, j), k) == OpenIds(open[..j], k) + OpenIds(open[j + 1..], k)
  {
    OpenIdsConcat(open[..j], open[j..], k);
    assert open == open[..j] + open[j..];
    OpenIdsConcat(open[..j], open[j + 1..], k);
  }

  // ------------------------------ invariant ------------------------------

  /** Slot ids come from this run's seed, and no two slots share one. */
  ghost predicate Tags(s: Sys) {
    && |s.strat.slots| == SLOTS && 0 < s.first <= s.strat.seed
    && (forall k | 0 <= k < SLOTS :: s.strat.slots[k].id == 0 || s.first <= s.strat.slots[k].id < s.strat.seed)
    && (forall k, l | 0 <= k < l < SLOTS :: s.strat.slots[k].id == s.strat.slots[l].id ==> s.strat.slots[k].id == 0)
  }

  /** At most one order of the slot is alive, and it is the one the slot names. */
  ghost predicate AtMostOne(s: Sys, k: nat)
    requires k < |s.strat.slots|
  {
    var q := s.strat.slots[k];
    Working(s, k) == [] || (Working(s, k) == [q.id] && q.id >= s.first && q.state != NoQuote)
  }

  ghost predicate CancelIdsApart(s: Sys, cmds: seq<OrderCmd>) {
    forall c | c in cmds && c.Cancel? ::
      s.first <= c.id < s.strat.seed && forall k | 0 <= k < |s.strat.slots| :: s.strat.slots[k].id != c.id
  }

  ghost predicate SlotsInRange(s: Sys) {
    && (forall c | c in s.wire :: c.slot < SLOTS)
    && (forall c | c in s.strat.out :: c.slot < SLOTS)
    && (forall o | o in s.open :: o.slot < SLOTS)
  }

  ghost predicate Dead(s: Sys, id: nat) {
    forall k | 0 <= k < SLOTS :: id !in Working(s, k)
  }

  /** A report that will free a slot is never about an order that is still alive, and finds its slot. */
  ghost predicate Harmless(s: Sys, e: ExecEvent) {
    && e.sym < MAX_SYMBOLS && e.id < s.strat.seed
    && (e.kind.Terminal() ==> Dead(s, e.id))
    && (e.id >= s.first ==> forall k | 0 <= k < |s.strat.slots| :: s.strat.slots[k].id == e.id ==> k / 2 == e.sym)
  }

  ghost predicate Inv(s: Sys) {
    && Tags(s)
    && SlotsInRange(s)
    && (forall k | 0 <= k < SLOTS :: AtMostOne(s, k))
    && CancelIdsApart(s, s.wire) && CancelIdsApart(s, s.strat.out)
    && (forall e | e in Pending(s) :: Harmless(s, e))
    && (forall r | r in s.told :: Harmless(s, Decode(r)))
    && (forall r | r in s.reports :: r in s.told)
  }

  /** What is harmless stays so while only ids from the seed on come into use. */
  lemma HarmlessStays(s: Sys, s': Sys)
    requires s'.first == s.first && s.strat.seed <= s'.strat.seed && |s'.strat.slots| == |s.strat.slots| == SLOTS
    requires forall k | 0 <= k < SLOTS :: var q, q' := s.strat.slots[k], s'.strat.slots[k];
      q'.id == q.id || q'.id == 0 || q'.id >= s.strat.seed
    requires forall k, id | 0 <= k < SLOTS && id in Working(s', k) :: id in Working(s, k) || id >= s.strat.seed
    requires 0 < s.first
    ensures forall e | Harmless(s, e) :: Harmless(s', e)
  {
  }

  // ----------------- steps that leave the quote slots alone -----------------

  ghost predicate OnlyLoses(s: Sys, s': Sys) {
    forall k | 0 <= k < SLOTS :: Working(s', k) == Working(s, k) || Working(s', k) == []
  }

  /** Moving or losing orders keeps the invariant, whatever becomes of the reports on their way. */
  lemma SlotsUntouched(s: Sys, s': Sys)
    requires Inv(s)
    requires s'.first == s.first && s'.strat == s.strat.(out := s'.strat.out)
    requires OnlyLoses(s, s')
    requires SlotsInRange(s')
    requires forall c | c in s'.wire || c in s'.strat.out :: c in s.wire || c in s.strat.out
    requires forall e | e in Pending(s') :: Harmless(s, e) || Harmless(s', e)
    requires forall r | r in s'.told :: Harmless(s, Decode(r)) || Harmless(s', Decode(r))
    requires forall r | r in s'.reports :: r in s'.told
    ensures Inv(s')
  {
    HarmlessStays(s, s');
    forall k | 0 <= k < SLOTS ensures AtMostOne(s', k) {
      assert AtMostOne(s, k);
    }
  }

  /** The same for a step that sends one more report. */
  lemma TellKeepsInv(s: Sys, s': Sys, r: FixReport)
    requires Inv(s)
    requires s'.first == s.first && s'.strat == s.strat && OnlyLoses(s, s') && SlotsInRange(s')
    requires forall c | c in s'.wire :: c in s.wire
    requires s'.execs == s.execs && s'.reports == s.reports + [r] && s'.told == s.told + [r]
    requires Harmless(s', Decode(r))
    ensures Inv(s')
  {
    PendingGrows(s, s');
    SlotsUntouched(s, s');
  }

  /** An order is alive in one slot only, once, under an id of this run. */
  lemma AliveOnce(s: Sys, k: nat, id: nat)
    requires Inv(s) && k < SLOTS && id in Working(s, k)
    ensures Working(s, k) == [id] && s.strat.slots[k].id == id >= s.first && s.strat.slots[k].state != NoQuote
    ensures forall l | 0 <= l < SLOTS && l != k :: id !in Working(s, l)
  {
    assert AtMostOne(s, k);
    forall l | 0 <= l < SLOTS && l != k ensures id !in Working(s, l) {
      assert AtMostOne(s, l);
    }
  }

  lemma AliveIdsAreOurs(s: Sys, k: nat, id: nat)
    requires Inv(s) && k < SLOTS && id in Working(s, k)
    ensures s.first <= id < s.strat.seed && id == s.strat.slots[k].id
  {
    AliveOnce(s, k, id);
  }

  lemma SendKeepsInv(cfg: Config, s: Sys, loggedOn: bool) returns (s': Sys)
    requires Inv(s) && Enabled(cfg, s, Send(loggedOn))
    ensures s' == Do(cfg, s, Send(loggedOn)) && Inv(s')
  {
    s' := Do(cfg, s, Send(loggedOn));
    var c := s.strat.out[0];
    assert s.strat.out == [c] + s.strat.out[1..];
    forall k | 0 <= k < SLOTS ensures Working(s', k) == Working(s, k) || Working(s', k) == [] {
      assert AtMostOne(s, k);
      MoveFirst(s.wire, s.strat.out, k);
      Regroup(OpenIds(s.open, k), NewIds(s.wire, k), NewIds(s.strat.out, k));
      Regroup(OpenIds(s.open, k), NewIds(s.wire + [c], k), NewIds(s.strat.out[1..], k));
    }
    assert Pending(s') == Pending(s);
    SlotsUntouched(s, s');
  }

  lemma MoveFirst(wire: seq<OrderCmd>, out: seq<OrderCmd>, k: nat)
    requires out != []
    ensures NewIds(wire + [out[0]], k) + NewIds(out[1..], k) == NewIds(wire, k) + NewIds(out, k)
  {
    NewIdsConcat(wire, [out[0]], k);
    NewIdsConcat([out[0]], out[1..], k);
    assert out == [out[0]] + out[1..];
    Regroup(NewIds(wire, k), NewIds([out[0]], k), NewIds(out[1..], k));
  }

  lemma AcceptMoves(open: seq<Order>, wire: seq<OrderCmd>, out: seq<OrderCmd>, o: Order, k: nat)
    requires wire != [] && wire[0].New? && o.slot == wire[0].slot && o.id == wire[0].id
    ensures OpenIds(open + [o], k) + NewIds(wire[1..], k) + NewIds(out, k)
         == OpenIds(open, k) + NewIds(wire, k) + NewIds(out, k)
  {
    OpenIdsConcat(open, [o], k);
    assert OpenIds([o], k) == if o.slot == k then [o.id] else [];
    Regroup(OpenIds(open, k), OpenIds([o], k), NewIds(wire[1..], k));
  }

  lemma AcceptKeepsInv(cfg: Config, s: Sys) returns (s': Sys)
    requires Inv(s) && Enabled(cfg, s, Accept)
    ensures s' == Do(cfg, s, Accept) && Inv(s')
  {
    s' := Do(cfg, s, Accept);
    var c := s.wire[0];
    forall k | 0 <= k < SLOTS ensures Working(s', k) == Working(s, k) {
      AcceptMoves(s.open, s.wire, s.strat.out, s'.open[|s.open|], k);
    }
    HeadIsOurs(s);
    TellKeepsInv(s, s', Report(c.id, '0', Some('0'), c.slot, 0.0, 0.0, c.qty));
  }

  /** When the exchange drops the head of the wire, at most that order dies. */
  lemma HeadDies(s: Sys, s': Sys, k: nat)
    requires Inv(s) && s.wire != [] && k < SLOTS
    requires s'.strat == s.strat && s'.open == s.open && s'.wire == s.wire[1..]
    ensures Working(s', k) == Working(s, k) || Working(s', k) == []
    ensures s.wire[0].id !in Working(s', k)
  {
    var c := s.wire[0];
    assert c in s.wire && s.wire == [c] + s.wire[1..];
    assert AtMostOne(s, k);
    if c.New? {
      assert c.id in NewIds(s.wire, c.slot);
      AliveOnce(s, c.slot, c.id);
    }
  }

  lemma HeadIsOurs(s: Sys)
    requires Inv(s) && s.wire != []
    ensures var c := s.wire[0]; c.slot < SLOTS && c.id < s.strat.seed
    ensures forall k | 0 <= k < SLOTS && s.strat.slots[k].id == s.wire[0].id :: k == s.wire[0].slot
  {
    var c := s.wire[0];
    assert c in s.wire && s.wire == [c] + s.wire[1..];
    if c.New? {
      assert c.id in NewIds(s.wire, c.slot);
      AliveOnce(s, c.slot, c.id);
    }
  }

  lemma DropKeepsInv(cfg: Config, s: Sys, a: Action) returns (s': Sys)
    requires Inv(s) && Enabled(cfg, s, a) && (a.Refuse? || a.Ignore? || a.CancelUnknown?)
    ensures s' == Do(cfg, s, a) && Inv(s')
  {
    s' := Do(cfg, s, a);
    forall k | 0 <= k < SLOTS
      ensures Working(s', k) == Working(s, k) || Working(s', k) == []
      ensures s.wire[0].id !in Working(s', k)
    {
      HeadDies(s, s', k);
    }
    HeadIsOurs(s);
    if a.Ignore? {
      assert Pending(s') == Pending(s);
      SlotsUntouched(s, s');
    } else {
      TellKeepsInv(s, s', s'.reports[|s.reports|]);
    }
  }

  lemma PendingGrows(s: Sys, s': Sys)
    requires s'.execs == s.execs && |s.reports| <= |s'.reports| <= |s.reports| + 1 && s.reports <= s'.reports
    ensures Pending(s) <= Pending(s')
    ensures |s'.reports| > |s.reports| ==> Pending(s') == Pending(s) + [Decode(s'.reports[|s.reports|])]
    ensures |s'.reports| == |s.reports| ==> Pending(s') == Pending(s)
  {
  }

  /** A slot with one order at most loses it when the order is closed. */
  lemma OpenIdsWithout(open: seq<Order>, j: nat, k: nat)
    requires j < |open| && |OpenIds(open, k)| <= 1
    ensures OpenIds(Without(open, j), k) == if open[j].slot == k then [] else OpenIds(open, k)
    ensures open[j].slot == k ==> OpenIds(open, k) == [open[j].id]
  {
    OpenIdsAt(open, j, k);
  }

  /** Closing an open order leaves its slot with nothing alive. */
  lemma ClosingEmpties(s: Sys, j: nat, wire': seq<OrderCmd>, k: nat)
    requires Inv(s) && j < |s.open| && k < SLOTS
    requires wire' == s.wire || (s.wire != [] && s.wire[0].Cancel? && wire' == s.wire[1..])
    ensures var w := Working(s.(open := Without(s.open, j), wire := wire'), k);
      && (w == Working(s, k) || w == [])
      && s.open[j].id !in w
  {
    var o := s.open[j];
    assert o in s.open && AtMostOne(s, k) && AtMostOne(s, o.slot);
    assert NewIds(wire', k) == NewIds(s.wire, k);
    OpenIdsWithout(s.open, j, k);
    if o.slot != k {
      OpenIdsWithout(s.open, j, o.slot);
      AliveOnce(s, o.slot, o.id);
    }
  }

  /** The id under which a closed order is reported names nothing that stays alive. */
  lemma ClosedIdIsDead(s: Sys, s': Sys, j: nat, id: nat, k: nat)
    requires Inv(s) && j < |s.open| && k < SLOTS && s'.open == Without(s.open, j) && s'.strat.out == s.strat.out
    requires s'.wire == s.wire || (s.wire != [] && s.wire[0].Cancel? && s'.wire == s.wire[1..])
    requires id == s.open[j].id || (s.wire != [] && s.wire[0].Cancel? && id == s.wire[0].id)
    ensures Working(s', k) == Working(s, k) || Working(s', k) == []
    ensures id !in Working(s', k)
  {
    ClosingEmpties(s, j, s'.wire, k);
    assert Working(s', k) == Working(s.(open := Without(s.open, j), wire := s'.wire), k);
    if id != s.open[j].id {
      assert s.wire[0] in s.wire && AtMostOne(s, k);
    }
  }

  /** The report about a closed order is about no slot of another symbol. */
  lemma ClosedIdPlace(s: Sys, j: nat, id: nat)
    requires Inv(s) && j < |s.open|
    requires id == s.open[j].id || (s.wire != [] && s.wire[0].Cancel? && id == s.wire[0].id)
    ensures id < s.strat.seed && s.open[j].slot < SLOTS
    ensures forall k | 0 <= k < SLOTS && id >= s.first && s.strat.slots[k].id == id :: k == s.open[j].slot
  {
    var o := s.open[j];
    assert o in s.open;
    OpenIdsAt(s.open, j, o.slot);
    AliveIdsAreOurs(s, o.slot, o.id);
    if id != o.id {
      assert s.wire[0] in s.wire;
    }
  }

  /** Closing an order and reporting it, under its own id or under its cancel's id. */
  lemma CloseKeepsInv(s: Sys, s': Sys, j: nat, r: FixReport)
    requires Inv(s) && j < |s.open| && s'.open == Without(s.open, j)
    requires s'.first == s.first && s'.strat == s.strat && s'.execs == s.execs
    requires s'.reports == s.reports + [r] && s'.told == s.told + [r]
    requires s'.wire == s.wire || (s.wire != [] && s.wire[0].Cancel? && s'.wire == s.wire[1..])
    requires Decode(r).sym == s.open[j].slot / 2
    requires Decode(r).id == s.open[j].id || (s.wire != [] && s.wire[0].Cancel? && Decode(r).id == s.wire[0].id)
    ensures Inv(s')
  {
    forall k | 0 <= k < SLOTS
      ensures Working(s', k) == Working(s, k) || Working(s', k) == []
      ensures Decode(r).id !in Working(s', k)
    {
      ClosedIdIsDead(s, s', j, Decode(r).id, k);
    }
    ClosedIdPlace(s, j, Decode(r).id);
    TellKeepsInv(s, s', r);
  }

  lemma PartialTradeKeepsInv(cfg: Config, s: Sys, a: Action) returns (s': Sys)
    requires Inv(s) && Enabled(cfg, s, a) && StatusRule(s, a)
    requires a.Trade? && s.open[a.j].cum + a.qty < s.open[a.j].qty
    ensures s' == Do(cfg, s, a) && Inv(s')
  {
    s' := Do(cfg, s, a);
    forall k | 0 <= k < SLOTS ensures Working(s', k) == Working(s, k) {
      SameOpenIds(s.open, a.j, s'.open[a.j], k);
    }
    ClosedIdPlace(s, a.j, s.open[a.j].id);
    TellKeepsInv(s, s', TradeReport(s.open[a.j], a));
  }

  lemma SameOpenIds(open: seq<Order>, j: nat, o: Order, k: nat)
    requires j < |open| && o.slot == open[j].slot && o.id == open[j].id
    ensures OpenIds(open[j := o], k) == OpenIds(open, k)
  {
    var open' := open[j := o];
    OpenIdsAt(open, j, k);
    OpenIdsAt(open', j, k);
    assert open'[..j] == open[..j] && open'[j + 1..] == open[j + 1..];
  }

  /** Reports of earlier sessions and repeated ones: whatever was harmless still is. */
  lemma TellAgainKeepsInv(cfg: Config, s: Sys, a: Action)
    requires Inv(s) && Enabled(cfg, s, a) && (a.Stray? || a.Repeat?)
    ensures Inv(Do(cfg, s, a))
  {
    var s' := Do(cfg, s, a);
    assert forall k :: Working(s', k) == Working(s, k);
    if a.Stray? {
      forall k | 0 <= k < SLOTS ensures Decode(a.r).id !in Working(s', k) {
        assert AtMostOne(s, k);
      }
    } else {
      HarmlessStays(s, s');
    }
    TellKeepsInv(s, s', a.r);
  }

  lemma DeliverKeepsInv(cfg: Config, s: Sys, a: Action)
    requires Inv(s) && Enabled(cfg, s, a) && a.Deliver?
    ensures Inv(Do(cfg, s, a))
  {
    var s' := Do(cfg, s, a);
    assert forall k :: Working(s', k) == Working(s, k);
    PendingAfterDeliver(cfg, s, a);
    SlotsUntouched(s, s');
  }

  lemma PendingAfterDeliver(cfg: Config, s: Sys, a: Action)
    requires Enabled(cfg, s, a) && a.Deliver?
    ensures var s' := Do(cfg, s, a);
      Pending(s') == if a.ok then Pending(s) else Without(Pending(s), |s.execs|)
    ensures forall e | e in Pending(Do(cfg, s, a)) :: e in Pending(s)
  {
  }

  // -------------------- steps that move the quote slots --------------------

  /** A report changes at most one slot, one that holds the report's id. */
  lemma OnExecTouchesOne(slots: seq<Quote>, e: ExecEvent) returns (i: nat)
    requires |slots| == SLOTS && e.sym < MAX_SYMBOLS
    ensures i < SLOTS && i / 2 == e.sym && forall k | 0 <= k < SLOTS && k != i :: OnExec(slots, e)[k] == slots[k]
    ensures OnExec(slots, e)[i] == if slots[i].id == e.id then Moved(slots[i], e) else slots[i]
  {
    i := if slots[2 * e.sym].id == e.id then 2 * e.sym else 2 * e.sym + 1;
  }

  lemma TagsStay(s: Sys, s': Sys)
    requires Tags(s) && s'.first == s.first && s'.strat.seed == s.strat.seed && |s'.strat.slots| == SLOTS
    requires forall k | 0 <= k < SLOTS :: s'.strat.slots[k].id == s.strat.slots[k].id || s'.strat.slots[k].id == 0
    ensures Tags(s')
  {
  }

  /** What handling a report does to one slot. */
  lemma OnExecAt(slots: seq<Quote>, e: ExecEvent, k: nat)
    requires |slots| == SLOTS && e.sym < MAX_SYMBOLS && k < SLOTS
    ensures OnExec(slots, e)[k] == slots[k] || (slots[k].id == e.id && OnExec(slots, e)[k] == Moved(slots[k], e))
    ensures OnExec(slots, e)[k].id == slots[k].id || (OnExec(slots, e)[k] == EMPTY && e.kind.Terminal())
  {
    var i := OnExecTouchesOne(slots, e);
  }

  lemma OnReportKeepsOrders(cfg: Config, s: Sys)
    requires Inv(s) && Enabled(cfg, s, OnReport)
    ensures var s' := Do(cfg, s, OnReport);
      && Tags(s') && SlotsInRange(s')
      && (forall k | 0 <= k < SLOTS :: Working(s', k) == Working(s, k) && AtMostOne(s', k))
      && (forall k | 0 <= k < SLOTS :: s'.strat.slots[k].id == s.strat.slots[k].id || s'.strat.slots[k].id == 0)
  {
    var s', e := Do(cfg, s, OnReport), s.execs[0];
    assert e in Pending(s) && Harmless(s, e);
    forall k | 0 <= k < SLOTS
      ensures Working(s', k) == Working(s, k) && AtMostOne(s', k)
      ensures s'.strat.slots[k].id == s.strat.slots[k].id || s'.strat.slots[k].id == 0
    {
      OnExecAt(s.strat.slots, e, k);
      assert AtMostOne(s, k);
    }
    TagsStay(s, s');
  }

  lemma OnReportKeepsInv(cfg: Config, s: Sys)
    requires Inv(s) && Enabled(cfg, s, OnReport)
    ensures Inv(Do(cfg, s, OnReport))
  {
    var s' := Do(cfg, s, OnReport);
    OnReportKeepsOrders(cfg, s);
    assert Pending(s) == [s.execs[0]] + Pending(s');
    HarmlessStays(s, s');
  }

  function Placed(s: Sys, k: nat, px: real, qty: real): Sys
    requires k < |s.strat.slots|
  {
    var id := s.strat.seed;
    s.(strat := Strat(s.strat.slots[k := Quote(PendingNew, id, px, qty)], id + 1, s.strat.out + [New(k, id, px, qty)]))
  }

  lemma PlacedWorking(s: Sys, k: nat, px: real, qty: real, l: nat)
    requires k < |s.strat.slots| && l < SLOTS
    ensures Working(Placed(s, k, px, qty), l) == Working(s, l) + (if l == k then [s.strat.seed] else [])
  {
    var c := New(k, s.strat.seed, px, qty);
    NewIdsConcat(s.strat.out, [c], l);
    assert NewIds([c], l) == if l == k then [s.strat.seed] else [];
  }

  lemma PlacedAtMostOne(s: Sys, k: nat, px: real, qty: real, l: nat)
    requires Inv(s) && k < SLOTS && l < SLOTS && s.strat.slots[k].state == NoQuote
    ensures AtMostOne(Placed(s, k, px, qty), l)
    ensures forall id | id in Working(Placed(s, k, px, qty), l) :: id in Working(s, l) || id == s.strat.seed
  {
    assert AtMostOne(s, l);
    PlacedWorking(s, k, px, qty, l);
  }

  /** A new order enters only a slot with nothing alive. */
  lemma PlaceKeepsInv(s: Sys, k: nat, px: real, qty: real) returns (s': Sys)
    requires Inv(s) && k < SLOTS && s.strat.slots[k].state == NoQuote
    ensures s' == Placed(s, k, px, qty) && Inv(s')
  {
    s' := Placed(s, k, px, qty);
    forall l | 0 <= l < SLOTS
      ensures AtMostOne(s', l)
      ensures forall id | id in Working(s', l) :: id in Working(s, l) || id == s.strat.seed
    {
      PlacedAtMostOne(s, k, px, qty, l);
    }
    assert Pending(s') == Pending(s);
    HarmlessStays(s, s');
  }

  /** An id is used up, without an order or for a cancel of a slot that stays in use. */
  lemma SeedKeepsInv(s: Sys, s': Sys, k: nat, cmds: seq<OrderCmd>)
    requires Inv(s) && k < SLOTS
    requires cmds == [] || (cmds == [Cancel(k, s.strat.seed, s.strat.slots[k].id, s.strat.slots[k].qty)])
    requires var q := s.strat.slots;
      s' == s.(strat := Strat(s'.strat.slots, s.strat.seed + 1, s.strat.out + cmds))
      && (s'.strat.slots == q || (q[k].state == Live && s'.strat.slots == q[k := q[k].(state := PendingCancel)]))
    ensures Inv(s')
  {
    forall l | 0 <= l < SLOTS ensures AtMostOne(s', l) && Working(s', l) == Working(s, l) {
      assert AtMostOne(s, l);
      NewIdsConcat(s.strat.out, cmds, l);
      assert NewIds(cmds, l) == [];
    }
    assert Pending(s') == Pending(s);
    HarmlessStays(s, s');
  }

  lemma RequoteKeepsInv(cfg: Config, s: Sys, k: nat, px: real, ok: bool)
    requires Inv(s) && k < SLOTS
    ensures Inv(s.(strat := Requote(cfg, s.strat, k, px, ok)))
  {
    var q, s' := s.strat.slots[k], s.(strat := Requote(cfg, s.strat, k, px, ok));
    if q.state == NoQuote && ok && !cfg.dryRun {
      var _ := PlaceKeepsInv(s, k, px, cfg.orderQty);
    } else if q.state == NoQuote {
      SeedKeepsInv(s, s', k, []);
    } else if q.state == Live && !Near(cfg, q.price, px) {
      CancelSideKeepsInv(cfg, s, k, ok);
    }
  }

  lemma CancelSideKeepsInv(cfg: Config, s: Sys, k: nat, ok: bool)
    requires Inv(s) && k < SLOTS
    ensures Inv(s.(strat := CancelSide(cfg, s.strat, k, ok)))
  {
    var q, s' := s.strat.slots[k], s.(strat := CancelSide(cfg, s.strat, k, ok));
    if q.state == Live && ok && !cfg.dryRun {
      SeedKeepsInv(s, s', k, [Cancel(k, s.strat.seed, q.id, q.qty)]);
    } else if q.state == Live {
      SeedKeepsInv(s, s', k, []);
    }
  }

  lemma DecideKeepsInv(cfg: Config, s: Sys, sym: nat, bid: real, ask: real, okBuy: bool, okSell: bool)
    requires Inv(s) && sym < MAX_SYMBOLS
    ensures Inv(s.(strat := Decide(cfg, s.strat, sym, bid, ask, okBuy, okSell)))
  {
    var P := t => Inv(s.(strat := t));
    forall t: Strat, k: nat, px: real, ok: bool | P(t) && k < SLOTS == |t.slots| ensures P(Requote(cfg, t, k, px, ok)) {
      RequoteKeepsInv(cfg, s.(strat := t), k, px, ok);
    }
    forall t: Strat, k: nat, ok: bool | P(t) && k < SLOTS == |t.slots| ensures P(CancelSide(cfg, t, k, ok)) {
      CancelSideKeepsInv(cfg, s.(strat := t), k, ok);
    }
    DecidePreserves(cfg, s.strat, sym, bid, ask, okBuy, okSell, P);
  }

  lemma StepKeepsInv(cfg: Config, s: Sys, a: Action)
    requires Inv(s) && Enabled(cfg, s, a) && StatusRule(s, a)
    ensures Inv(Do(cfg, s, a))
  {
    var s' := Do(cfg, s, a);
    match a {
      case Snapshot(sym, bid, ask, okBuy, okSell) =>
        DecideKeepsInv(cfg, s, sym, bid, ask, okBuy, okSell);
      case OnReport => OnReportKeepsInv(cfg, s);
      case Send(b) => var _ := SendKeepsInv(cfg, s, b);
      case CancelOpen(j, _) => CloseKeepsInv(s, s', j, s'.reports[|s.reports|]);
      case Expire(j) => CloseKeepsInv(s, s', j, s'.reports[|s.reports|]);
      case Trade(j, qty, _, _) =>
        if s.open[j].cum + qty == s.open[j].qty {
          CloseKeepsInv(s, s', j, s'.reports[|s.reports|]);
        } else {
          var _ := PartialTradeKeepsInv(cfg, s, a);
        }
      case Stray(_) => TellAgainKeepsInv(cfg, s, a);
      case Repeat(_) => TellAgainKeepsInv(cfg, s, a);
      case Deliver(_) => DeliverKeepsInv(cfg, s, a);
      case Accept => var _ := AcceptKeepsInv(cfg, s);
      case _ => var _ := DropKeepsInv(cfg, s, a);
    }
  }

  lemma {:induction false} RunKeepsInv(cfg: Config, s: Sys, acts: seq<Action>)
    requires Inv(s) && Admissible(cfg, s, acts) && RuleAlong(cfg, s, acts)
    ensures Inv(Exec(cfg, s, acts))
    decreases |acts|
  {
    if acts != [] {
      StepKeepsInv(cfg, s, acts[0]);
      RunKeepsInv(cfg, Do(cfg, s, acts[0]), acts[1..]);
    }
  }

  lemma InitialInv(first: nat)
    requires first > 0
    ensures Inv(Initial(first))
  {
  }

  /**
   The engine never double-quotes: in every reachable state, whatever was
   dropped, refused, cancelled or filled on the way, each slot has at most one
   order queued, in flight or open, and it is the one the slot names.
   */
  lemma NoDoubleQuote(cfg: Config, first: nat, acts: seq<Action>, k: nat)
    requires first > 0 && k < SLOTS
    requires Admissible(cfg, Initial(first), acts) && RuleAlong(cfg, Initial(first), acts)
    ensures var s := Exec(cfg, Initial(first), acts);
      && |s.strat.slots| == SLOTS
      && |Working(s, k)| <= 1
      && (Working(s, k) != [] ==> s.strat.slots[k].state != NoQuote && Working(s, k) == [s.strat.slots[k].id])
  {
    InitialInv(first);
    RunKeepsInv(cfg, Initial(first), acts);
    assert AtMostOne(Exec(cfg, Initial(first), acts), k);
  }
}
