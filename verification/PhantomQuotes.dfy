/**
 Empty slots hold ClOrdID 0, and a report without a ClOrdID is decoded as id 0.
 An acknowledgement of this kind turns an empty slot Live, and a Cancel that
 follows targets no order at all. Exactly when such an acknowledgement can meet an
 empty slot, some continuation sends such a Cancel.
 */
module PhantomQuotes {
  import opened Common
  import opened Events
  import opened OrderManager
  import opened MarketMaker
  import opened QuoteSystem
  import opened CancelDiscipline
  import SR = StatusRule

  predicate UnnamedAck(e: ExecEvent) {
    e.id == 0 && e.kind.KNew?
  }

  ghost predicate NoEndBefore(p: seq<ExecEvent>, j: nat, id: nat)
    requires j <= |p|
  {
    forall i | 0 <= i < j && p[i].id == id :: !p[i].kind.Terminal()
  }

  /** Both slots of the symbol are in use, and no report in front of position `j` empties one. */
  ghost predicate NoGap(slots: seq<Quote>, p: seq<ExecEvent>, j: nat, sym: nat)
    requires j <= |p|
  {
    forall k | 0 <= k < |slots| && k / 2 == sym :: slots[k].state != NoQuote && NoEndBefore(p, j, slots[k].id)
  }

  /** An unnamed acknowledgement finds no empty slot when its turn comes. */
  ghost predicate UnnamedFits(s: Sys, a: Action) {
    var p := Pending(s);
    (a.Stray? || a.Repeat?) && UnnamedAck(Decode(a.r)) ==> NoGap(s.strat.slots, p, |p|, Decode(a.r).sym)
  }

  ghost predicate AllUnnamedFit(cfg: Config, s: Sys, acts: seq<Action>)
    requires Admissible(cfg, s, acts)
    decreases |acts|
  {
    acts == [] || (UnnamedFits(s, acts[0]) && AllUnnamedFit(cfg, Do(cfg, s, acts[0]), acts[1..]))
  }

  // -------------------------------- invariant --------------------------------

  /** Slots in use and the targets of cancels belong to orders of this run; empty slots hold 0. */
  ghost predicate StratNamed(st: Strat, first: nat) {
    && first <= st.seed
    && (forall k | 0 <= k < |st.slots| ::
          if st.slots[k].state == NoQuote then st.slots[k].id == 0 else st.slots[k].id >= first)
    && (forall c | c in st.out && c.Cancel? :: c.orig >= first)
  }

  ghost predicate AcksFindNoGap(slots: seq<Quote>, p: seq<ExecEvent>) {
    forall j | 0 <= j < |p| && UnnamedAck(p[j]) :: NoGap(slots, p, j, p[j].sym)
  }

  ghost predicate Named(s: Sys) {
    && StratNamed(s.strat, s.first)
    && (forall c | c in s.left && c.Cancel? :: c.orig >= s.first)
    && AcksFindNoGap(s.strat.slots, Pending(s))
  }

  /** What a requote or a cancel of a side keeps of the slots in use. */
  ghost predicate KeepsUsed(st: Strat, st': Strat) {
    && |st'.slots| == |st.slots|
    && forall k | 0 <= k < |st.slots| && st.slots[k].state != NoQuote ::
         st'.slots[k].state != NoQuote && st'.slots[k].id == st.slots[k].id
  }

  lemma DecideNamed(cfg: Config, st: Strat, first: nat, a: Action)
    requires StratNamed(st, first) && |st.slots| == SLOTS && a.Snapshot? && a.sym < MAX_SYMBOLS
    ensures var st' := Decide(cfg, st, a.sym, a.bid, a.ask, a.okBuy, a.okSell);
      StratNamed(st', first) && KeepsUsed(st, st')
  {
    DecidePreserves(cfg, st, a.sym, a.bid, a.ask, a.okBuy, a.okSell, t => StratNamed(t, first) && KeepsUsed(st, t));
  }

  lemma SnapshotNamed(cfg: Config, s: Sys, a: Action)
    requires Named(s) && a.Snapshot? && Enabled(cfg, s, a)
    ensures Named(Do(cfg, s, a))
  {
    var s' := Do(cfg, s, a);
    DecideNamed(cfg, s.strat, s.first, a);
    var p := Pending(s);
    assert Pending(s') == p;
    forall j | 0 <= j < |p| && UnnamedAck(p[j]) ensures NoGap(s'.strat.slots, p, j, p[j].sym) {
      assert NoGap(s.strat.slots, p, j, p[j].sym);
    }
  }

  /** A slot in use stays so unless its order ends. */
  lemma UsedStays(s: Sys, e: ExecEvent, k: nat)
    requires Tags(s) && StratNamed(s.strat, s.first) && Harmless(s, e) && k < SLOTS
    requires s.strat.slots[k].state != NoQuote && (e.id == s.strat.slots[k].id ==> !e.kind.Terminal())
    ensures var q' := OnExec(s.strat.slots, e)[k]; q'.state != NoQuote && q'.id == s.strat.slots[k].id
  {
    ReportMoves(s, e, k);
  }

  lemma SlotsNamed(s: Sys, e: ExecEvent, k: nat)
    requires Tags(s) && StratNamed(s.strat, s.first) && Harmless(s, e) && k < SLOTS
    requires UnnamedAck(e) && k / 2 == e.sym ==> s.strat.slots[k].state != NoQuote
    ensures var q' := OnExec(s.strat.slots, e)[k]; if q'.state == NoQuote then q'.id == 0 else q'.id >= s.first
  {
    var i := OnExecTouchesOne(s.strat.slots, e);
    OnExecAt(s.strat.slots, e, k);
  }

  lemma SlotsStayNamed(s: Sys, e: ExecEvent, p': seq<ExecEvent>)
    requires Tags(s) && StratNamed(s.strat, s.first) && Harmless(s, e) && AcksFindNoGap(s.strat.slots, [e] + p')
    ensures StratNamed(s.strat.(slots := OnExec(s.strat.slots, e)), s.first)
    ensures forall k | 0 <= k < SLOTS && UnnamedAck(e) && k / 2 == e.sym :: s.strat.slots[k].state != NoQuote
  {
    var p := [e] + p';
    assert UnnamedAck(p[0]) ==> NoGap(s.strat.slots, p, 0, p[0].sym);
    forall k | 0 <= k < SLOTS
      ensures var q' := OnExec(s.strat.slots, e)[k]; if q'.state == NoQuote then q'.id == 0 else q'.id >= s.first
    {
      SlotsNamed(s, e, k);
    }
  }

  /** A report is handled, and what is behind it moves forward. */
  lemma GapsStay(s: Sys, e: ExecEvent, p': seq<ExecEvent>)
    requires Tags(s) && StratNamed(s.strat, s.first) && Harmless(s, e) && AcksFindNoGap(s.strat.slots, [e] + p')
    ensures AcksFindNoGap(OnExec(s.strat.slots, e), p')
  {
    var p, slots, slots' := [e] + p', s.strat.slots, OnExec(s.strat.slots, e);
    forall j, k | 0 <= j < |p'| && UnnamedAck(p'[j]) && 0 <= k < SLOTS && k / 2 == p'[j].sym
      ensures slots'[k].state != NoQuote && NoEndBefore(p', j, slots'[k].id)
    {
      assert p[0] == e && p[j + 1] == p'[j] && NoGap(slots, p, j + 1, p'[j].sym);
      UsedStays(s, e, k);
      assert forall i :: 0 <= i < j ==> p'[i] == p[i + 1];
    }
  }

  lemma ReportNamed(cfg: Config, s: Sys)
    requires Inv(s) && Named(s) && Enabled(cfg, s, OnReport)
    ensures Named(Do(cfg, s, OnReport))
  {
    var e, p' := s.execs[0], Pending(Do(cfg, s, OnReport));
    assert Pending(s) == [e] + p' && e in Pending(s);
    SlotsStayNamed(s, e, p');
    GapsStay(s, e, p');
  }

  lemma LoseNamed(slots: seq<Quote>, p: seq<ExecEvent>, x: nat)
    requires AcksFindNoGap(slots, p) && x < |p|
    ensures AcksFindNoGap(slots, Without(p, x))
  {
    var p' := Without(p, x);
    forall j | 0 <= j < |p'| && UnnamedAck(p'[j]) ensures NoGap(slots, p', j, p'[j].sym) {
      var i := if j < x then j else j + 1;
      assert p'[j] == p[i] && NoGap(slots, p, i, p[i].sym);
      assert forall l :: 0 <= l < j ==> p'[l] == p[if l < x then l else l + 1];
    }
  }

  lemma ToldNamed(slots: seq<Quote>, p: seq<ExecEvent>, e: ExecEvent)
    requires AcksFindNoGap(slots, p) && (UnnamedAck(e) ==> NoGap(slots, p, |p|, e.sym))
    ensures AcksFindNoGap(slots, p + [e])
  {
    var p' := p + [e];
    forall j | 0 <= j < |p'| && UnnamedAck(p'[j]) ensures NoGap(slots, p', j, p'[j].sym) {
      assert NoGap(slots, p, j, p'[j].sym);
      assert forall l :: 0 <= l < j ==> p'[l] == p[l];
    }
  }

  lemma ExchangeNamed(cfg: Config, s: Sys, a: Action)
    requires Inv(s) && Named(s) && Enabled(cfg, s, a) && UnnamedFits(s, a) && !a.Snapshot? && !a.OnReport?
    ensures Named(Do(cfg, s, a))
  {
    var s' := Do(cfg, s, a);
    if a.Deliver? {
      PendingAfterDeliver(cfg, s, a);
      LoseNamed(s.strat.slots, Pending(s), |s.execs|);
    } else if a.Send? {
      assert Pending(s') == Pending(s) && s.strat.out[0] in s.strat.out;
    } else if a.Ignore? {
      assert Pending(s') == Pending(s);
    } else {
      PendingGrows(s, s');
      if a.Accept? {
        AcceptedIdIsOnlyHere(s);
      }
      ToldNamed(s.strat.slots, Pending(s), Decode(s'.reports[|s.reports|]));
    }
  }

  lemma {:induction false} RunNamed(cfg: Config, s: Sys, acts: seq<Action>) returns (s': Sys)
    requires Inv(s) && Named(s) && Admissible(cfg, s, acts) && RuleAlong(cfg, s, acts) && AllUnnamedFit(cfg, s, acts)
    ensures s' == Exec(cfg, s, acts) && Named(s') && s'.first == s.first
    decreases |acts|
  {
    if acts == [] {
      s' := s;
    } else {
      var a := acts[0];
      StepKeepsInv(cfg, s, a);
      if a.Snapshot? {
        SnapshotNamed(cfg, s, a);
      } else if a.OnReport? {
        ReportNamed(cfg, s);
      } else {
        ExchangeNamed(cfg, s, a);
      }
      s' := RunNamed(cfg, Do(cfg, s, a), acts[1..]);
    }
  }

  // ------------------------------ whole runs ------------------------------

  /** Every Cancel so far was about an order of this run. */
  ghost predicate TargetsAreOurs(s: Sys) {
    forall c | c in Sent(s) && c.Cancel? :: c.orig >= s.first
  }

  /** While no unnamed acknowledgement can meet an empty slot, cancels and slots in use name orders of this run. */
  lemma CancelTargetsAreOurs(cfg: Config, s0: Sys, acts: seq<Action>) returns (s: Sys)
    requires s0.first > 0 && s0 == Initial(s0.first)
    requires Admissible(cfg, s0, acts) && RuleAlong(cfg, s0, acts) && AllUnnamedFit(cfg, s0, acts)
    ensures s == Exec(cfg, s0, acts) && TargetsAreOurs(s)
    ensures forall k | 0 <= k < |s.strat.slots| && s.strat.slots[k].state != NoQuote :: s.strat.slots[k].id >= s0.first
  {
    InitialInv(s0.first);
    assert Named(s0);
    s := RunNamed(cfg, s0, acts);
  }

  /** If acknowledgements are not repeated to harm either, every order is cancelled once at most, and after its own. */
  lemma CancelsAreExact(cfg: Config, s0: Sys, acts: seq<Action>) returns (s: Sys)
    requires s0.first > 0 && s0 == Initial(s0.first) && Admissible(cfg, s0, acts) && RuleAlong(cfg, s0, acts)
    requires RepeatsFit(cfg, s0, acts) && AllUnnamedFit(cfg, s0, acts)
    ensures s == Exec(cfg, s0, acts)
    ensures forall c | c in Sent(s) && c.Cancel? :: c.orig >= s0.first && Acked(s, c.orig)
    ensures forall i, j | 0 <= i < j < |Sent(s)| && Sent(s)[i].Cancel? && Sent(s)[j].Cancel? ::
      Sent(s)[i].orig != Sent(s)[j].orig
  {
    s := CommandsAreDisciplined(cfg, s0, acts);
    var _ := CancelTargetsAreOurs(cfg, s0, acts);
    FirstStays(cfg, s0, acts);
    forall i, j | 0 <= i < j < |Sent(s)| && Sent(s)[i].Cancel? && Sent(s)[j].Cancel?
      ensures Sent(s)[i].orig != Sent(s)[j].orig
    {
      assert Sent(s)[i] in Sent(s);
    }
  }

  lemma {:induction false} FirstStays(cfg: Config, s: Sys, acts: seq<Action>)
    requires Admissible(cfg, s, acts)
    ensures Exec(cfg, s, acts).first == s.first
    decreases |acts|
  {
    if acts != [] {
      FirstStays(cfg, Do(cfg, s, acts[0]), acts[1..]);
    }
  }

  // -------------------------- the phantom, exactly --------------------------

  /** The slot is empty, or one of these reports empties it. */
  ghost predicate EmptyInTime(p: seq<ExecEvent>, j: nat, q: Quote)
    requires j <= |p|
  {
    q.state == NoQuote || !NoEndBefore(p, j, q.id)
  }

  /** The last pending report is an unnamed acknowledgement, and slot `k` of its symbol is empty or about to be. */
  ghost predicate PhantomQueued(s: Sys, k: nat) {
    && k < |s.strat.slots| == SLOTS && StratNamed(s.strat, s.first)
    && var p := Pending(s);
    && p != [] && UnnamedAck(p[|p| - 1]) && p[|p| - 1].sym == k / 2
    && EmptyInTime(p, |p| - 1, s.strat.slots[k])
    && AcksFindNoGap(s.strat.slots, p[..|p| - 1])
  }

  ghost predicate PhantomComing(s: Sys, k: nat) {
    Inv(s) && PhantomQueued(s, k)
  }

  /** An empty slot stays empty, and a report that ends its order empties one in use. */
  lemma EmptiesInTime(s: Sys, e: ExecEvent, p': seq<ExecEvent>, k: nat, j: nat)
    requires Tags(s) && StratNamed(s.strat, s.first) && Harmless(s, e) && k < SLOTS
    requires j <= |p'| && EmptyInTime([e] + p', j + 1, s.strat.slots[k])
    requires UnnamedAck(e) && e.sym == k / 2 ==> s.strat.slots[k].state != NoQuote
    ensures EmptyInTime(p', j, OnExec(s.strat.slots, e)[k])
  {
    var q, p := s.strat.slots[k], [e] + p';
    if q.state == NoQuote {
      var i := OnExecTouchesOne(s.strat.slots, e);
    } else {
      var i :| 0 <= i < j + 1 && p[i].id == q.id && p[i].kind.Terminal();
      ReportMoves(s, e, k);
      if i > 0 {
        assert p'[i - 1] == p[i];
      }
    }
  }

  lemma PhantomStaysQueued(s: Sys, s': Sys, k: nat)
    requires Tags(s) && PhantomQueued(s, k) && s.execs != [] && Harmless(s, s.execs[0]) && |Pending(s)| > 1
    requires Pending(s) == [s.execs[0]] + Pending(s') && s'.first == s.first
    requires s'.strat == s.strat.(slots := OnExec(s.strat.slots, s.execs[0]))
    ensures PhantomQueued(s', k)
  {
    var e, p, p' := s.execs[0], Pending(s), Pending(s');
    var front' := p'[..|p'| - 1];
    assert p[..|p| - 1] == [e] + front';
    SlotsStayNamed(s, e, front');
    GapsStay(s, e, front');
    EmptiesInTime(s, e, p', k, |front'|);
  }

  lemma PhantomDelivered(cfg: Config, s: Sys, k: nat) returns (s': Sys)
    requires PhantomComing(s, k) && s.execs == []
    ensures Enabled(cfg, s, Deliver(true)) && s' == Do(cfg, s, Deliver(true)) && PhantomComing(s', k)
  {
    s' := Do(cfg, s, Deliver(true));
    assert Pending(s') == Pending(s);
    DeliverKeepsInv(cfg, s, Deliver(true));
  }

  lemma PhantomHandled(cfg: Config, s: Sys, k: nat) returns (s': Sys)
    requires PhantomComing(s, k) && s.execs != [] && |Pending(s)| > 1
    ensures Enabled(cfg, s, OnReport) && s' == Do(cfg, s, OnReport) && PhantomComing(s', k)
  {
    assert Pending(s)[0] == s.execs[0] && s.execs[0] in Pending(s);
    s' := Do(cfg, s, OnReport);
    assert Pending(s) == [s.execs[0]] + Pending(s');
    PhantomStaysQueued(s, s', k);
    OnReportKeepsInv(cfg, s);
  }

  /** Everything in front of the acknowledgement is handled, which leaves the slot empty. */
  lemma {:induction false} PhantomComes(cfg: Config, s: Sys, k: nat) returns (acts: seq<Action>, s': Sys)
    requires PhantomComing(s, k)
    ensures Admissible(cfg, s, acts) && Plain(acts)
    ensures s' == Exec(cfg, s, acts) && PhantomComing(s', k) && |s'.execs| == |Pending(s')| == 1
    decreases 2 * |s.reports| + |s.execs|
  {
    if s.execs != [] && |Pending(s)| == 1 {
      acts, s' := [], s;
    } else {
      var a := if s.execs == [] then Deliver(true) else OnReport;
      var s1;
      if s.execs == [] {
        s1 := PhantomDelivered(cfg, s, k);
      } else {
        s1 := PhantomHandled(cfg, s, k);
      }
      var rest;
      rest, s' := PhantomComes(cfg, s1, k);
      acts := [a] + rest;
    }
  }

  /** The acknowledgement makes an empty slot of the symbol Live, still with id 0. */
  lemma PhantomAppears(cfg: Config, s: Sys, k: nat) returns (s': Sys, i: nat)
    requires PhantomComing(s, k) && |s.execs| == |Pending(s)| == 1
    ensures Enabled(cfg, s, OnReport) && s' == Do(cfg, s, OnReport) && Inv(s')
    ensures i < SLOTS && s'.strat.slots[i].state == Live && s'.strat.slots[i].id == 0
  {
    var e := s.execs[0];
    assert Pending(s)[0] == e && e in Pending(s) && Harmless(s, e);
    s' := Do(cfg, s, OnReport);
    OnReportKeepsInv(cfg, s);
    i := if s.strat.slots[2 * e.sym].id == 0 then 2 * e.sym else 2 * e.sym + 1;
    assert s.strat.slots[k].id == 0 && (k == 2 * e.sym || k == 2 * e.sym + 1);
  }

  /** A continuation in which the venue obeys the status rule and no further unnamed acknowledgement does harm. */
  ghost predicate RuleAndNames(cfg: Config, s: Sys, acts: seq<Action>) {
    Admissible(cfg, s, acts) && RuleAlong(cfg, s, acts) && AllUnnamedFit(cfg, s, acts)
  }

  /** In every such continuation every Cancel is about an order of this run. */
  ghost predicate StaysOurs(cfg: Config, s: Sys) {
    forall acts | RuleAndNames(cfg, s, acts) :: TargetsAreOurs(Exec(cfg, s, acts))
  }

  lemma {:induction false} NothingForeign(cfg: Config, s: Sys, acts: seq<Action>)
    requires Admissible(cfg, s, acts) && Plain(acts)
    ensures AllUnnamedFit(cfg, s, acts)
    decreases |acts|
  {
    if acts != [] {
      assert acts[0] in acts;
      NothingForeign(cfg, Do(cfg, s, acts[0]), acts[1..]);
    }
  }

  lemma PhantomIsCancelled(cfg: Config, s: Sys, i: nat) returns (acts: seq<Action>, s': Sys)
    requires Inv(s) && i < SLOTS && s.strat.slots[i].state == Live && s.strat.slots[i].id == 0 && !cfg.dryRun
    ensures Admissible(cfg, s, acts) && Plain(acts)
    ensures s' == Exec(cfg, s, acts) && !TargetsAreOurs(s')
  {
    acts, s' := CancelLive(cfg, s, i);
    assert Sent(s')[|Sent(s)|] in Sent(s');
  }

  lemma PhantomBreaks(cfg: Config, s: Sys, k: nat) returns (acts: seq<Action>)
    requires PhantomComing(s, k) && !cfg.dryRun
    ensures RuleAndNames(cfg, s, acts) && !TargetsAreOurs(Exec(cfg, s, acts))
  {
    var a, s1 := PhantomComes(cfg, s, k);
    var s2, i := PhantomAppears(cfg, s1, k);
    var b, s3 := PhantomIsCancelled(cfg, s2, i);
    var c := [OnReport] + b;
    assert Exec(cfg, s1, c) == s3;
    SR.ExecConcat(cfg, s, a, c);
    acts := a + c;
    PlainIsFit(cfg, s, acts);
    NothingForeign(cfg, s, acts);
  }

  /**
   The exact harm of a report without a ClOrdID: some continuation, in which
   nothing else goes wrong, cancels an order that never was, unless the report is
   no acknowledgement, or both slots of its symbol are in use and no report in
   front of it empties one.
   */
  lemma UnnamedIsSafeIffItFits(cfg: Config, s: Sys, a: Action)
    requires Inv(s) && Named(s) && Enabled(cfg, s, a) && (a.Stray? || a.Repeat?) && !cfg.dryRun
    ensures UnnamedFits(s, a) <==> StaysOurs(cfg, Do(cfg, s, a))
  {
    var s' := Do(cfg, s, a);
    TellAgainKeepsInv(cfg, s, a);
    if UnnamedFits(s, a) {
      ExchangeNamed(cfg, s, a);
      forall acts | RuleAndNames(cfg, s', acts) ensures TargetsAreOurs(Exec(cfg, s', acts)) {
        var _ := RunNamed(cfg, s', acts);
      }
    } else {
      var k := UnfitIsComing(cfg, s, a);
      var acts := PhantomBreaks(cfg, s', k);
    }
  }

  /** So an unnamed report does no harm in any state if and only if it is no acknowledgement. */
  lemma UnnamedIsSafeIffNotNew(cfg: Config, r: FixReport)
    requires Decode(r).id == 0 && r.sym < MAX_SYMBOLS && !cfg.dryRun
    ensures (forall s: Sys | Inv(s) && Named(s) :: StaysOurs(cfg, Do(cfg, s, Stray(r)))) <==> !Decode(r).kind.KNew?
  {
    forall s: Sys | Inv(s) && Named(s) && !Decode(r).kind.KNew? ensures StaysOurs(cfg, Do(cfg, s, Stray(r))) {
      UnnamedIsSafeIffItFits(cfg, s, Stray(r));
    }
    var s0 := Initial(1);
    InitialInv(1);
    assert s0.strat.slots[2 * r.sym] == EMPTY && Named(s0);
    UnnamedIsSafeIffItFits(cfg, s0, Stray(r));
  }

  lemma EmptyStill(p: seq<ExecEvent>, e: ExecEvent, q: Quote)
    requires EmptyInTime(p, |p|, q)
    ensures EmptyInTime(p + [e], |p|, q)
  {
    if q.state != NoQuote {
      var i :| 0 <= i < |p| && p[i].id == q.id && p[i].kind.Terminal();
      assert (p + [e])[i] == p[i];
    }
  }

  lemma UnfitIsComing(cfg: Config, s: Sys, a: Action) returns (k: nat)
    requires Inv(s) && Named(s) && Enabled(cfg, s, a) && (a.Stray? || a.Repeat?) && !UnnamedFits(s, a)
    ensures PhantomComing(Do(cfg, s, a), k)
  {
    var s', p, e := Do(cfg, s, a), Pending(s), Decode(a.r);
    TellAgainKeepsInv(cfg, s, a);
    PendingGrows(s, s');
    k :| 0 <= k < SLOTS && k / 2 == e.sym && EmptyInTime(p, |p|, s.strat.slots[k]);
    var p' := Pending(s');
    EmptyStill(p, e, s.strat.slots[k]);
    assert p'[..|p|] == p;
  }

  /** An acknowledgement without a ClOrdID, for symbol 0. */
  const UNNAMED_ACK := FixReport(None, Some('0'), Some('0'), Some('1'), 0, 0.0, 0.0, 0.0)

  /** It makes an empty slot Live under id 0, and a narrow market then cancels an order that never was. */
  lemma UnnamedAckMakesPhantom(cfg: Config, first: nat) returns (acts: seq<Action>, s: Sys)
    requires first > 0 && !cfg.dryRun
    ensures Admissible(cfg, Initial(first), acts) && RuleAlong(cfg, Initial(first), acts)
    ensures s == Exec(cfg, Initial(first), acts) && s.open == [] && s.wire == []
    ensures s.strat.slots != [] && s.strat.slots[0].state == PendingCancel && s.strat.slots[0].id == 0
    ensures s.strat.out == [Cancel(0, first, 0, 0.0)]
  {
    var narrow := Snapshot(0, 0.0, cfg.minSpread - 1.0, true, true);
    var s0 := Initial(first);
    var s1 := Do(cfg, s0, Stray(UNNAMED_ACK));
    var s2 := Do(cfg, s1, Deliver(true));
    var s3 := Do(cfg, s2, OnReport);
    assert s3.strat.slots[0] == Quote(Live, 0, 0.0, 0.0) && s3.strat.slots[1] == EMPTY;
    DecideCancels(cfg, s3.strat, 0, 0.0, cfg.minSpread - 1.0, true, true);
    s := Do(cfg, s3, narrow);
    acts := OneStep(cfg, s3, narrow, []);
    acts := OneStep(cfg, s2, OnReport, acts);
    acts := OneStep(cfg, s1, Deliver(true), acts);
    acts := OneStep(cfg, s0, Stray(UNNAMED_ACK), acts);
  }

  lemma OneStep(cfg: Config, s: Sys, a: Action, rest: seq<Action>) returns (acts: seq<Action>)
    requires Enabled(cfg, s, a) && !a.Trade?
    requires Admissible(cfg, Do(cfg, s, a), rest) && RuleAlong(cfg, Do(cfg, s, a), rest)
    ensures Admissible(cfg, s, acts) && RuleAlong(cfg, s, acts)
    ensures Exec(cfg, s, acts) == Exec(cfg, Do(cfg, s, a), rest)
  {
    acts := [a] + rest;
    assert acts[0] == a && acts[1..] == rest;
  }
}
