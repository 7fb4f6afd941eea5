/**
 From a market data message to the book: decoding the repeating group, applying
 the snapshot, and what the books show over a whole run.
 */
module BookFeed {
  import opened Common

  const DEPTH: nat := 5

  datatype Level = Level(px: real, qty: real)

  const EMPTY_LEVEL := Level(0.0, 0.0)

  /** One entry of the repeating group: '0' bid, '1' offer, '2' trade; absent fields count as zero. */
  datatype Entry = Entry(kind: char, px: Option<real>, qty: Option<real>)

  /** The levels are fixed arrays of five; only the first `nBids` and `nAsks` were filled. */
  datatype MdEvent = MdEvent(tRecv: int, sym: nat, seqNum: nat, bids: seq<Level>, nBids: nat,
                             asks: seq<Level>, nAsks: nat, lastPx: real)

  function Price(e: Entry): real {
    if e.px.Some? then e.px.value else 0.0
  }

  function LevelOf(e: Entry): Level {
    Level(Price(e), if e.qty.Some? then e.qty.value else 0.0)
  }

  /** The levels of one side, in message order. */
  function SideLevels(entries: seq<Entry>, kind: char): seq<Level> {
    if entries == [] then []
    else
      var last := entries[|entries| - 1];
      SideLevels(entries[..|entries| - 1], kind) + (if last.kind == kind then [LevelOf(last)] else [])
  }

  function LastTrade(entries: seq<Entry>): real {
    if entries == [] then 0.0
    else
      var last := entries[|entries| - 1];
      if last.kind == '2' then Price(last) else LastTrade(entries[..|entries| - 1])
  }

  /** `filled` holds the first five of `side`, padded with empty levels. */
  ghost predicate FirstFive(side: seq<Level>, filled: seq<Level>, n: nat) {
    && |filled| == DEPTH && n == (if |side| < DEPTH then |side| else DEPTH)
    && filled[..n] == side[..n] && forall i | n <= i < DEPTH :: filled[i] == EMPTY_LEVEL
  }

  lemma FillNext(side: seq<Level>, filled: seq<Level>, n: nat, l: Level)
    requires FirstFive(side, filled, n)
    ensures n < DEPTH ==> FirstFive(side + [l], filled[n := l], n + 1)
    ensures n == DEPTH ==> FirstFive(side + [l], filled, n)
  {
    if n < DEPTH {
      assert filled[n := l][..n + 1] == filled[..n] + [l];
    } else {
      assert (side + [l])[..n] == side[..n];
    }
  }

  // ------------------------- entries, one by one -------------------------

  /** How many of the first `n` entries are of this kind. */
  ghost function CountOf(entries: seq<Entry>, kind: char, n: nat): nat
    requires n <= |entries|
  {
    |set i | 0 <= i < n && entries[i].kind == kind|
  }

  lemma CountStep(entries: seq<Entry>, kind: char, n: nat)
    requires n < |entries|
    ensures CountOf(entries, kind, n + 1) == CountOf(entries, kind, n) + if entries[n].kind == kind then 1 else 0
  {
    var before := set i | 0 <= i < n && entries[i].kind == kind;
    var after := set i | 0 <= i < n + 1 && entries[i].kind == kind;
    assert after == if entries[n].kind == kind then before + {n} else before;
  }

  /** The level shows the entry's own price and size, zero where the entry has none. */
  predicate IsLevelOf(l: Level, e: Entry) {
    && l.px == (if e.px.Some? then e.px.value else 0.0)
    && l.qty == (if e.qty.Some? then e.qty.value else 0.0)
  }

  /** Entry `i` of this kind is shown at the level after those of the entries of its kind before it. */
  ghost predicate LevelsShow(entries: seq<Entry>, kind: char, n: nat, levels: seq<Level>, depth: nat)
    requires n <= |entries|
  {
    forall i | 0 <= i < n && entries[i].kind == kind && CountOf(entries, kind, i) < depth ::
      CountOf(entries, kind, i) < |levels| && IsLevelOf(levels[CountOf(entries, kind, i)], entries[i])
  }

  lemma {:induction false} SideShows(entries: seq<Entry>, kind: char, n: nat)
    requires n <= |entries|
    ensures |SideLevels(entries[..n], kind)| == CountOf(entries, kind, n)
    ensures LevelsShow(entries, kind, n, SideLevels(entries[..n], kind), CountOf(entries, kind, n))
  {
    if n > 0 {
      var m := n - 1;
      SideShows(entries, kind, m);
      CountStep(entries, kind, m);
      assert entries[..n][..m] == entries[..m];
      var before, after := SideLevels(entries[..m], kind), SideLevels(entries[..n], kind);
      forall i | 0 <= i < n && entries[i].kind == kind
        ensures CountOf(entries, kind, i) < |after| && IsLevelOf(after[CountOf(entries, kind, i)], entries[i])
      {
        CountGrows(entries, kind, i, m);
        if i < m {
          assert IsLevelOf(before[CountOf(entries, kind, i)], entries[i]);
        }
      }
    }
  }

  lemma CountGrows(entries: seq<Entry>, kind: char, i: nat, n: nat)
    requires i <= n <= |entries|
    ensures CountOf(entries, kind, i) <= CountOf(entries, kind, n)
    ensures i < n && entries[i].kind == kind ==> CountOf(entries, kind, i) < CountOf(entries, kind, n)
    decreases n - i
  {
    if i < n {
      CountStep(entries, kind, i);
      CountGrows(entries, kind, i + 1, n);
    }
  }

  /**
   What one side of a decoded message holds: the entries of its kind in order, as
   many as there are but at most five, and zeros behind them.
   */
  ghost predicate SideOf(entries: seq<Entry>, kind: char, levels: seq<Level>, count: nat) {
    var n := CountOf(entries, kind, |entries|);
    && |levels| == 5 && count == (if n < 5 then n else 5)
    && LevelsShow(entries, kind, |entries|, levels, 5)
    && forall j | count <= j < 5 :: levels[j].px == 0.0 && levels[j].qty == 0.0
  }

  lemma FirstFiveIsSide(entries: seq<Entry>, kind: char, levels: seq<Level>, count: nat)
    requires FirstFive(SideLevels(entries, kind), levels, count)
    ensures SideOf(entries, kind, levels, count)
  {
    var n, side := |entries|, SideLevels(entries, kind);
    assert entries[..n] == entries;
    SideShows(entries, kind, n);
    forall i | 0 <= i < n && entries[i].kind == kind && CountOf(entries, kind, i) < 5
      ensures IsLevelOf(levels[CountOf(entries, kind, i)], entries[i])
    {
      var j := CountOf(entries, kind, i);
      CountGrows(entries, kind, i, n);
      assert levels[j] == levels[..count][j] && side[j] == side[..count][j];
    }
  }

  ghost predicate IsLastTrade(entries: seq<Entry>, i: nat)
    requires i < |entries|
  {
    entries[i].kind == '2' && forall j | i < j < |entries| :: entries[j].kind != '2'
  }

  /** The price of the last trade among the entries, zero without one. */
  ghost predicate LastTradeIs(entries: seq<Entry>, px: real) {
    && (forall i | 0 <= i < |entries| && IsLastTrade(entries, i) ::
          px == if entries[i].px.Some? then entries[i].px.value else 0.0)
    && ((forall i | 0 <= i < |entries| :: entries[i].kind != '2') ==> px == 0.0)
  }

  lemma {:induction false} LastTradeHolds(entries: seq<Entry>)
    ensures LastTradeIs(entries, LastTrade(entries))
  {
    if entries != [] {
      var n := |entries| - 1;
      var init := entries[..n];
      LastTradeHolds(init);
      if entries[n].kind != '2' {
        forall i | 0 <= i < |entries| && IsLastTrade(entries, i)
          ensures LastTrade(entries) == if entries[i].px.Some? then entries[i].px.value else 0.0
        {
          assert init[i] == entries[i] && IsLastTrade(init, i);
        }
      }
    }
  }

  /** The decoding loop with its two cursors. */
  method DecodeEntries(entries: seq<Entry>)
    returns (bids: seq<Level>, nBids: nat, asks: seq<Level>, nAsks: nat, lastPx: real)
    ensures FirstFive(SideLevels(entries, '0'), bids, nBids)
    ensures FirstFive(SideLevels(entries, '1'), asks, nAsks)
    ensures lastPx == LastTrade(entries)
    ensures SideOf(entries, '0', bids, nBids) && SideOf(entries, '1', asks, nAsks) && LastTradeIs(entries, lastPx)
  {
    bids, nBids := seq(DEPTH, _ => EMPTY_LEVEL), 0;
    asks, nAsks, lastPx := bids, 0, 0.0;
    for i := 0 to |entries|
      invariant FirstFive(SideLevels(entries[..i], '0'), bids, nBids)
      invariant FirstFive(SideLevels(entries[..i], '1'), asks, nAsks)
      invariant lastPx == LastTrade(entries[..i])
    {
      var e := entries[i];
      assert entries[..i + 1][..i] == entries[..i];
      FillNext(SideLevels(entries[..i], '0'), bids, nBids, LevelOf(e));
      FillNext(SideLevels(entries[..i], '1'), asks, nAsks, LevelOf(e));
      if e.kind == '0' && nBids < DEPTH {
        bids, nBids := bids[nBids := LevelOf(e)], nBids + 1;
      } else if e.kind == '1' && nAsks < DEPTH {
        asks, nAsks := asks[nAsks := LevelOf(e)], nAsks + 1;
      } else if e.kind == '2' {
        lastPx := Price(e);
      }
    }
    assert entries[..|entries|] == entries;
    FirstFiveIsSide(entries, '0', bids, nBids);
    FirstFiveIsSide(entries, '1', asks, nAsks);
    LastTradeHolds(entries);
  }

  /** `symbol_id`: the first symbol of that name, `None` for UINT32_MAX. */
  method SymbolId(symbols: seq<string>, name: string) returns (id: Option<nat>)
    ensures id == FirstNamed(symbols, name, 0)
  {
    for i := 0 to |symbols|
      invariant FirstNamed(symbols, name, 0) == FirstNamed(symbols, name, i)
    {
      if symbols[i] == name {
        return Some(i);
      }
    }
    return None;
  }

  function FirstNamed(symbols: seq<string>, name: string, from: nat): (id: Option<nat>)
    requires from <= |symbols|
    ensures id.Some? ==> from <= id.value < |symbols| && symbols[id.value] == name
    ensures forall j | from <= j < (if id.Some? then id.value else |symbols|) :: symbols[j] != name
    decreases |symbols| - from
  {
    if from == |symbols| then None
    else if symbols[from] == name then Some(from)
    else FirstNamed(symbols, name, from + 1)
  }

  datatype SnapshotMessage = SnapshotMessage(symbol: string, entries: seq<Entry>)

  /** `ev` is what the decoder makes of message `m` when it is the `n`-th one received. */
  ghost predicate Decoded(symbols: seq<string>, m: SnapshotMessage, n: nat, ev: MdEvent) {
    && FirstNamed(symbols, m.symbol, 0) == Some(ev.sym) && ev.seqNum == n
    && FirstFive(SideLevels(m.entries, '0'), ev.bids, ev.nBids)
    && FirstFive(SideLevels(m.entries, '1'), ev.asks, ev.nAsks)
    && ev.lastPx == LastTrade(m.entries)
  }

  /** The event for a message of a known symbol. */
  method DecodeMessage(symbols: seq<string>, m: SnapshotMessage, sym: nat, n: nat, now: int) returns (e: MdEvent)
    requires FirstNamed(symbols, m.symbol, 0) == Some(sym)
    ensures Decoded(symbols, m, n, e) && e.tRecv == now
  {
    var bids, nBids, asks, nAsks, lastPx := DecodeEntries(m.entries);
    e := MdEvent(now, sym, n, bids, nBids, asks, nAsks, lastPx);
  }

  /** The event carries the symbol's first position, the prices and sizes of the entries, and the last trade price. */
  lemma DecodedShows(symbols: seq<string>, m: SnapshotMessage, n: nat, ev: MdEvent)
    requires Decoded(symbols, m, n, ev)
    ensures ev.sym < |symbols| && symbols[ev.sym] == m.symbol && forall j | 0 <= j < ev.sym :: symbols[j] != m.symbol
    ensures ev.seqNum == n && LastTradeIs(m.entries, ev.lastPx)
    ensures SideOf(m.entries, '0', ev.bids, ev.nBids) && SideOf(m.entries, '1', ev.asks, ev.nAsks)
  {
    FirstFiveIsSide(m.entries, '0', ev.bids, ev.nBids);
    FirstFiveIsSide(m.entries, '1', ev.asks, ev.nAsks);
    LastTradeHolds(m.entries);
  }

  /** A message has one decoding, up to its receive time. */
  lemma DecodedIsUnique(symbols: seq<string>, m: SnapshotMessage, n: nat, ev: MdEvent, ev': MdEvent)
    requires Decoded(symbols, m, n, ev) && Decoded(symbols, m, n, ev')
    ensures ev' == ev.(tRecv := ev'.tRecv)
  {
    FirstFiveIsUnique(SideLevels(m.entries, '0'), ev.bids, ev'.bids, ev.nBids);
    FirstFiveIsUnique(SideLevels(m.entries, '1'), ev.asks, ev'.asks, ev.nAsks);
  }

  lemma FirstFiveIsUnique(side: seq<Level>, a: seq<Level>, b: seq<Level>, n: nat)
    requires FirstFive(side, a, n) && FirstFive(side, b, n)
    ensures a == b
  {
    forall i | 0 <= i < DEPTH ensures a[i] == b[i] {
      if i < n {
        assert a[i] == a[..n][i] && b[i] == b[..n][i];
      }
    }
  }

  // --------------------------------- the book ---------------------------------

  datatype BookView = BookView(bids: seq<Level>, nBids: nat, asks: seq<Level>, nAsks: nat, updated: int, seqNum: nat)

  function NoBook(): BookView {
    BookView(seq(DEPTH, _ => EMPTY_LEVEL), 0, seq(DEPTH, _ => EMPTY_LEVEL), 0, 0, 0)
  }

  /** A count beyond the depth limit becomes the limit, truncated to 16 bits. */
  function Clip(n: nat, maxDepth: int): nat {
    if n > maxDepth then maxDepth % 0x1_0000 else n
  }

  /** The book a snapshot leaves behind: its arrays whole, its counts clipped. */
  function Projection(e: MdEvent, maxDepth: int): BookView {
    BookView(e.bids, Clip(e.nBids, maxDepth), e.asks, Clip(e.nAsks, maxDepth), e.tRecv, e.seqNum)
  }

  class OrderBook {
    const bids: array<Level>
    const asks: array<Level>
    var nBids: nat
    var nAsks: nat
    var updated: int
    var seqNum: nat

    ghost predicate Valid() {
      bids.Length == DEPTH && asks.Length == DEPTH && bids != asks
    }

    ghost function View(): BookView
      reads this, bids, asks
    {
      BookView(bids[..], nBids, asks[..], nAsks, updated, seqNum)
    }

    constructor ()
      ensures Valid() && View() == NoBook() && fresh(bids) && fresh(asks)
    {
      bids := new Level[DEPTH](_ => EMPTY_LEVEL);
      asks := new Level[DEPTH](_ => EMPTY_LEVEL);
      nBids, nAsks, updated, seqNum := 0, 0, 0, 0;
      new;
      assert bids[..] == NoBook().bids && asks[..] == NoBook().asks;
    }

    method ApplySnapshot(e: MdEvent, maxDepth: int)
      requires Valid() && |e.bids| == DEPTH && |e.asks| == DEPTH
      modifies this, bids, asks
      ensures View() == Projection(e, maxDepth)
      ensures bids[..] == e.bids && asks[..] == e.asks && updated == e.tRecv && seqNum == e.seqNum
      ensures nBids == (if e.nBids <= maxDepth then e.nBids else maxDepth % 65536)
      ensures nAsks == (if e.nAsks <= maxDepth then e.nAsks else maxDepth % 65536)
    {
      nBids := Clip(e.nBids, maxDepth);
      nAsks := Clip(e.nAsks, maxDepth);
      forall i | 0 <= i < DEPTH {
        bids[i] := e.bids[i];
      }
      forall i | 0 <= i < DEPTH {
        asks[i] := e.asks[i];
      }
      updated, seqNum := e.tRecv, e.seqNum;
      assert bids[..] == e.bids && asks[..] == e.asks;
    }
  }

  // ------------------------------- over a run -------------------------------

  /** The strategy's books after popping `events`, one book a symbol. */
  function BooksAfter(events: seq<MdEvent>, maxDepth: int): map<nat, BookView> {
    if events == [] then map[]
    else
      var last := events[|events| - 1];
      BooksAfter(events[..|events| - 1], maxDepth)[last.sym := Projection(last, maxDepth)]
  }

  /** What the ring accepted. */
  function Delivered<T>(events: seq<T>, accepted: seq<bool>): seq<T>
    requires |accepted| == |events|
  {
    if events == [] then []
    else
      var n := |events| - 1;
      Delivered(events[..n], accepted[..n]) + (if accepted[n] then [events[n]] else [])
  }

  /** `k` is the last of `events` for symbol `s`. */
  ghost predicate LastFor(events: seq<MdEvent>, s: nat, k: nat) {
    k < |events| && events[k].sym == s && forall j | k < j < |events| :: events[j].sym != s
  }

  /** Every book is the clipped projection of the last snapshot popped for its symbol, and nothing else. */
  lemma {:induction false} BookIsLastSnapshot(events: seq<MdEvent>, maxDepth: int, s: nat)
    ensures s in BooksAfter(events, maxDepth) <==> exists k: nat :: LastFor(events, s, k)
    ensures forall k: nat | LastFor(events, s, k) :: BookOf(events, maxDepth, s, k)
  {
    if events != [] {
      var n := |events| - 1;
      var init := events[..n];
      BookIsLastSnapshot(init, maxDepth, s);
      if events[n].sym == s {
        assert LastFor(events, s, n);
      } else {
        forall k: nat | LastFor(events, s, k) ensures BookOf(events, maxDepth, s, k) {
          assert LastFor(init, s, k) && BookOf(init, maxDepth, s, k);
        }
        if k: nat :| LastFor(init, s, k) {
          assert LastFor(events, s, k);
        }
      }
    }
  }

  ghost predicate BookOf(events: seq<MdEvent>, maxDepth: int, s: nat, k: nat) {
    k < |events| && s in BooksAfter(events, maxDepth)
      && BooksAfter(events, maxDepth)[s] == Projection(events[k], maxDepth)
  }

  /** `b` shows the first `maxDepth` levels of each side of `m`. */
  ghost predicate Shows(b: BookView, m: SnapshotMessage, maxDepth: nat) {
    var bids, asks := SideLevels(m.entries, '0'), SideLevels(m.entries, '1');
    && b.nBids == (if |bids| < maxDepth then |bids| else maxDepth) <= |b.bids| && b.bids[..b.nBids] == bids[..b.nBids]
    && b.nAsks == (if |asks| < maxDepth then |asks| else maxDepth) <= |b.asks| && b.asks[..b.nAsks] == asks[..b.nAsks]
  }

  /** `b` shows, level by level, the prices and sizes of the first `maxDepth` entries of each side of `m`. */
  ghost predicate ShowsEntries(b: BookView, m: SnapshotMessage, maxDepth: nat) {
    var n := |m.entries|;
    var bids, asks := CountOf(m.entries, '0', n), CountOf(m.entries, '1', n);
    && b.nBids == (if bids < maxDepth then bids else maxDepth) && LevelsShow(m.entries, '0', n, b.bids, maxDepth)
    && b.nAsks == (if asks < maxDepth then asks else maxDepth) && LevelsShow(m.entries, '1', n, b.asks, maxDepth)
  }

  lemma EntriesReachBook(symbols: seq<string>, m: SnapshotMessage, n: nat, ev: MdEvent, maxDepth: int)
    requires Decoded(symbols, m, n, ev) && 1 <= maxDepth <= DEPTH
    ensures ShowsEntries(Projection(ev, maxDepth), m, maxDepth)
  {
    DecodedShows(symbols, m, n, ev);
    ClippedSide(m.entries, '0', ev.bids, ev.nBids, maxDepth);
    ClippedSide(m.entries, '1', ev.asks, ev.nAsks, maxDepth);
  }

  lemma ClippedSide(entries: seq<Entry>, kind: char, levels: seq<Level>, count: nat, maxDepth: nat)
    requires SideOf(entries, kind, levels, count) && 1 <= maxDepth <= 5
    ensures var n := CountOf(entries, kind, |entries|); Clip(count, maxDepth) == if n < maxDepth then n else maxDepth
    ensures LevelsShow(entries, kind, |entries|, levels, maxDepth)
  {
  }

  /** What reaches the top of the book: the first bid and the first offer of that message. */
  lemma BestOfMessage(symbols: seq<string>, m: SnapshotMessage, n: nat, ev: MdEvent, maxDepth: int)
    requires Decoded(symbols, m, n, ev) && 1 <= maxDepth <= DEPTH
    ensures Shows(Projection(ev, maxDepth), m, maxDepth)
  {
    var b := Projection(ev, maxDepth);
    Shorter(SideLevels(m.entries, '0'), ev.bids, ev.nBids, b.nBids);
    Shorter(SideLevels(m.entries, '1'), ev.asks, ev.nAsks, b.nAsks);
  }

  lemma Shorter(side: seq<Level>, filled: seq<Level>, n: nat, k: nat)
    requires FirstFive(side, filled, n) && k <= n
    ensures filled[..k] == side[..k]
  {
    assert filled[..k] == filled[..n][..k] && side[..k] == side[..n][..k];
  }

  /** The uint32 number of the message received after `before` others. */
  function Number(before: nat): nat {
    (before + 1) % 0x1_0000_0000
  }

  /** Numbers tell newer from older exactly while there are fewer than 2^32 messages. */
  lemma NumbersGrowIffFew(n: nat)
    ensures (forall i, j | 0 <= i < j < n :: Number(i) < Number(j)) <==> n < 0x1_0000_0000
    ensures Number(0) == 1 && Number(0xffff_fffe) == 0xffff_ffff && Number(0xffff_ffff) == 0
  {
    if n >= 0x1_0000_0000 {
      assert Number(0) == 1 && Number(0xffff_ffff) == 0;
    }
  }

  /** An event together with how many messages had come before the one it was decoded from. */
  datatype Sourced = Sourced(ev: MdEvent, at: nat)

  function Stream(xs: seq<Sourced>): seq<MdEvent> {
    seq(|xs|, i requires 0 <= i < |xs| => xs[i].ev)
  }

  /** Each event is the decoding of its message, in the order of arrival. */
  ghost predicate FromMessages(symbols: seq<string>, msgs: seq<SnapshotMessage>, xs: seq<Sourced>) {
    && (forall k | 0 <= k < |xs| :: Source(symbols, msgs, xs[k]))
    && (forall j, k | 0 <= j < k < |xs| :: xs[j].at < xs[k].at)
  }

  ghost predicate Source(symbols: seq<string>, msgs: seq<SnapshotMessage>, x: Sourced) {
    x.at < |msgs| && Decoded(symbols, msgs[x.at], Number(x.at), x.ev)
  }

  /** The decoding side; `received` and `produced` record the run. */
  class Feed {
    const symbols: seq<string>
    var mdSeq: nat
    ghost var received: seq<SnapshotMessage>
    ghost var produced: seq<Sourced>

    ghost predicate Valid()
      reads this
    {
      mdSeq == |received| % 0x1_0000_0000 && FromMessages(symbols, received, produced)
    }

    constructor (symbols: seq<string>)
      ensures Valid() && this.symbols == symbols && received == [] && produced == []
    {
      this.symbols, mdSeq, received, produced := symbols, 0, [], [];
    }

    /** Market data message to event; the sequence number advances even for a foreign symbol, and wraps at 2^32. */
    method OnSnapshot(m: SnapshotMessage, now: int) returns (ev: Option<MdEvent>)
      requires Valid()
      modifies this
      ensures Valid() && received == old(received) + [m]
      ensures ev.None? <==> m.symbol !in symbols
      ensures ev.None? ==> produced == old(produced)
      ensures ev.Some? ==> produced == old(produced) + [Sourced(ev.value, |old(received)|)]
      ensures ev.Some? ==> Source(symbols, received, Sourced(ev.value, |old(received)|)) && ev.value.tRecv == now
    {
      ghost var before := received;
      mdSeq := (mdSeq + 1) % 0x1_0000_0000;
      ghost var at := |received|;
      received := received + [m];
      MoreMessages(symbols, before, produced, m);
      var id := SymbolId(symbols, m.symbol);
      if id.None? {
        return None;
      }
      var e := DecodeMessage(symbols, m, id.value, mdSeq, now);
      NextSourced(symbols, before, m, produced, Sourced(e, at));
      produced := produced + [Sourced(e, at)];
      return Some(e);
    }
  }

  lemma MoreMessages(symbols: seq<string>, msgs: seq<SnapshotMessage>, xs: seq<Sourced>, m: SnapshotMessage)
    requires FromMessages(symbols, msgs, xs)
    ensures FromMessages(symbols, msgs + [m], xs)
    ensures forall x | x in xs :: x.at < |msgs|
  {
    forall k | 0 <= k < |xs| ensures Source(symbols, msgs + [m], xs[k]) {
      assert Source(symbols, msgs, xs[k]);
    }
  }

  lemma {:induction false} DeliveredIsAmong<T>(events: seq<T>, accepted: seq<bool>)
    requires |accepted| == |events|
    ensures forall e | e in Delivered(events, accepted) :: e in events
  {
    if events != [] {
      DeliveredIsAmong(events[..|events| - 1], accepted[..|events| - 1]);
    }
  }

  lemma {:induction false} DroppingKeepsSource(symbols: seq<string>, msgs: seq<SnapshotMessage>, xs: seq<Sourced>,
                                               accepted: seq<bool>)
    requires |accepted| == |xs| && FromMessages(symbols, msgs, xs)
    ensures FromMessages(symbols, msgs, Delivered(xs, accepted))
  {
    if xs != [] {
      var n := |xs| - 1;
      var init := xs[..n];
      DroppingKeepsSource(symbols, msgs, init, accepted[..n]);
      DeliveredIsAmong(init, accepted[..n]);
      var before := Delivered(init, accepted[..n]);
      forall x | x in before ensures x.at < xs[n].at {
        assert x in init;
      }
      SourceSnoc(symbols, msgs, before, xs[n]);
      assert before + [] == before;
    }
  }

  lemma SourceSnoc(symbols: seq<string>, msgs: seq<SnapshotMessage>, before: seq<Sourced>, x: Sourced)
    requires FromMessages(symbols, msgs, before) && Source(symbols, msgs, x)
    requires forall y | y in before :: y.at < x.at
    ensures FromMessages(symbols, msgs, before + [x])
  {
  }

  lemma NextSourced(symbols: seq<string>, msgs: seq<SnapshotMessage>, m: SnapshotMessage, xs: seq<Sourced>, x: Sourced)
    requires FromMessages(symbols, msgs, xs) && Source(symbols, msgs + [m], x) && x.at == |msgs|
    ensures FromMessages(symbols, msgs + [m], xs + [x])
  {
    MoreMessages(symbols, msgs, xs, m);
    SourceSnoc(symbols, msgs + [m], xs, x);
  }

  lemma PrefixKeepsSource(symbols: seq<string>, msgs: seq<SnapshotMessage>, popped: seq<Sourced>, all: seq<Sourced>)
    requires FromMessages(symbols, msgs, all) && popped <= all
    ensures FromMessages(symbols, msgs, popped)
  {
    assert forall i | 0 <= i < |popped| :: popped[i] == all[i];
  }

  /**
   The book agrees with the feed. Whatever the ring drops, and however far the
   strategy has popped: the book of a symbol shows the first levels, in message
   order, of a message received for that very symbol, and no snapshot popped for
   it came in later.
   */
  lemma BookAgreesWithFeed(symbols: seq<string>, msgs: seq<SnapshotMessage>, produced: seq<Sourced>,
                           accepted: seq<bool>, popped: seq<Sourced>, maxDepth: int, s: nat) returns (last: Sourced)
    requires |accepted| == |produced| && FromMessages(symbols, msgs, produced)
      && popped <= Delivered(produced, accepted)
    requires 1 <= maxDepth <= DEPTH && s in BooksAfter(Stream(popped), maxDepth)
    ensures BooksAfter(Stream(popped), maxDepth)[s] == Projection(last.ev, maxDepth)
    ensures last in popped && last.at < |msgs| && s < |symbols| && msgs[last.at].symbol == symbols[s]
    ensures Shows(BooksAfter(Stream(popped), maxDepth)[s], msgs[last.at], maxDepth)
    ensures ShowsEntries(BooksAfter(Stream(popped), maxDepth)[s], msgs[last.at], maxDepth)
    ensures LastTradeIs(msgs[last.at].entries, last.ev.lastPx)
    ensures forall x | x in popped && x.ev.sym == s :: x.at <= last.at
  {
    DroppingKeepsSource(symbols, msgs, produced, accepted);
    PrefixKeepsSource(symbols, msgs, popped, Delivered(produced, accepted));
    BookIsLastSnapshot(Stream(popped), maxDepth, s);
    var k: nat :| LastFor(Stream(popped), s, k);
    assert BookOf(Stream(popped), maxDepth, s, k);
    last := popped[k];
    LastShown(symbols, msgs, popped, maxDepth, s, k);
    EntriesShown(symbols, msgs, popped, maxDepth, k);
  }

  lemma EntriesShown(symbols: seq<string>, msgs: seq<SnapshotMessage>, popped: seq<Sourced>, maxDepth: int, k: nat)
    requires FromMessages(symbols, msgs, popped) && 1 <= maxDepth <= DEPTH && k < |popped|
    ensures var x := popped[k];
      && x.at < |msgs| && ShowsEntries(Projection(x.ev, maxDepth), msgs[x.at], maxDepth)
      && LastTradeIs(msgs[x.at].entries, x.ev.lastPx)
  {
    var x := popped[k];
    assert Source(symbols, msgs, x);
    EntriesReachBook(symbols, msgs[x.at], Number(x.at), x.ev, maxDepth);
    DecodedShows(symbols, msgs[x.at], Number(x.at), x.ev);
  }

  lemma LastShown(symbols: seq<string>, msgs: seq<SnapshotMessage>, popped: seq<Sourced>, maxDepth: int, s: nat, k: nat)
    requires FromMessages(symbols, msgs, popped) && 1 <= maxDepth <= DEPTH && LastFor(Stream(popped), s, k)
    ensures var x := popped[k];
      && x.at < |msgs| && s < |symbols| && msgs[x.at].symbol == symbols[s]
      && Shows(Projection(x.ev, maxDepth), msgs[x.at], maxDepth)
      && (forall y | y in popped && y.ev.sym == s :: y.at <= x.at)
  {
    var x := popped[k];
    assert Source(symbols, msgs, x);
    BestOfMessage(symbols, msgs[x.at], Number(x.at), x.ev, maxDepth);
    forall y | y in popped && y.ev.sym == s ensures y.at <= x.at {
      var j :| 0 <= j < |popped| && popped[j] == y;
      assert Stream(popped)[j] == y.ev;
    }
  }
}
