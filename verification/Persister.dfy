/**
 The persister: batches of popped records written under zero-padded keys. The
 database is a map keyed by byte strings; writes and commits succeed, only
 opening a transaction may fail.
 */
module Persister {
  import opened Decimal
  import opened BookFeed
  import opened Events

  datatype BookSnapshot = BookSnapshot(t: int, sym: nat, bids: seq<Level>, nBids: nat, asks: seq<Level>, nAsks: nat)

  datatype Record = Book(snap: BookSnapshot) | Trade(exec: ExecEvent)

  function BookKey(sym: nat, n: nat): string {
    "ob|" + (Print(sym) + ("|" + PrintPadded(n, 10)))
  }

  function TradeKey(n: nat): string {
    "tr|" + PrintPadded(n, 10)
  }

  // ---------------------------------- keys ----------------------------------

  lemma BookKeyIsInjective(sym: nat, n: nat, sym': nat, n': nat)
    requires BookKey(sym, n) == BookKey(sym', n')
    ensures sym == sym' && n == n'
  {
    var rest, rest' := "|" + PrintPadded(n, 10), "|" + PrintPadded(n', 10);
    assert BookKey(sym, n)[3..] == Print(sym) + rest && BookKey(sym', n')[3..] == Print(sym') + rest';
    ReadPrinted(sym, rest, 0);
    ReadPrinted(sym', rest', 0);
    assert rest[0] == '|' && rest'[0] == '|';
    assert (Print(sym) + rest)[|Print(sym)|..] == rest && (Print(sym) + rest')[|Print(sym)|..] == rest';
    assert rest[1..] == PrintPadded(n, 10) && rest'[1..] == PrintPadded(n', 10);
    PaddedIsInjective(n, n', 10);
  }

  lemma TradeKeyIsInjective(n: nat, n': nat)
    requires TradeKey(n) == TradeKey(n')
    ensures n == n'
  {
    assert TradeKey(n)[3..] == PrintPadded(n, 10) && TradeKey(n')[3..] == PrintPadded(n', 10);
    PaddedIsInjective(n, n', 10);
  }

  /**
   What a reader finds in the key of a snapshot: `ob|`, the symbol in decimal, a
   bar, and the position in decimal with zeros in front up to ten digits.
   */
  lemma BookKeyReads(sym: nat, n: nat) returns (a: string, b: string)
    ensures BookKey(sym, n) == ['o', 'b', '|'] + a + ['|'] + b
    ensures IsNumeral(a) && ReadDigits(a, 0) == sym && (a[0] == '0' <==> sym == 0)
    ensures TenDigits(b, n)
  {
    a, b := Print(sym), PrintPadded(n, 10);
    PrintsNumeral(sym);
    PrintsNumeral(n);
    PadsWithZeros(n, 10);
    assert "ob|" + (a + ("|" + b)) == ['o', 'b', '|'] + a + ['|'] + b;
  }

  /** A numeral of at least ten digits, with leading zeros only to reach ten. */
  ghost predicate TenDigits(s: string, n: nat) {
    IsNumeral(s) && ReadDigits(s, 0) == n && |s| >= 10 && (|s| > 10 ==> s[0] != '0')
  }

  /** And in the key of a trade: `tr|` and the position. */
  lemma TradeKeyReads(n: nat) returns (b: string)
    ensures TradeKey(n) == ['t', 'r', '|'] + b && TenDigits(b, n)
  {
    b := PrintPadded(n, 10);
    PrintsNumeral(n);
    PadsWithZeros(n, 10);
    assert "tr|" + b == ['t', 'r', '|'] + b;
  }

  lemma KindsDiffer(sym: nat, n: nat, n': nat)
    ensures BookKey(sym, n) != TradeKey(n')
  {
    assert BookKey(sym, n)[0] == 'o' && TradeKey(n')[0] == 't';
  }

  lemma {:induction false} LexPrefix(p: string, a: string, b: string)
    ensures LexLess(p + a, p + b) <==> LexLess(a, b)
  {
    if p == [] {
      assert p + a == a && p + b == b;
    } else {
      assert (p + a)[1..] == p[1..] + a && (p + b)[1..] == p[1..] + b;
      LexPrefix(p[1..], a, b);
    }
  }

  lemma {:induction false} PrintMono(n: nat, m: nat)
    requires n <= m
    ensures |Print(n)| <= |Print(m)|
  {
    if m >= 10 && n >= 10 {
      PrintMono(n / 10, m / 10);
    }
  }

  lemma {:induction false} PrintFits(n: nat)
    ensures n < Pow10(|Print(n)|)
  {
    if n >= 10 {
      PrintFits(n / 10);
    }
  }

  lemma {:induction false} Pow10Mono(a: nat, b: nat)
    requires a <= b
    ensures Pow10(a) <= Pow10(b)
  {
    if a < b {
      Pow10Mono(a, b - 1);
    }
  }

  /** A padded number is its own fixed-width text. */
  lemma PaddedIsOwnWidth(n: nat, w: nat)
    requires w >= 1
    ensures var s := PrintPadded(n, w);
      |s| == (if |Print(n)| < w then w else |Print(n)|) && s == Fixed(n, |s|) && n < Pow10(|s|)
  {
    var width := if |Print(n)| < w then w else |Print(n)|;
    PrintFits(n);
    Pow10Mono(|Print(n)|, width);
    PaddedIsFixed(n, width);
  }

  lemma {:induction false} FixedSplits(n: nat, w: nat, k: nat) returns (tail: string)
    ensures |tail| == k && Fixed(n, w + k) == Fixed(Shorten(n, k), w) + tail
    decreases k
  {
    if k == 0 {
      tail := "";
      assert Fixed(n, w) + "" == Fixed(n, w);
    } else {
      var t := FixedSplits(n / 10, w, k - 1);
      tail := t + [Digit(n % 10)];
      assert Fixed(Shorten(n, k), w) + t + [Digit(n % 10)] == Fixed(Shorten(n, k), w) + tail;
    }
  }

  lemma {:induction false} ShortenFits(n: nat, w: nat, k: nat)
    requires n < Pow10(w + k)
    ensures Shorten(n, k) < Pow10(w)
    decreases k
  {
    if k > 0 {
      ShortenFits(n / 10, w, k - 1);
    }
  }

  /** By how many digits the second number is longer. */
  function Excess(n: nat, m: nat): nat
    requires n <= m
  {
    PrintMono(n, m);
    |PrintPadded(m, 10)| - |PrintPadded(n, 10)|
  }

  lemma LongerOrder(n: nat, m: nat, w: nat, k: nat)
    requires n < Pow10(w) && m < Pow10(w + k) && k > 0
    ensures LexLess(Fixed(n, w), Fixed(m, w + k)) <==> n <= Shorten(m, k)
  {
    var tail := FixedSplits(m, w, k);
    ShortenFits(m, w, k);
    FixedOrder(n, Shorten(m, k), w);
    LexExtend(Fixed(n, w), Fixed(Shorten(m, k), w), tail);
  }

  /** The exact byte order of two padded numbers of possibly different length. */
  lemma PaddedOrder(n: nat, m: nat)
    requires n < m
    ensures LexLess(PrintPadded(n, 10), PrintPadded(m, 10)) <==> Excess(n, m) == 0 || n <= Shorten(m, Excess(n, m))
  {
    PaddedIsOwnWidth(n, 10);
    PaddedIsOwnWidth(m, 10);
    OwnWidthOrder(n, m, PrintPadded(n, 10), PrintPadded(m, 10), Excess(n, m));
  }

  lemma OwnWidthOrder(n: nat, m: nat, a: string, b: string, k: nat)
    requires n < m && a == Fixed(n, |a|) && b == Fixed(m, |b|) && n < Pow10(|a|) && m < Pow10(|b|) && |b| == |a| + k
    ensures LexLess(a, b) <==> k == 0 || n <= Shorten(m, k)
  {
    if k == 0 {
      FixedOrder(n, m, |a|);
    } else {
      LongerOrder(n, m, |a|, k);
    }
  }

  const TEN_DIGITS: nat := 10_000_000_000

  lemma Pow10Of10()
    ensures Pow10(10) == TEN_DIGITS
  {
    assert Pow10(5) == 100_000;
    assert Pow10(10) == 100_000 * Pow10(5);
  }

  ghost predicate KeysInOrder(sym: nat, n: nat, m: nat) {
    LexLess(BookKey(sym, n), BookKey(sym, m)) && LexLess(TradeKey(n), TradeKey(m))
  }

  /** Byte order of the keys is push order for all sequence numbers below `bound` exactly when they have ten digits. */
  lemma KeyOrderIsPushOrder(sym: nat, bound: nat)
    ensures (forall n, m | 0 <= n < m < bound :: KeysInOrder(sym, n, m)) <==> bound <= TEN_DIGITS
  {
    if bound <= TEN_DIGITS {
      forall n, m | 0 <= n < m < bound ensures KeysInOrder(sym, n, m) {
        SameWidth(n, m);
        PrefixesDropOut(sym, n, m);
      }
    } else {
      FirstInversion();
      PrefixesDropOut(sym, TEN_DIGITS - 1, TEN_DIGITS);
      assert !KeysInOrder(sym, TEN_DIGITS - 1, TEN_DIGITS);
    }
  }

  lemma SameWidth(n: nat, m: nat)
    requires n < m < TEN_DIGITS
    ensures LexLess(PrintPadded(n, 10), PrintPadded(m, 10))
  {
    Pow10Of10();
    PaddedIsFixed(n, 10);
    PaddedIsFixed(m, 10);
    FixedOrder(n, m, 10);
  }

  lemma FirstInversion()
    ensures !LexLess(PrintPadded(TEN_DIGITS - 1, 10), PrintPadded(TEN_DIGITS, 10))
  {
    Pow10Of10();
    PaddedIsFixed(TEN_DIGITS - 1, 10);
    PaddedIsOwnWidth(TEN_DIGITS, 10);
    PaddedOrder(TEN_DIGITS - 1, TEN_DIGITS);
    ElevenDigits();
  }

  lemma ElevenDigits()
    ensures |Print(TEN_DIGITS)| == 11 && Shorten(TEN_DIGITS, 1) == 1_000_000_000
  {
    assert |Print(100_000)| == 6;
    assert |Print(TEN_DIGITS)| == 5 + |Print(100_000)|;
  }

  lemma PrefixesDropOut(sym: nat, n: nat, m: nat)
    ensures KeysInOrder(sym, n, m) <==> LexLess(PrintPadded(n, 10), PrintPadded(m, 10))
  {
    var a, b := PrintPadded(n, 10), PrintPadded(m, 10);
    LexPrefix("tr|", a, b);
    LexPrefix("ob|", Print(sym) + ("|" + a), Print(sym) + ("|" + b));
    LexPrefix(Print(sym), "|" + a, "|" + b);
    LexPrefix("|", a, b);
  }

  // --------------------------------- contents ---------------------------------

  /** What the snapshots kept so far have written. */
  function BookMap(kept: seq<BookSnapshot>): map<string, Record> {
    if kept == [] then map[]
    else
      var n := |kept| - 1;
      BookMap(kept[..n])[BookKey(kept[n].sym, n) := Book(kept[n])]
  }

  function TradeMap(kept: seq<ExecEvent>): map<string, Record> {
    if kept == [] then map[]
    else
      var n := |kept| - 1;
      TradeMap(kept[..n])[TradeKey(n) := Trade(kept[n])]
  }

  lemma NewBookKey(kept: seq<BookSnapshot>)
    requires kept != []
    ensures forall sym, i: nat | BookKey(sym, i) == BookKey(kept[|kept| - 1].sym, |kept| - 1) ::
      sym == kept[|kept| - 1].sym && i == |kept| - 1
  {
    var n := |kept| - 1;
    forall sym, i: nat ensures BookKey(sym, i) == BookKey(kept[n].sym, n) ==> sym == kept[n].sym && i == n {
      if BookKey(sym, i) == BookKey(kept[n].sym, n) {
        BookKeyIsInjective(sym, i, kept[n].sym, n);
      }
    }
  }

  /** The keys in use are exactly those of the kept snapshots. */
  lemma {:induction false} BookKeysInUse(kept: seq<BookSnapshot>, sym: nat, i: nat)
    ensures BookKey(sym, i) in BookMap(kept) <==> i < |kept| && kept[i].sym == sym
    ensures i < |kept| && kept[i].sym == sym ==> BookMap(kept)[BookKey(sym, i)] == Book(kept[i])
  {
    if kept != [] {
      BookKeysInUse(kept[..|kept| - 1], sym, i);
      NewBookKey(kept);
    }
  }

  lemma {:induction false} OnlyBookKeys(kept: seq<BookSnapshot>)
    ensures forall k | k in BookMap(kept) :: exists sym, i: nat :: BookKey(sym, i) == k
    ensures |BookMap(kept)| == |kept|
  {
    if kept != [] {
      var n := |kept| - 1;
      OnlyBookKeys(kept[..n]);
      BookKeysInUse(kept[..n], kept[n].sym, n);
    }
  }

  /** Every kept snapshot is stored once, under its own key, and there is nothing else. */
  lemma EachBookOnce(kept: seq<BookSnapshot>)
    ensures forall sym, i: nat :: BookKey(sym, i) in BookMap(kept) <==> i < |kept| && kept[i].sym == sym
    ensures forall i | 0 <= i < |kept| :: BookMap(kept)[BookKey(kept[i].sym, i)] == Book(kept[i])
    ensures forall k | k in BookMap(kept) :: exists sym, i: nat :: BookKey(sym, i) == k
    ensures |BookMap(kept)| == |kept|
  {
    forall sym, i: nat
      ensures BookKey(sym, i) in BookMap(kept) <==> i < |kept| && kept[i].sym == sym
      ensures i < |kept| && kept[i].sym == sym ==> BookMap(kept)[BookKey(sym, i)] == Book(kept[i])
    {
      BookKeysInUse(kept, sym, i);
    }
    OnlyBookKeys(kept);
  }

  lemma {:induction false} EachTradeOnce(kept: seq<ExecEvent>)
    ensures forall i: nat :: TradeKey(i) in TradeMap(kept) <==> i < |kept|
    ensures forall i | 0 <= i < |kept| :: TradeMap(kept)[TradeKey(i)] == Trade(kept[i])
    ensures forall k | k in TradeMap(kept) :: exists i: nat :: TradeKey(i) == k
    ensures |TradeMap(kept)| == |kept|
  {
    if kept != [] {
      var n := |kept| - 1;
      EachTradeOnce(kept[..n]);
      forall i: nat ensures TradeKey(i) == TradeKey(n) ==> i == n {
        if TradeKey(i) == TradeKey(n) {
          TradeKeyIsInjective(i, n);
        }
      }
    }
  }

  lemma NoBookIsATrade(snaps: seq<BookSnapshot>, trades: seq<ExecEvent>)
    ensures forall sym, i: nat :: BookKey(sym, i) !in TradeMap(trades)
    ensures forall i: nat :: TradeKey(i) !in BookMap(snaps)
  {
    EachBookOnce(snaps);
    EachTradeOnce(trades);
    forall sym, i: nat ensures BookKey(sym, i) !in TradeMap(trades) {
      if BookKey(sym, i) in TradeMap(trades) {
        var j: nat :| TradeKey(j) == BookKey(sym, i);
        KindsDiffer(sym, i, j);
      }
    }
    forall i: nat ensures TradeKey(i) !in BookMap(snaps) {
      if TradeKey(i) in BookMap(snaps) {
        var sym, j: nat :| BookKey(sym, j) == TradeKey(i);
        KindsDiffer(sym, j, i);
      }
    }
  }

  function Contents(db0: map<string, Record>, snaps: seq<BookSnapshot>, trades: seq<ExecEvent>): map<string, Record> {
    db0 + BookMap(snaps) + TradeMap(trades)
  }

  /** The new keys are those of the kept records, and no others. */
  lemma KeysReached(snaps: seq<BookSnapshot>, trades: seq<ExecEvent>, sym: nat, i: nat)
    ensures BookKey(sym, i) in BookMap(snaps) + TradeMap(trades) <==> i < |snaps| && snaps[i].sym == sym
    ensures TradeKey(i) in BookMap(snaps) + TradeMap(trades) <==> i < |trades|
  {
    EachBookOnce(snaps);
    EachTradeOnce(trades);
    NoBookIsATrade(snaps, trades);
  }

  /**
   Sequence numbers restart at zero with the process. On an existing database
   the new run replaces exactly the old records whose key it reaches: a snapshot
   of the same symbol at the same position, and trades by position. Every other
   old record survives.
   */
  lemma RestartOverwrites(db0: map<string, Record>, snaps: seq<BookSnapshot>, trades: seq<ExecEvent>, sym: nat, i: nat)
    ensures BookKey(sym, i) in db0 ==>
      Holds(Contents(db0, snaps, trades), BookKey(sym, i),
            if i < |snaps| && snaps[i].sym == sym then Book(snaps[i]) else db0[BookKey(sym, i)])
    ensures TradeKey(i) in db0 ==>
      Holds(Contents(db0, snaps, trades), TradeKey(i), if i < |trades| then Trade(trades[i]) else db0[TradeKey(i)])
    ensures forall key | key in db0 && key !in BookMap(snaps) && key !in TradeMap(trades) ::
      Holds(Contents(db0, snaps, trades), key, db0[key])
  {
    KeysReached(snaps, trades, sym, i);
    BookKeysInUse(snaps, sym, i);
    EachTradeOnce(trades);
    NoBookIsATrade(snaps, trades);
  }

  lemma WriteBook(db0: map<string, Record>, snaps: seq<BookSnapshot>, trades: seq<ExecEvent>, s: BookSnapshot)
    ensures Contents(db0, snaps, trades)[BookKey(s.sym, |snaps|) := Book(s)] == Contents(db0, snaps + [s], trades)
  {
    assert (snaps + [s])[..|snaps|] == snaps;
    NoBookIsATrade(snaps, trades);
  }

  lemma WriteTrade(db0: map<string, Record>, snaps: seq<BookSnapshot>, trades: seq<ExecEvent>, e: ExecEvent)
    ensures Contents(db0, snaps, trades)[TradeKey(|trades|) := Trade(e)] == Contents(db0, snaps, trades + [e])
  {
    assert (trades + [e])[..|trades|] == trades;
  }

  // ---------------------------------- batches ----------------------------------

  /** Everything a ring ever accepted and, for each record popped so far, whether it was written; the others wait. */
  datatype Lane<T> = Lane(all: seq<T>, fate: seq<bool>)
  {
    ghost predicate Fits() {
      |fate| <= |all|
    }

    /** What is in the ring. */
    ghost function Waits(): seq<T>
      requires Fits()
    {
      all[|fate|..]
    }

    /** What was written, in order. */
    ghost function Kept(): seq<T>
      requires Fits()
    {
      Selected(all, fate)
    }

    function Accept(a: seq<T>): Lane<T> {
      Lane(all + a, fate)
    }

    function Pop(written: bool): Lane<T> {
      Lane(all, fate + [written])
    }
  }

  ghost function Selected<T>(all: seq<T>, fate: seq<bool>): (kept: seq<T>)
    requires |fate| <= |all|
    ensures |kept| + Lost(fate) == |fate|
  {
    if fate == [] then []
    else
      var n := |fate| - 1;
      Selected(all, fate[..n]) + (if fate[n] then [all[n]] else [])
  }

  ghost function Lost(fate: seq<bool>): nat {
    if fate == [] then 0 else Lost(fate[..|fate| - 1]) + (if fate[|fate| - 1] then 0 else 1)
  }

  lemma {:induction false} SelectedPrefix<T>(all: seq<T>, more: seq<T>, fate: seq<bool>)
    requires |fate| <= |all|
    ensures Selected(all + more, fate) == Selected(all, fate)
  {
    if fate != [] {
      SelectedPrefix(all, more, fate[..|fate| - 1]);
    }
  }

  lemma Accepted<T>(l: Lane<T>, a: seq<T>)
    requires l.Fits()
    ensures l.Accept(a).Fits() && l.Accept(a).Waits() == l.Waits() + a && l.Accept(a).Kept() == l.Kept()
  {
    SelectedPrefix(l.all, a, l.fate);
  }

  lemma Popped<T>(l: Lane<T>, written: bool)
    requires l.Fits() && l.Waits() != []
    ensures l.Pop(written).Fits() && l.Pop(written).Waits() == l.Waits()[1..]
    ensures l.Pop(written).Kept() == if written then l.Kept() + [l.Waits()[0]] else l.Kept()
    ensures Lost(l.Pop(written).fate) == Lost(l.fate) + (if written then 0 else 1)
  {
    assert (l.fate + [written])[..|l.fate|] == l.fate && l.all[|l.fate|] == l.Waits()[0];
  }

  /** Nothing was lost exactly when what is kept and what waits is all, in order. */
  lemma {:induction false} KeptIsAll<T>(all: seq<T>, fate: seq<bool>)
    requires |fate| <= |all|
    ensures Selected(all, fate) + all[|fate|..] == all <==> Lost(fate) == 0
    ensures Lost(fate) == 0 ==> Selected(all, fate) == all[..|fate|]
  {
    if fate != [] {
      var n := |fate| - 1;
      KeptIsAll(all, fate[..n]);
      if Lost(fate) == 0 {
        assert all[..n] + [all[n]] == all[..n + 1];
      }
    }
    if Lost(fate) == 0 {
      assert all[..|fate|] + all[|fate|..] == all;
    } else {
      assert |Selected(all, fate) + all[|fate|..]| < |all|;
    }
  }

  /** Records are only ever added at the end, and no fate is revised. */
  ghost predicate Grown<T>(l: Lane<T>, l': Lane<T>) {
    l.Fits() && l'.Fits() && l.all <= l'.all && l.fate <= l'.fate
  }

  lemma GrownTwice<T>(l: Lane<T>, m: Lane<T>, n: Lane<T>)
    requires l.Fits() && m.Fits() && n.Fits() && l.all <= m.all && l.fate <= m.fate && Grown(m, n)
    ensures Grown(l, n)
  {
  }

  /** What was written stays written. */
  lemma {:induction false} KeptGrows<T>(l: Lane<T>, l': Lane<T>)
    requires Grown(l, l')
    ensures l.Kept() <= l'.Kept()
    decreases |l'.fate|
  {
    if l.fate == l'.fate {
      assert l'.all == l.all + l'.all[|l.all|..];
      SelectedPrefix(l.all, l'.all[|l.all|..], l.fate);
    } else {
      KeptGrows(l, Lane(l'.all, l'.fate[..|l'.fate| - 1]));
    }
  }

  // ------------------------------- one drain loop -------------------------------

  function First<T>(pushes: seq<seq<T>>): seq<T> {
    if pushes == [] then [] else pushes[0]
  }

  /** There is something to pop when a loop starts on a ring of this length. */
  predicate Waiting<T>(ring: nat, pushes: seq<seq<T>>) {
    ring + |First(pushes)| > 0
  }

  /**
   What a drain loop makes of its lane: `pushes[i]` arrives before the i-th pop; a
   transaction is begun at the first.
   */
  function Drained<T>(l: Lane<T>, pushes: seq<seq<T>>, i: nat, txn: bool, opens: bool): Lane<T>
    requires |l.fate| <= |l.all|
    decreases if i < |pushes| then |pushes| - i else 0, |l.all| - |l.fate|
  {
    var m := if i < |pushes| then l.Accept(pushes[i]) else l;
    if |m.fate| == |m.all| then m
    else if !txn && !opens then m.Pop(false)
    else Drained(m.Pop(true), pushes, i + 1, true, opens)
  }

  function Arriving<T>(pushes: seq<seq<T>>, i: nat): nat {
    if i < |pushes| then |pushes[i]| else 0
  }

  /** The lane once what arrives has arrived. */
  function Refilled<T>(l: Lane<T>, pushes: seq<seq<T>>, i: nat): Lane<T> {
    if i < |pushes| then l.Accept(pushes[i]) else l
  }

  lemma RefilledWaits<T>(l: Lane<T>, pushes: seq<seq<T>>, i: nat) returns (m: Lane<T>)
    requires l.Fits()
    ensures m == Refilled(l, pushes, i) && m.Fits() && |m.Waits()| == |l.Waits()| + Arriving(pushes, i)
  {
    m := Refilled(l, pushes, i);
  }

  /** One turn of the loop; `more` when a record was written and the loop goes on. */
  ghost predicate Turn<T>(l: Lane<T>, l': Lane<T>, pushes: seq<seq<T>>, i: nat, txn: bool, opens: bool, more: bool)
    requires l.Fits()
  {
    var m := Refilled(l, pushes, i);
    if |m.fate| == |m.all| then l' == m && !more
    else if !txn && !opens then l' == m.Pop(false) && !more
    else l' == m.Pop(true) && more
  }

  /** The lane before every turn, and at the end. */
  ghost predicate Turns<T>(trace: seq<Lane<T>>, pushes: seq<seq<T>>, i: nat, txn: bool, opens: bool) {
    && |trace| >= 2 && (forall k | 0 <= k < |trace| :: trace[k].Fits())
    && forall k | 0 <= k < |trace| - 1 ::
         Turn(trace[k], trace[k + 1], pushes, i + k, txn || k > 0, opens, k < |trace| - 2)
  }

  lemma {:induction false} TurnsOf<T>(l: Lane<T>, pushes: seq<seq<T>>, i: nat, txn: bool, opens: bool)
    returns (trace: seq<Lane<T>>)
    requires l.Fits()
    ensures Turns(trace, pushes, i, txn, opens)
    ensures trace[0] == l && trace[|trace| - 1] == Drained(l, pushes, i, txn, opens)
    decreases if i < |pushes| then |pushes| - i else 0, |l.all| - |l.fate|
  {
    var m := Refilled(l, pushes, i);
    if |m.fate| == |m.all| {
      trace := [l, m];
    } else if !txn && !opens {
      trace := [l, m.Pop(false)];
    } else {
      var rest := TurnsOf(m.Pop(true), pushes, i + 1, true, opens);
      trace := [l] + rest;
      OneMoreTurn(l, rest, pushes, i, txn, opens);
    }
  }

  lemma OneMoreTurn<T>(l: Lane<T>, rest: seq<Lane<T>>, pushes: seq<seq<T>>, i: nat, txn: bool, opens: bool)
    requires l.Fits() && Turns(rest, pushes, i + 1, true, opens) && Turn(l, rest[0], pushes, i, txn, opens, true)
    ensures Turns([l] + rest, pushes, i, txn, opens)
  {
    var trace := [l] + rest;
    forall k | 0 <= k < |trace| - 1
      ensures Turn(trace[k], trace[k + 1], pushes, i + k, txn || k > 0, opens, k < |trace| - 2)
    {
      if k > 0 {
        assert Turn(rest[k - 1], rest[k], pushes, i + 1 + (k - 1), true, opens, k - 1 < |rest| - 2);
      }
    }
  }

  /** The loop has gone on to its second turn exactly if there was something to pop and a transaction for it. */
  lemma FirstTurn<T>(trace: seq<Lane<T>>, pushes: seq<seq<T>>, opens: bool)
    requires Turns(trace, pushes, 0, false, opens)
    ensures |trace| > 2 <==> opens && Waiting(|trace[0].Waits()|, pushes)
  {
    assert Turn(trace[0], trace[1], pushes, 0, false, opens, 0 < |trace| - 2);
    var m := RefilledWaits(trace[0], pushes, 0);
  }

  /** With a transaction everything that waits or arrives is written, and nothing waits in the end. */
  lemma {:induction false} DrainWrites<T>(l: Lane<T>, pushes: seq<seq<T>>, i: nat, txn: bool, opens: bool)
    requires l.Fits() && (txn || opens)
    ensures var d := Drained(l, pushes, i, txn, opens);
      Grown(l, d) && d.Waits() == [] && Lost(d.fate) == Lost(l.fate)
    decreases if i < |pushes| then |pushes| - i else 0, |l.all| - |l.fate|
  {
    var m := RefilledWaits(l, pushes, i);
    if m.Waits() != [] {
      Popped(m, true);
      DrainWrites(m.Pop(true), pushes, i + 1, true, opens);
      GrownTwice(l, m.Pop(true), Drained(m.Pop(true), pushes, i + 1, true, opens));
    }
  }

  /** Without one, exactly the record at the head is popped and lost, if there is any; nothing is written. */
  lemma DrainFails<T>(l: Lane<T>, pushes: seq<seq<T>>)
    requires l.Fits()
    ensures var d, m := Drained(l, pushes, 0, false, false), l.Accept(First(pushes));
      && m.Fits() && Grown(l, d) && d == (if Waiting(|l.Waits()|, pushes) then m.Pop(false) else m)
      && d.Kept() == l.Kept() && Lost(d.fate) == Lost(l.fate) + (if Waiting(|l.Waits()|, pushes) then 1 else 0)
      && |d.Waits()| == if Waiting(|l.Waits()|, pushes) then |l.Waits()| + |First(pushes)| - 1 else 0
  {
    var m := l.Accept(First(pushes));
    Accepted(l, First(pushes));
    assert pushes == [] ==> m == l;
    if m.Waits() != [] {
      Popped(m, false);
    }
  }

  // ------------------------------ whole runs ------------------------------

  /**
   What arrives before each pop of the two loops of a batch, and whether the transaction
   opens when each asks for it.
   */
  datatype BatchInput = BatchInput(snapPushes: seq<seq<BookSnapshot>>, tradePushes: seq<seq<ExecEvent>>,
                                   opensFirst: bool, opensSecond: bool)

  ghost function BatchOf(s: Lane<BookSnapshot>, t: Lane<ExecEvent>, b: BatchInput)
    : (Lane<BookSnapshot>, Lane<ExecEvent>)
    requires s.Fits() && t.Fits()
  {
    var begun := b.opensFirst && Waiting(|s.Waits()|, b.snapPushes);
    (Drained(s, b.snapPushes, 0, false, b.opensFirst), Drained(t, b.tradePushes, 0, begun, b.opensSecond))
  }

  /** The first opening fails with a snapshot popped. */
  predicate SnapFails(ring: nat, b: BatchInput) {
    !b.opensFirst && Waiting(ring, b.snapPushes)
  }

  /** The snapshot loop began no transaction, and the second opening fails with a trade popped. */
  predicate TradeFails(snapRing: nat, ring: nat, b: BatchInput) {
    && !(b.opensFirst && Waiting(snapRing, b.snapPushes))
    && !b.opensSecond && Waiting(ring, b.tradePushes)
  }

  /**
   One batch loses exactly the record that was popped when a transaction would
   not open; a loop that has its transaction empties its ring. What was written
   stays written.
   */
  lemma BatchLosses(s: Lane<BookSnapshot>, t: Lane<ExecEvent>, b: BatchInput)
    returns (s': Lane<BookSnapshot>, t': Lane<ExecEvent>)
    requires s.Fits() && t.Fits()
    ensures (s', t') == BatchOf(s, t, b) && Grown(s, s') && Grown(t, t')
    ensures Lost(s'.fate) == Lost(s.fate) + (if SnapFails(|s.Waits()|, b) then 1 else 0)
    ensures Lost(t'.fate) == Lost(t.fate) + (if TradeFails(|s.Waits()|, |t.Waits()|, b) then 1 else 0)
    ensures s.Kept() <= s'.Kept() && t.Kept() <= t'.Kept()
    ensures !SnapFails(|s.Waits()|, b) ==> s'.Waits() == []
    ensures !TradeFails(|s.Waits()|, |t.Waits()|, b) ==> t'.Waits() == []
  {
    var begun := b.opensFirst && Waiting(|s.Waits()|, b.snapPushes);
    s' := Drained(s, b.snapPushes, 0, false, b.opensFirst);
    t' := Drained(t, b.tradePushes, 0, begun, b.opensSecond);
    if b.opensFirst {
      DrainWrites(s, b.snapPushes, 0, false, true);
    } else {
      DrainFails(s, b.snapPushes);
    }
    if begun || b.opensSecond {
      DrainWrites(t, b.tradePushes, 0, begun, b.opensSecond);
    } else {
      DrainFails(t, b.tradePushes);
    }
    KeptGrows(s, s');
    KeptGrows(t, t');
  }

  lemma BatchFits(s: Lane<BookSnapshot>, t: Lane<ExecEvent>, b: BatchInput)
    requires s.Fits() && t.Fits()
    ensures BatchOf(s, t, b).0.Fits() && BatchOf(s, t, b).1.Fits()
  {
    var _, _ := BatchLosses(s, t, b);
  }

  ghost function RunOf(s: Lane<BookSnapshot>, t: Lane<ExecEvent>, bs: seq<BatchInput>)
    : (Lane<BookSnapshot>, Lane<ExecEvent>)
    requires s.Fits() && t.Fits()
    decreases |bs|
  {
    if bs == [] then (s, t) else
      BatchFits(s, t, bs[0]);
      var next := BatchOf(s, t, bs[0]);
      RunOf(next.0, next.1, bs[1..])
  }

  /** A batch of a run that starts on empty rings: neither opening fails while a record waits. */
  predicate OpensWhenNeeded(b: BatchInput) {
    !SnapFails(0, b) && !TradeFails(0, 0, b)
  }

  /**
   Over any number of batches on a fresh persister: no record is lost if and
   only if no opening failed while a record was waiting. Then everything accepted
   was written, in order.
   */
  lemma {:induction false} NothingLostIffOpened(s: Lane<BookSnapshot>, t: Lane<ExecEvent>, bs: seq<BatchInput>)
    returns (s': Lane<BookSnapshot>, t': Lane<ExecEvent>)
    requires s.Fits() && t.Fits() && s.Waits() == [] && t.Waits() == []
    ensures (s', t') == RunOf(s, t, bs) && Grown(s, s') && Grown(t, t')
    ensures Lost(s'.fate) + Lost(t'.fate) == Lost(s.fate) + Lost(t.fate)
      <==> forall k | 0 <= k < |bs| :: OpensWhenNeeded(bs[k])
    decreases |bs|
  {
    if bs == [] {
      s', t' := s, t;
    } else {
      var s1, t1 := BatchLosses(s, t, bs[0]);
      if OpensWhenNeeded(bs[0]) {
        s', t' := NothingLostIffOpened(s1, t1, bs[1..]);
        assert forall k | 1 <= k < |bs| :: bs[k] == bs[1..][k - 1];
      } else {
        s', t' := LossesStay(s1, t1, bs[1..]);
      }
    }
  }

  lemma {:induction false} LossesStay(s: Lane<BookSnapshot>, t: Lane<ExecEvent>, bs: seq<BatchInput>)
    returns (s': Lane<BookSnapshot>, t': Lane<ExecEvent>)
    requires s.Fits() && t.Fits()
    ensures (s', t') == RunOf(s, t, bs) && Grown(s, s') && Grown(t, t')
    ensures Lost(s'.fate) >= Lost(s.fate) && Lost(t'.fate) >= Lost(t.fate)
    decreases |bs|
  {
    if bs == [] {
      s', t' := s, t;
    } else {
      var s1, t1 := BatchLosses(s, t, bs[0]);
      s', t' := LossesStay(s1, t1, bs[1..]);
    }
  }

  /** Every run of batches on a fresh persister persists what it accepted exactly when it opens when needed. */
  lemma PersistedIffOpened(bs: seq<BatchInput>) returns (s: Lane<BookSnapshot>, t: Lane<ExecEvent>)
    ensures (s, t) == RunOf(Lane([], []), Lane([], []), bs) && s.Fits() && t.Fits()
    ensures (s.Kept() + s.Waits() == s.all && t.Kept() + t.Waits() == t.all)
      <==> forall k | 0 <= k < |bs| :: OpensWhenNeeded(bs[k])
  {
    s, t := NothingLostIffOpened(Lane([], []), Lane([], []), bs);
    KeptIsAll(s.all, s.fate);
    KeptIsAll(t.all, t.fate);
  }

  class LmdbPersister {
    var snapRing: seq<BookSnapshot>
    var tradeRing: seq<ExecEvent>
    var db: map<string, Record>
    var snapSeq: nat
    var tradeSeq: nat
    ghost const db0: map<string, Record>
    ghost var snaps: Lane<BookSnapshot>
    ghost var trades: Lane<ExecEvent>

    ghost predicate Valid()
      reads this
    {
      && snaps.Fits() && snapRing == snaps.Waits() && snapSeq == |snaps.Kept()|
      && trades.Fits() && tradeRing == trades.Waits() && tradeSeq == |trades.Kept()|
      && db == Contents(db0, snaps.Kept(), trades.Kept())
    }

    constructor (existing: map<string, Record>)
      ensures Valid() && db0 == existing && snaps == Lane([], []) && trades == Lane([], [])
    {
      snapRing, tradeRing, db, snapSeq, tradeSeq := [], [], existing, 0, 0;
      db0, snaps, trades := existing, Lane([], []), Lane([], []);
    }

    method SnapshotsAccepted(a: seq<BookSnapshot>)
      requires Valid()
      modifies `snapRing, `snaps
      ensures Valid() && snaps == old(snaps).Accept(a)
    {
      Accepted(snaps, a);
      snapRing, snaps := snapRing + a, snaps.Accept(a);
    }

    /** `try_pop` and `put`. */
    method PutSnapshot()
      requires Valid() && snapRing != []
      modifies `snapRing, `db, `snapSeq, `snaps
      ensures Valid() && snaps == old(snaps).Pop(true)
    {
      var x := snapRing[0];
      Popped(snaps, true);
      WriteBook(db0, snaps.Kept(), trades.Kept(), x);
      snapRing := snapRing[1..];
      db := db[BookKey(x.sym, snapSeq) := Book(x)];
      snapSeq := snapSeq + 1;
      snaps := snaps.Pop(true);
    }

    /** `try_pop`, but the transaction does not open. */
    method LoseSnapshot()
      requires Valid() && snapRing != []
      modifies `snapRing, `snaps
      ensures Valid() && snaps == old(snaps).Pop(false)
    {
      Popped(snaps, false);
      snapRing, snaps := snapRing[1..], snaps.Pop(false);
    }

    method TradesAccepted(a: seq<ExecEvent>)
      requires Valid()
      modifies `tradeRing, `trades
      ensures Valid() && trades == old(trades).Accept(a)
    {
      Accepted(trades, a);
      tradeRing, trades := tradeRing + a, trades.Accept(a);
    }

    /** `try_pop` and `put`. */
    method PutTrade()
      requires Valid() && tradeRing != []
      modifies `tradeRing, `db, `tradeSeq, `trades
      ensures Valid() && trades == old(trades).Pop(true)
    {
      var x := tradeRing[0];
      Popped(trades, true);
      WriteTrade(db0, snaps.Kept(), trades.Kept(), x);
      tradeRing := tradeRing[1..];
      db := db[TradeKey(tradeSeq) := Trade(x)];
      tradeSeq := tradeSeq + 1;
      trades := trades.Pop(true);
    }

    /** `try_pop`, but the transaction does not open. */
    method LoseTrade()
      requires Valid() && tradeRing != []
      modifies `tradeRing, `trades
      ensures Valid() && trades == old(trades).Pop(false)
    {
      Popped(trades, false);
      tradeRing, trades := tradeRing[1..], trades.Pop(false);
    }

    /** One turn of the loop; `more` when a record was written and the loop goes on. */
    method SnapshotTurn(pushes: seq<seq<BookSnapshot>>, i: nat, txn: bool, opens: bool) returns (more: bool)
      requires Valid()
      modifies `snapRing, `db, `snapSeq, `snaps
      ensures old(snaps.Fits()) && Valid() && Turn(old(snaps), snaps, pushes, i, txn, opens, more)
    {
      ghost var m := RefilledWaits(snaps, pushes, i);
      if i < |pushes| {
        SnapshotsAccepted(pushes[i]);
      }
      if snapRing == [] {
        return false;
      }
      if !txn && !opens {
        LoseSnapshot();
        return false;
      }
      PutSnapshot();
      return true;
    }

    /** One turn of the loop; `more` when a record was written and the loop goes on. */
    method TradeTurn(pushes: seq<seq<ExecEvent>>, i: nat, txn: bool, opens: bool) returns (more: bool)
      requires Valid()
      modifies `tradeRing, `db, `tradeSeq, `trades
      ensures old(trades.Fits()) && Valid() && Turn(old(trades), trades, pushes, i, txn, opens, more)
    {
      ghost var m := RefilledWaits(trades, pushes, i);
      if i < |pushes| {
        TradesAccepted(pushes[i]);
      }
      if tradeRing == [] {
        return false;
      }
      if !txn && !opens {
        LoseTrade();
        return false;
      }
      PutTrade();
      return true;
    }

    /** The snapshot loop of a batch; `pushes[i]` is what the strategy pushes before the i-th pop. */
    method DrainSnapshots(pushes: seq<seq<BookSnapshot>>, opens: bool) returns (txn: bool)
      requires Valid()
      modifies `snapRing, `db, `snapSeq, `snaps
      ensures Valid() && snaps == Drained(old(snaps), pushes, 0, false, opens)
      ensures txn <==> opens && Waiting(|old(snapRing)|, pushes)
    {
      ghost var trace := TurnsOf(snaps, pushes, 0, false, opens);
      FirstTurn(trace, pushes, opens);
      var more, i := true, 0;
      txn := false;
      while more
        invariant Valid() && i < |trace| && snaps == trace[i] && (more <==> i < |trace| - 1)
        invariant txn == (i > 0 && |trace| > 2)
        decreases |trace| - i
      {
        assert Turn(trace[i], trace[i + 1], pushes, i, txn, opens, i < |trace| - 2);
        more := SnapshotTurn(pushes, i, txn, opens);
        txn := txn || more;
        i := i + 1;
      }
    }

    /** The trade loop; it opens the transaction only when the snapshot loop did not. */
    method DrainTrades(pushes: seq<seq<ExecEvent>>, begun: bool, opens: bool)
      requires Valid()
      modifies `tradeRing, `db, `tradeSeq, `trades
      ensures Valid() && trades == Drained(old(trades), pushes, 0, begun, opens)
    {
      ghost var trace := TurnsOf(trades, pushes, 0, begun, opens);
      var more, txn, i := true, begun, 0;
      while more
        invariant Valid() && i < |trace| && trades == trace[i] && (more <==> i < |trace| - 1)
        invariant more ==> txn == (begun || i > 0)
        decreases |trace| - i
      {
        assert Turn(trace[i], trace[i + 1], pushes, i, txn, opens, i < |trace| - 2);
        more := TradeTurn(pushes, i, txn, opens);
        txn := txn || more;
        i := i + 1;
      }
    }

    /** One batch: the two loops in one transaction. */
    method Batch(b: BatchInput)
      requires Valid()
      modifies this
      ensures Valid() && (snaps, trades) == BatchOf(old(snaps), old(trades), b)
    {
      var txn := DrainSnapshots(b.snapPushes, b.opensFirst);
      DrainTrades(b.tradePushes, txn, b.opensSecond);
    }

    /** The outer loop of `run`, batch after batch. */
    method Run(batches: seq<BatchInput>)
      requires Valid()
      modifies this
      ensures Valid() && (snaps, trades) == RunOf(old(snaps), old(trades), batches)
    {
      ghost var left := batches;
      for i := 0 to |batches|
        invariant Valid() && left == batches[i..]
        invariant RunOf(snaps, trades, left) == RunOf(old(snaps), old(trades), batches)
      {
        Batch(batches[i]);
        left := left[1..];
      }
    }

    /**
     The database holds, beside what was there before, exactly one record for
     every snapshot and trade written, each under the key of its position; and
     the written and the waiting ones are all, in order, when none was lost.
     */
    lemma PersistedExactlyOnce()
      requires Valid()
      ensures snaps.Kept() + snapRing == snaps.all <==> Lost(snaps.fate) == 0
      ensures trades.Kept() + tradeRing == trades.all <==> Lost(trades.fate) == 0
      ensures forall i | 0 <= i < |snaps.Kept()| :: Holds(db, BookKey(snaps.Kept()[i].sym, i), Book(snaps.Kept()[i]))
      ensures forall i | 0 <= i < |trades.Kept()| :: Holds(db, TradeKey(i), Trade(trades.Kept()[i]))
      ensures db0 == map[] ==> |db| == |snaps.Kept()| + |trades.Kept()|
    {
      var ks, kt := snaps.Kept(), trades.Kept();
      forall i | 0 <= i < |ks| ensures Holds(db, BookKey(ks[i].sym, i), Book(ks[i])) {
        HoldsBook(db0, ks, kt, i);
      }
      forall i | 0 <= i < |kt| ensures Holds(db, TradeKey(i), Trade(kt[i])) {
        HoldsTrade(db0, ks, kt, i);
      }
      DisjointSizes(ks, kt);
      KeptIsAll(snaps.all, snaps.fate);
      KeptIsAll(trades.all, trades.fate);
    }
  }

  lemma HoldsBook(db0: map<string, Record>, snaps: seq<BookSnapshot>, trades: seq<ExecEvent>, i: nat)
    requires i < |snaps|
    ensures Holds(Contents(db0, snaps, trades), BookKey(snaps[i].sym, i), Book(snaps[i]))
  {
    BookKeysInUse(snaps, snaps[i].sym, i);
    NoBookIsATrade(snaps, trades);
  }

  lemma HoldsTrade(db0: map<string, Record>, snaps: seq<BookSnapshot>, trades: seq<ExecEvent>, i: nat)
    requires i < |trades|
    ensures Holds(Contents(db0, snaps, trades), TradeKey(i), Trade(trades[i]))
  {
    EachTradeOnce(trades);
  }

  lemma DisjointSizes(snaps: seq<BookSnapshot>, trades: seq<ExecEvent>)
    ensures |Contents(map[], snaps, trades)| == |snaps| + |trades|
  {
    var a, b := BookMap(snaps), TradeMap(trades);
    OnlyBookKeys(snaps);
    EachTradeOnce(trades);
    forall k | k in a ensures k !in b {
      var sym, i: nat :| BookKey(sym, i) == k;
      NoBookIsATrade(snaps, trades);
    }
    DisjointUnion(a, b);
  }

  lemma DisjointUnion(a: map<string, Record>, b: map<string, Record>)
    requires forall k | k in a :: k !in b
    ensures |map[] + a + b| == |a| + |b|
  {
    assert (map[] + a + b).Keys == a.Keys + b.Keys && a.Keys !! b.Keys;
  }

  predicate Holds(db: map<string, Record>, key: string, r: Record) {
    key in db && db[key] == r
  }
}
