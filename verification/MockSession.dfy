/**
 A session of the mock exchange: the receive loop, the dispatch on MsgType, and
 the numbered replies. The clock is a parameter, read anew for every message;
 sends succeed.
 */
module MockSession {
  import opened Common
  import opened Decimal
  import opened FixCodec
  import opened Framing

  /** What a session remembers, and every message it sent. */
  datatype Peer = Peer(seqNum: nat, user: string, alive: bool, orderNo: nat, sent: seq<Message>)

  const FRESH := Peer(0, "CLIENT", true, 0, [])

  /** The two readings of the clock for one message sent: TransactTime, if it has one, and SendingTime. */
  datatype Stamps = Stamps(transact: string, sending: string)

  /** The readings for the n-th message sent. */
  type Clock = nat -> Stamps

  function GetOr(p: Parsed, tag: string, otherwise: string): string {
    if tag in p.fields then p.fields[tag] else otherwise
  }

  function Send(s: Peer, kind: string, fields: seq<Field>, clock: Clock): Peer {
    var n := s.seqNum + 1;
    s.(seqNum := n, sent := s.sent + [Message(kind, n, "ROFX", clock(n).sending, s.user, fields)])
  }

  datatype Report = Report(execType: string, status: string, leaves: string, cum: string)
                  | FillReport(execType: string, status: string, leaves: string, cum: string, px: string, qty: string)

  function IdFields(no: nat): seq<Field> {
    [Field("37", "MOCK" + PrintPadded(no, 6)), Field("17", "E" + PrintPadded(no, 6))]
  }

  function StateFields(r: Report): seq<Field> {
    [Field("150", r.execType), Field("39", r.status)]
  }

  function OrderFields(m: Parsed): seq<Field> {
    [Field("11", GetOr(m, "11", "")),
     Field("55", GetOr(m, "55", if m.symbols != [] then m.symbols[0] else "")),
     Field("207", "ROFX"), Field("54", GetOr(m, "54", "1")), Field("38", GetOr(m, "38", "1"))]
  }

  function AmountFields(m: Parsed, r: Report, time: string): seq<Field> {
    [Field("151", r.leaves), Field("14", r.cum), Field("60", time)]
    + (if GetOr(m, "44", "") != "" then [Field("44", m.fields["44"])] else [])
    + (if r.FillReport? then [Field("31", r.px), Field("32", r.qty)] else [])
  }

  function ReportFields(no: nat, m: Parsed, r: Report, time: string): seq<Field> {
    IdFields(no) + StateFields(r) + OrderFields(m) + AmountFields(m, r, time)
  }

  function ExecReport(s: Peer, m: Parsed, r: Report, clock: Clock): Peer {
    Send(s.(orderNo := s.orderNo + 1), "8", ReportFields(s.orderNo + 1, m, r, clock(s.seqNum + 1).transact), clock)
  }

  /**
   `handle`: the effect of one received message. A market data request only starts the
   streaming thread, whose messages `MockReplies` interleaves with these.
   */
  function Handle(s: Peer, m: Parsed, clock: Clock): Peer {
    var mt := GetOr(m, "35", "");
    if mt == "A" then
      Send(s.(user := GetOr(m, "49", "CLIENT")), "A",
           [Field("98", "0"), Field("108", GetOr(m, "108", "30"))]
           + (if GetOr(m, "141", "") == "Y" then [Field("141", "Y")] else []) + [Field("1137", "9")], clock)
    else if mt == "1" then Send(s, "0", [Field("112", GetOr(m, "112", ""))], clock)
    else if mt == "5" then Send(s, "5", [], clock).(alive := false)
    else if mt == "D" then
      var qty := GetOr(m, "38", "1");
      var t := ExecReport(s, m, Report("0", "0", qty, "0"), clock);
      if t.orderNo % 5 == 0
      then ExecReport(t, m, FillReport("F", "2", "0", qty, GetOr(m, "44", "0"), qty), clock)
      else t
    else if mt == "F" then ExecReport(s, m, Report("4", "4", "0", "0"), clock)
    else s
  }

  function HandleAll(s: Peer, msgs: seq<string>, clock: Clock): Peer
    decreases |msgs|
  {
    if msgs == [] then s else HandleAll(Handle(s, ParseOf(msgs[0]), clock), msgs[1..], clock)
  }

  predicate IsLogout(raw: string) {
    GetOr(ParseOf(raw), "35", "") == "5"
  }

  predicate LogsOut(msgs: seq<string>) {
    exists i :: 0 <= i < |msgs| && IsLogout(msgs[i])
  }

  lemma {:induction false} AliveUntilLogout(s: Peer, msgs: seq<string>, clock: Clock)
    ensures HandleAll(s, msgs, clock).alive <==> s.alive && !LogsOut(msgs)
    decreases |msgs|
  {
    if msgs != [] {
      var t := Handle(s, ParseOf(msgs[0]), clock);
      assert t.alive <==> s.alive && !IsLogout(msgs[0]);
      AliveUntilLogout(t, msgs[1..], clock);
      LogsOutFirst(msgs);
    }
  }

  lemma LogsOutFirst(msgs: seq<string>)
    requires msgs != []
    ensures LogsOut(msgs) <==> IsLogout(msgs[0]) || LogsOut(msgs[1..])
  {
    if LogsOut(msgs[1..]) {
      var i :| 0 <= i < |msgs[1..]| && IsLogout(msgs[1..][i]);
      assert IsLogout(msgs[i + 1]);
    }
    if LogsOut(msgs) && !IsLogout(msgs[0]) {
      var i :| 0 <= i < |msgs| && IsLogout(msgs[i]);
      assert msgs[1..][i - 1] == msgs[i];
    }
  }

  lemma LogsOutConcat(a: seq<string>, b: seq<string>)
    ensures LogsOut(a + b) <==> LogsOut(a) || LogsOut(b)
  {
    if LogsOut(a) {
      var i :| 0 <= i < |a| && IsLogout(a[i]);
      assert IsLogout((a + b)[i]);
    }
    if LogsOut(b) {
      var i :| 0 <= i < |b| && IsLogout(b[i]);
      assert IsLogout((a + b)[|a| + i]);
    }
  }

  /** The messages a session handles when the stream arrives in these chunks; an empty chunk is the end of input. */
  function Handled(rest: string, chunks: seq<string>): seq<string>
    decreases |chunks|
  {
    if chunks == [] || chunks[0] == "" then []
    else
      var f := SplitStream(rest + chunks[0]);
      f.msgs + (if LogsOut(f.msgs) then [] else Handled(f.rest, chunks[1..]))
  }

  /** Part of the way through a buffer: what is handled, what is left and where it leads. */
  ghost predicate Draining(p: Peer, buf: string, done: seq<string>, clock: Clock, goal: Peer, all: seq<string>,
                           rest: string) {
    var f := SplitStream(buf);
    done + f.msgs == all && f.rest == rest && HandleAll(p, f.msgs, clock) == goal
  }

  lemma DrainStep(p: Peer, buf: string, done: seq<string>, clock: Clock, goal: Peer, all: seq<string>, rest: string)
    requires Draining(p, buf, done, clock, goal, all, rest)
    ensures var n := Cut(buf);
      if n == 0 then p == goal && buf == rest && done == all
      else Draining(Handle(p, ParseOf(buf[..n]), clock), buf[n..], done + [buf[..n]], clock, goal, all, rest)
  {
    var n := Cut(buf);
    if n > 0 {
      var f := SplitStream(buf[n..]);
      assert ([buf[..n]] + f.msgs)[1..] == f.msgs;
      assert done + ([buf[..n]] + f.msgs) == done + [buf[..n]] + f.msgs;
    }
  }

  /** Between two chunks: what is handled so far and what the remaining chunks will add. */
  ghost predicate Receiving(alive: bool, done: seq<string>, buf: string, chunks: seq<string>, goal: seq<string>) {
    goal == done + (if alive then Handled(buf, chunks) else []) && (alive <==> !LogsOut(done))
  }

  lemma ReceiveStep(done: seq<string>, buf: string, chunks: seq<string>, goal: seq<string>)
    requires Receiving(true, done, buf, chunks, goal) && chunks != [] && chunks[0] != ""
    ensures var f := SplitStream(buf + chunks[0]);
      Receiving(!LogsOut(f.msgs), done + f.msgs, f.rest, chunks[1..], goal)
  {
    var ms := SplitStream(buf + chunks[0]).msgs;
    LogsOutConcat(done, ms);
    var more := HandledStep(buf, chunks);
    Regroup(done, ms, more);
    if LogsOut(ms) {
      Regroup(done, ms, []);
    }
  }

  lemma HandledStep(rest: string, chunks: seq<string>) returns (more: seq<string>)
    requires chunks != [] && chunks[0] != ""
    ensures var f := SplitStream(rest + chunks[0]);
      more == (if LogsOut(f.msgs) then [] else Handled(f.rest, chunks[1..])) && Handled(rest, chunks) == f.msgs + more
  {
    more := if LogsOut(SplitStream(rest + chunks[0]).msgs) then []
      else Handled(SplitStream(rest + chunks[0]).rest, chunks[1..]);
  }

  lemma {:induction false} HandleAllConcat(p: Peer, a: seq<string>, b: seq<string>, clock: Clock)
    ensures HandleAll(p, a + b, clock) == HandleAll(HandleAll(p, a, clock), b, clock)
    decreases |a|
  {
    if a == [] {
      assert a + b == b;
    } else {
      assert (a + b)[1..] == a[1..] + b;
      HandleAllConcat(Handle(p, ParseOf(a[0]), clock), a[1..], b, clock);
    }
  }

  lemma ReceiveStart(p: Peer, chunks: seq<string>, clock: Clock) returns (goal: seq<string>)
    ensures goal == Handled("", chunks) && Receiving(true, [], "", chunks, goal) && HandleAll(p, [], clock) == p
  {
    goal := Handled("", chunks);
  }

  lemma ReceiveEnd(alive: bool, done: seq<string>, buf: string, chunks: seq<string>, goal: seq<string>)
    requires Receiving(alive, done, buf, chunks, goal) && (!alive || chunks == [] || chunks[0] == "")
    ensures done == goal && (alive <==> !LogsOut(goal))
  {
  }

  class Session {
    var buf: string
    var peer: Peer
    ghost var handled: seq<string>

    constructor ()
      ensures buf == "" && peer == FRESH && handled == []
    {
      buf, peer, handled := "", FRESH, [];
    }

    /** One `recv`: append and drain. A logout does not stop the draining of this buffer. */
    method Receive(chunk: string, clock: Clock)
      modifies this
      ensures var f := SplitStream(old(buf) + chunk);
        buf == f.rest && handled == old(handled) + f.msgs && peer == HandleAll(old(peer), f.msgs, clock)
    {
      buf := buf + chunk;
      ghost var f := SplitStream(buf);
      ghost var all, goal := handled + f.msgs, HandleAll(peer, f.msgs, clock);
      var n := Cut(buf);
      while n > 0
        invariant n == Cut(buf) && Draining(peer, buf, handled, clock, goal, all, f.rest)
        decreases |buf|
      {
        DrainStep(peer, buf, handled, clock, goal, all, f.rest);
        var raw := buf[..n];
        buf := buf[n..];
        var m := Parse(raw);
        peer := Handle(peer, m, clock);
        handled := handled + [raw];
        n := Cut(buf);
      }
      DrainStep(peer, buf, handled, clock, goal, all, f.rest);
    }

    /** One turn of `run`: a chunk that is not empty, while nobody logged out. */
    method ReceiveNext(chunk: string, clock: Clock, ghost left: seq<string>, ghost goal: seq<string>, ghost start: Peer)
      requires left != [] && left[0] == chunk != "" && peer.alive
      requires Receiving(true, handled, buf, left, goal) && peer == HandleAll(start, handled, clock)
      modifies this
      ensures Receiving(peer.alive, handled, buf, left[1..], goal) && peer == HandleAll(start, handled, clock)
    {
      ghost var f := SplitStream(buf + chunk);
      AliveUntilLogout(peer, f.msgs, clock);
      ReceiveStep(handled, buf, left, goal);
      HandleAllConcat(start, handled, f.msgs, clock);
      Receive(chunk, clock);
    }

    /** `run`: until the peer closes the connection or a logout was handled. */
    method Run(chunks: seq<string>, clock: Clock)
      requires buf == "" && peer.alive && handled == []
      modifies this
      ensures handled == Handled("", chunks) && peer == HandleAll(old(peer), handled, clock)
      ensures peer.alive <==> !LogsOut(Handled("", chunks))
    {
      var i := 0;
      ghost var left, start := chunks, peer;
      ghost var goal := ReceiveStart(peer, chunks, clock);
      while peer.alive && i < |chunks| && chunks[i] != ""
        invariant 0 <= i <= |chunks| && left == chunks[i..] && Receiving(peer.alive, handled, buf, left, goal)
        invariant peer == HandleAll(start, handled, clock)
      {
        ReceiveNext(chunks[i], clock, left, goal, start);
        i, left := i + 1, left[1..];
      }
      ReceiveEnd(peer.alive, handled, buf, left, goal);
    }
  }

  // --------------------------- logout and chunking ---------------------------

  ghost predicate NonEmpty(chunks: seq<string>) {
    forall i | 0 <= i < |chunks| :: chunks[i] != ""
  }

  lemma {:induction false} HandledPrefix(rest: string, chunks: seq<string>) returns (h: seq<string>, all: seq<string>)
    requires Cut(rest) == 0 && NonEmpty(chunks)
    ensures h == Handled(rest, chunks) && all == SplitStream(rest + Concat(chunks)).msgs
    ensures h <= all && (h == all || LogsOut(h))
    decreases |chunks|
  {
    if chunks == [] {
      assert rest + Concat(chunks) == rest;
      h, all := [], [];
    } else {
      Regroup(rest, chunks[0], Concat(chunks[1..]));
      var f, g := SplitInTwo(rest + chunks[0], Concat(chunks[1..]));
      var h', all' := HandledPrefix(f.rest, chunks[1..]);
      var more := HandledStep(rest, chunks);
      h, all := f.msgs + more, f.msgs + all';
      LogsOutConcat(f.msgs, more);
      Extends(f.msgs, more, all');
    }
  }

  lemma Extends(a: seq<string>, b: seq<string>, c: seq<string>)
    ensures b <= c ==> a + b <= a + c
    ensures a <= a + c && a + [] == a
  {
  }

  ghost predicate LogoutOnlyLast(msgs: seq<string>) {
    forall i | 0 <= i < |msgs| - 1 :: !IsLogout(msgs[i])
  }

  /** However the stream `s` is cut, the session handles all its messages. */
  ghost predicate ChunkingDoesNotMatter(s: string) {
    forall chunks | NonEmpty(chunks) && Concat(chunks) == s :: Handled("", chunks) == SplitStream(s).msgs
  }

  lemma {:induction false} PrefixSplits(s: string, f: Framed, k: nat)
    requires f == SplitStream(s) && k <= |f.msgs|
    ensures SplitStream(Concat(f.msgs[..k])) == Framed(f.msgs[..k], "")
    decreases k
  {
    if k > 0 {
      var n := Cut(s);
      var first, rest := s[..n], s[n..];
      assert s == first + rest;
      var g := SplitStream(rest);
      SplitFirst(s, first, rest);
      PrefixSplits(rest, g, k - 1);
      PrefixStep(first, rest, g.msgs[..k - 1]);
      TakeCons(first, g.msgs, k);
    }
  }

  lemma PrefixStep(first: string, rest: string, more: seq<string>)
    requires Cut(first + rest) == |first| > 0 && SplitStream(Concat(more)) == Framed(more, "")
    ensures SplitStream(Concat([first] + more)) == Framed([first] + more, "")
  {
    CutWasThere(first, rest);
    CutIsStable(first, Concat(more));
    ConcatCons(first, more);
    SplitFirst(first + Concat(more), first, Concat(more));
  }

  lemma TakeCons(first: string, more: seq<string>, k: nat)
    requires 0 < k <= |more| + 1
    ensures ([first] + more)[..k] == [first] + more[..k - 1]
  {
  }

  lemma ConcatTwo(a: string, b: string)
    ensures Concat([a, b]) == a + b
  {
    assert [a, b][1..] == [b] && [b][1..] == [];
    assert Concat([b]) == b + "";
  }

  /** When the first chunk holds exactly these messages and logs out, nothing behind it is handled. */
  lemma FirstChunkOnly(chunks: seq<string>, ms: seq<string>)
    requires chunks != [] && chunks[0] != "" && SplitStream(chunks[0]) == Framed(ms, "") && LogsOut(ms)
    ensures Handled("", chunks) == ms
  {
    assert "" + chunks[0] == chunks[0];
    var more := HandledStep("", chunks);
    Regroup(ms, [], []);
  }

  /** Exactly the streams whose only logout, if any, comes last are handled alike under every chunking. */
  lemma LogoutDecidesChunking(s: string)
    ensures ChunkingDoesNotMatter(s) <==> LogoutOnlyLast(SplitStream(s).msgs)
  {
    if LogoutOnlyLast(SplitStream(s).msgs) {
      forall chunks | NonEmpty(chunks) && Concat(chunks) == s ensures Handled("", chunks) == SplitStream(s).msgs {
        AllHandled(s, chunks);
      }
    } else {
      var chunks := NotAllHandled(s);
    }
  }

  lemma AllHandled(s: string, chunks: seq<string>)
    requires NonEmpty(chunks) && Concat(chunks) == s && LogoutOnlyLast(SplitStream(s).msgs)
    ensures Handled("", chunks) == SplitStream(s).msgs
  {
    assert "" + Concat(chunks) == s;
    var h, all := HandledPrefix("", chunks);
    if h != all {
      OnlyLast(h, all);
    }
  }

  lemma OnlyLast(h: seq<string>, all: seq<string>)
    requires h <= all && LogsOut(h) && LogoutOnlyLast(all)
    ensures h == all
  {
    var i :| 0 <= i < |h| && IsLogout(h[i]);
    assert all[i] == h[i];
  }

  lemma NotAllHandled(s: string) returns (chunks: seq<string>)
    requires !LogoutOnlyLast(SplitStream(s).msgs)
    ensures NonEmpty(chunks) && Concat(chunks) == s && Handled("", chunks) != SplitStream(s).msgs
  {
    var msgs := SplitStream(s).msgs;
    var i :| 0 <= i < |msgs| - 1 && IsLogout(msgs[i]);
    assert IsLogout(msgs[..i + 1][i]);
    chunks := CutBehind(s, i + 1, msgs[..i + 1]);
  }

  lemma CutBehind(s: string, k: nat, first: seq<string>) returns (chunks: seq<string>)
    requires 0 < k < |SplitStream(s).msgs| && first == SplitStream(s).msgs[..k] && LogsOut(first)
    ensures NonEmpty(chunks) && Concat(chunks) == s && Handled("", chunks) == first
  {
    var a, b := PrefixOfStream(s, k, first);
    chunks := [a, b];
    ConcatTwo(a, b);
    FirstChunkOnly(chunks, first);
  }

  lemma PrefixOfStream(s: string, k: nat, first: seq<string>) returns (a: string, b: string)
    requires 0 < k < |SplitStream(s).msgs| && first == SplitStream(s).msgs[..k]
    ensures SplitStream(a) == Framed(first, "") && s == a + b && a != "" && b != ""
  {
    var f := NothingIsLost(s);
    PrefixSplits(s, f, k);
    a := Concat(first);
    b := Concat(f.msgs[k..]) + f.rest;
    ConcatSplit(f.msgs, k);
    Regroup(a, Concat(f.msgs[k..]), f.rest);
    assert first[0] == f.msgs[0] && f.msgs[k..][0] == f.msgs[k];
  }

  lemma {:induction false} ConcatSplit(ms: seq<string>, k: nat)
    requires k <= |ms|
    ensures Concat(ms) == Concat(ms[..k]) + Concat(ms[k..])
  {
    if k > 0 {
      assert ms[..k][1..] == ms[1..][..k - 1] && ms[k..] == ms[1..][k - 1..];
      ConcatSplit(ms[1..], k - 1);
      Regroup(ms[0], Concat(ms[1..][..k - 1]), Concat(ms[1..][k - 1..]));
    } else {
      assert ms[..0] == [] && ms[0..] == ms;
    }
  }
}
