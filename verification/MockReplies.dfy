/**
 What a client of the mock exchange can rely on: every reply is readable, the
 replies are numbered without gaps, and reports carry the request's ClOrdID.
 */
module MockReplies {
  import opened Common
  import opened Decimal
  import opened FixCodec
  import opened Framing
  import opened MockSession
  import opened Machine64
  import Events

  // ------------------------- parsed values are clean -------------------------

  ghost predicate NoSoh(s: string) {
    SOH !in s
  }

  ghost predicate CleanParsed(p: Parsed) {
    && (forall k | k in p.fields :: NoSoh(p.fields[k]))
    && (forall i | 0 <= i < |p.symbols| :: NoSoh(p.symbols[i]))
  }

  lemma {:induction false} PiecesAreClean(s: string)
    ensures forall i | 0 <= i < |Split(s)| :: NoSoh(Split(s)[i])
    decreases |s|
  {
    var k := Find(s, SOH);
    if k == |s| {
      assert Split(s) == [s];
    } else {
      PiecesAreClean(s[k + 1..]);
      assert NoSoh(s[..k]);
    }
  }

  lemma {:induction false} AbsorbIsClean(p: Parsed, pieces: seq<string>)
    requires CleanParsed(p) && forall i | 0 <= i < |pieces| :: NoSoh(pieces[i])
    ensures CleanParsed(AbsorbAll(p, pieces))
    decreases |pieces|
  {
    if pieces != [] {
      var e := Find(pieces[0], '=');
      if e < |pieces[0]| {
        assert NoSoh(pieces[0]) && NoSoh(pieces[0][e + 1..]);
      }
      AbsorbIsClean(Absorb(p, pieces[0]), pieces[1..]);
    }
  }

  lemma ParsedIsClean(raw: string)
    ensures CleanParsed(ParseOf(raw))
  {
    PiecesAreClean(raw);
    AbsorbIsClean(NOTHING, Split(raw));
  }

  // ------------------------------- the replies -------------------------------

  /** Every message sent so far is readable, and numbered by its position. */
  ghost predicate Orderly(s: Peer) {
    && NoSoh(s.user) && |s.sent| == s.seqNum
    && (forall i | 0 <= i < |s.sent| :: CleanMessage(s.sent[i]) && NoTen(s.sent[i]) && s.sent[i].seqNum == i + 1)
  }

  ghost predicate CleanBody(fs: seq<Field>) {
    Clean(fs) && forall i | 0 <= i < |fs| :: fs[i].tag != "10"
  }

  ghost predicate CleanClock(clock: Clock) {
    forall n: nat :: NoSoh(clock(n).transact) && NoSoh(clock(n).sending)
  }

  lemma SendIsOrderly(s: Peer, kind: string, fields: seq<Field>, clock: Clock)
    requires Orderly(s) && NoSoh(kind) && CleanClock(clock) && CleanBody(fields)
    ensures Orderly(Send(s, kind, fields, clock)) && s.sent <= Send(s, kind, fields, clock).sent
  {
  }

  lemma CleanValue(m: Parsed, tag: string, otherwise: string)
    requires CleanParsed(m) && NoSoh(otherwise)
    ensures NoSoh(GetOr(m, tag, otherwise))
  {
  }

  lemma NumberIsClean(prefix: string, no: nat)
    requires NoSoh(prefix)
    ensures NoSoh(prefix + PrintPadded(no, 6))
  {
    PaddedDigits(no, 6);
    DigitsAreClean(PrintPadded(no, 6));
  }

  ghost predicate CleanReport(r: Report) {
    && NoSoh(r.execType) && NoSoh(r.status) && NoSoh(r.leaves) && NoSoh(r.cum)
    && (r.FillReport? ==> NoSoh(r.px) && NoSoh(r.qty))
  }

  lemma FieldIsClean(tag: string, value: string)
    requires (forall i | 0 <= i < |tag| :: IsDigit(tag[i])) && tag != "10" && NoSoh(value)
    ensures CleanBody([Field(tag, value)])
  {
    DigitsAreClean(tag);
  }

  lemma CleanConcat(a: seq<Field>, b: seq<Field>)
    requires CleanBody(a) && CleanBody(b)
    ensures CleanBody(a + b)
  {
  }

  lemma IdIsClean(no: nat)
    ensures CleanBody(IdFields(no))
  {
    NumberIsClean("MOCK", no);
    NumberIsClean("E", no);
    FieldIsClean("37", "MOCK" + PrintPadded(no, 6));
    FieldIsClean("17", "E" + PrintPadded(no, 6));
  }

  lemma StateIsClean(r: Report)
    requires CleanReport(r)
    ensures CleanBody(StateFields(r))
  {
    FieldIsClean("150", r.execType);
    FieldIsClean("39", r.status);
  }

  lemma OrderIsClean(m: Parsed)
    requires CleanParsed(m)
    ensures CleanBody(OrderFields(m))
  {
    var first := if m.symbols != [] then m.symbols[0] else "";
    CleanValue(m, "11", "");
    CleanValue(m, "55", first);
    CleanValue(m, "54", "1");
    CleanValue(m, "38", "1");
    FieldIsClean("11", GetOr(m, "11", ""));
    FieldIsClean("55", GetOr(m, "55", first));
    FieldIsClean("207", "ROFX");
    FieldIsClean("54", GetOr(m, "54", "1"));
    FieldIsClean("38", GetOr(m, "38", "1"));
  }

  lemma AmountIsClean(m: Parsed, r: Report, time: string)
    requires CleanParsed(m) && CleanReport(r) && NoSoh(time)
    ensures CleanBody(AmountFields(m, r, time))
  {
    FieldIsClean("151", r.leaves);
    FieldIsClean("14", r.cum);
    FieldIsClean("60", time);
    if "44" in m.fields {
      FieldIsClean("44", m.fields["44"]);
    }
    if r.FillReport? {
      FieldIsClean("31", r.px);
      FieldIsClean("32", r.qty);
    }
  }

  lemma ReportIsClean(no: nat, m: Parsed, r: Report, time: string)
    requires CleanParsed(m) && CleanReport(r) && NoSoh(time)
    ensures CleanBody(ReportFields(no, m, r, time))
  {
    IdIsClean(no);
    StateIsClean(r);
    OrderIsClean(m);
    AmountIsClean(m, r, time);
    CleanConcat(IdFields(no), StateFields(r));
    CleanConcat(IdFields(no) + StateFields(r), OrderFields(m));
    CleanConcat(IdFields(no) + StateFields(r) + OrderFields(m), AmountFields(m, r, time));
  }

  lemma ExecReportIsOrderly(s: Peer, m: Parsed, r: Report, clock: Clock)
    requires Orderly(s) && CleanParsed(m) && CleanReport(r) && CleanClock(clock)
    ensures Orderly(ExecReport(s, m, r, clock))
  {
    var time := clock(s.seqNum + 1).transact;
    ReportIsClean(s.orderNo + 1, m, r, time);
    SendIsOrderly(s.(orderNo := s.orderNo + 1), "8", ReportFields(s.orderNo + 1, m, r, time), clock);
  }

  lemma HandleIsOrderly(s: Peer, m: Parsed, clock: Clock)
    requires Orderly(s) && CleanParsed(m) && CleanClock(clock)
    ensures Orderly(Handle(s, m, clock)) && s.sent <= Handle(s, m, clock).sent
  {
    var mt, qty := GetOr(m, "35", ""), GetOr(m, "38", "1");
    if mt == "A" {
      LogonIsOrderly(s, m, clock);
    } else if mt == "1" {
      CleanValue(m, "112", "");
      FieldIsClean("112", GetOr(m, "112", ""));
      SendIsOrderly(s, "0", [Field("112", GetOr(m, "112", ""))], clock);
    } else if mt == "5" {
      SendIsOrderly(s, "5", [], clock);
    } else if mt == "D" {
      CleanValue(m, "38", "1");
      CleanValue(m, "44", "0");
      ExecReportIsOrderly(s, m, Report("0", "0", qty, "0"), clock);
      ExecReportIsOrderly(ExecReport(s, m, Report("0", "0", qty, "0"), clock), m,
                          FillReport("F", "2", "0", qty, GetOr(m, "44", "0"), qty), clock);
    } else if mt == "F" {
      ExecReportIsOrderly(s, m, Report("4", "4", "0", "0"), clock);
    }
  }

  lemma LogonIsOrderly(s: Peer, m: Parsed, clock: Clock)
    requires Orderly(s) && CleanParsed(m) && CleanClock(clock) && GetOr(m, "35", "") == "A"
    ensures Orderly(Handle(s, m, clock)) && s.sent <= Handle(s, m, clock).sent
  {
    CleanValue(m, "49", "CLIENT");
    CleanValue(m, "108", "30");
    FieldIsClean("98", "0");
    FieldIsClean("108", GetOr(m, "108", "30"));
    FieldIsClean("141", "Y");
    FieldIsClean("1137", "9");
    var u := s.(user := GetOr(m, "49", "CLIENT"));
    var body := [Field("98", "0"), Field("108", GetOr(m, "108", "30"))]
      + (if GetOr(m, "141", "") == "Y" then [Field("141", "Y")] else []) + [Field("1137", "9")];
    SendIsOrderly(u, "A", body, clock);
  }

  // --------------------- the streaming thread in between ---------------------

  /** One price level as the stream prints it. */
  datatype LevelText = LevelText(px: string, qty: string)

  function LevelFields(kind: string, levels: seq<LevelText>): seq<Field> {
    if levels == [] then []
    else [Field("269", kind), Field("270", levels[0].px), Field("271", levels[0].qty)] + LevelFields(kind, levels[1..])
  }

  function SnapshotFields(reqId: string, sym: string, bids: seq<LevelText>, offers: seq<LevelText>): seq<Field> {
    [Field("262", reqId), Field("55", sym), Field("207", "ROFX"), Field("268", Print(|bids| + |offers|))]
    + LevelFields("0", bids) + LevelFields("1", offers)
  }

  /** What happens to a session, one event at a time: `send_msg` numbers under a lock, whoever calls it. */
  datatype Happening =
    | Got(raw: string)                                                                     // a message handled
    | Streamed(reqId: string, sym: string, bids: seq<LevelText>, offers: seq<LevelText>)   // a snapshot sent

  function Live(s: Peer, h: Happening, clock: Clock): Peer {
    match h
    case Got(raw) => Handle(s, ParseOf(raw), clock)
    case Streamed(reqId, sym, bids, offers) => Send(s, "W", SnapshotFields(reqId, sym, bids, offers), clock)
  }

  function LiveThrough(s: Peer, hs: seq<Happening>, clock: Clock): Peer
    decreases |hs|
  {
    if hs == [] then s else LiveThrough(Live(s, hs[0], clock), hs[1..], clock)
  }

  /** Without snapshots in between this is the effect of the receive loop. */
  lemma {:induction false} OnlyGot(s: Peer, msgs: seq<string>, clock: Clock)
    ensures LiveThrough(s, seq(|msgs|, i requires 0 <= i < |msgs| => Got(msgs[i])), clock) == HandleAll(s, msgs, clock)
    decreases |msgs|
  {
    if msgs != [] {
      var hs := seq(|msgs|, i requires 0 <= i < |msgs| => Got(msgs[i]));
      assert hs[1..] == seq(|msgs[1..]|, i requires 0 <= i < |msgs[1..]| => Got(msgs[1..][i]));
      OnlyGot(Handle(s, ParseOf(msgs[0]), clock), msgs[1..], clock);
    }
  }

  ghost predicate CleanLevels(levels: seq<LevelText>) {
    forall i | 0 <= i < |levels| :: NoSoh(levels[i].px) && NoSoh(levels[i].qty)
  }

  /** The texts of a snapshot contain no separator. */
  ghost predicate CleanHappening(h: Happening) {
    h.Streamed? ==> NoSoh(h.reqId) && NoSoh(h.sym) && CleanLevels(h.bids) && CleanLevels(h.offers)
  }

  lemma {:induction false} LevelsAreClean(kind: string, levels: seq<LevelText>)
    requires NoSoh(kind) && CleanLevels(levels)
    ensures CleanBody(LevelFields(kind, levels))
    decreases |levels|
  {
    if levels != [] {
      FieldIsClean("269", kind);
      FieldIsClean("270", levels[0].px);
      FieldIsClean("271", levels[0].qty);
      LevelsAreClean(kind, levels[1..]);
      CleanConcat([Field("269", kind), Field("270", levels[0].px), Field("271", levels[0].qty)],
        LevelFields(kind, levels[1..]));
    }
  }

  lemma SnapshotIsClean(reqId: string, sym: string, bids: seq<LevelText>, offers: seq<LevelText>)
    requires NoSoh(reqId) && NoSoh(sym) && CleanLevels(bids) && CleanLevels(offers)
    ensures CleanBody(SnapshotFields(reqId, sym, bids, offers))
  {
    var n := |bids| + |offers|;
    PrintsDigits(n);
    DigitsAreClean(Print(n));
    FieldIsClean("262", reqId);
    FieldIsClean("55", sym);
    FieldIsClean("207", "ROFX");
    FieldIsClean("268", Print(n));
    LevelsAreClean("0", bids);
    LevelsAreClean("1", offers);
    var head := [Field("262", reqId), Field("55", sym), Field("207", "ROFX"), Field("268", Print(n))];
    CleanConcat(head, LevelFields("0", bids));
    CleanConcat(head + LevelFields("0", bids), LevelFields("1", offers));
  }

  lemma {:induction false} LifeIsOrderly(s: Peer, hs: seq<Happening>, clock: Clock)
    requires Orderly(s) && CleanClock(clock) && forall i | 0 <= i < |hs| :: CleanHappening(hs[i])
    ensures Orderly(LiveThrough(s, hs, clock)) && s.sent <= LiveThrough(s, hs, clock).sent
    decreases |hs|
  {
    if hs != [] {
      match hs[0] {
        case Got(raw) =>
          ParsedIsClean(raw);
          HandleIsOrderly(s, ParseOf(raw), clock);
        case Streamed(reqId, sym, bids, offers) =>
          assert CleanHappening(hs[0]);
          SnapshotIsClean(reqId, sym, bids, offers);
          SendIsOrderly(s, "W", SnapshotFields(reqId, sym, bids, offers), clock);
      }
      LifeIsOrderly(Live(s, hs[0], clock), hs[1..], clock);
    }
  }

  // ------------------------------ reading back ------------------------------

  lemma FirstValueRead(m: Message, i: nat)
    requires CleanMessage(m) && i < |AllFields(m)| && FirstOfTag(AllFields(m), i) && AllFields(m)[i].tag != SYMBOLS_KEY
    ensures var p := ParseOf(Wire(m)); var f := AllFields(m)[i];
      f.tag in p.fields && p.fields[f.tag] == f.value
  {
    ParseInvertsBuild(m);
  }

  lemma SeqNumIsRead(m: Message)
    requires CleanMessage(m) && m.seqNum < TWO_64
    ensures var p := ParseOf(Wire(m));
      "34" in p.fields && StrToULL(p.fields["34"]) == m.seqNum
  {
    assert AllFields(m)[3] == Field("34", Print(m.seqNum));
    FirstValueRead(m, 3);
    StrToULLInvertsPrint(m.seqNum, "");
    assert Print(m.seqNum) + "" == Print(m.seqNum);
  }

  /**
   Whatever a session is sent, whatever snapshots it streams in between, and
   however its output is cut on the way back: the client receives exactly the
   messages sent, numbered 1, 2, 3 and so on.
   */
  lemma ClientSeesNumberedReplies(hs: seq<Happening>, clock: Clock, chunks: seq<string>)
    requires CleanClock(clock) && forall i | 0 <= i < |hs| :: CleanHappening(hs[i])
    requires var sent := LiveThrough(FRESH, hs, clock).sent;
      |sent| < TWO_64 && Concat(chunks) == Concat(Wires(sent))
    ensures var sent, got := LiveThrough(FRESH, hs, clock).sent, Feed("", chunks);
      && got == Framed(Wires(sent), "")
      && forall i | 0 <= i < |sent| :: NumberRead(got.msgs[i], i + 1)
  {
    LifeIsOrderly(FRESH, hs, clock);
    var sent := LiveThrough(FRESH, hs, clock).sent;
    FramingInvertsBuilding(sent, chunks);
    forall i | 0 <= i < |sent| ensures NumberRead(Wires(sent)[i], i + 1) {
      SeqNumIsRead(sent[i]);
    }
  }

  ghost predicate NumberRead(raw: string, n: nat) {
    var p := ParseOf(raw);
    "34" in p.fields && StrToULL(p.fields["34"]) == n
  }

  /** The report the engine decodes from these fields, as far as id and kind go. */
  ghost predicate ReadsAs(raw: string, id: nat, kind: Events.ExecKind) {
    var p := ParseOf(raw);
    && "11" in p.fields && StrToULL(p.fields["11"]) == id
    && "150" in p.fields && |p.fields["150"]| == 1
    && "39" in p.fields && |p.fields["39"]| == 1
    && Events.KindOf(Some(p.fields["150"][0]), Some(p.fields["39"][0])) == kind
  }

  lemma ReportIsRead(s: Peer, m: Parsed, r: Report, clock: Clock, id: Word, kind: Events.ExecKind)
    requires Orderly(s) && CleanParsed(m) && CleanReport(r) && CleanClock(clock)
    requires "11" in m.fields && m.fields["11"] == Print(id)
    requires |r.execType| == 1 && |r.status| == 1
    requires Events.KindOf(Some(r.execType[0]), Some(r.status[0])) == kind
    ensures var t := ExecReport(s, m, r, clock);
      |t.sent| == |s.sent| + 1 && ReadsAs(Wire(t.sent[|s.sent|]), id, kind)
  {
    ExecReportIsOrderly(s, m, r, clock);
    FieldsAreRead(ExecReport(s, m, r, clock).sent[|s.sent|], s.orderNo + 1, m, r, clock(s.seqNum + 1).transact);
    StrToULLInvertsPrint(id, "");
    assert Print(id) + "" == Print(id);
  }

  lemma FieldsAreRead(msg: Message, no: nat, m: Parsed, r: Report, time: string)
    requires CleanMessage(msg) && msg.body == ReportFields(no, m, r, time)
    ensures var p := ParseOf(Wire(msg)).fields;
      && "150" in p && p["150"] == r.execType && "39" in p && p["39"] == r.status
      && "11" in p && p["11"] == GetOr(m, "11", "")
  {
    ReportTags(msg, no, m, r, time);
    var fs := AllFields(msg);
    assert fs[9] == Field("150", r.execType) && fs[10] == Field("39", r.status);
    assert fs[11] == Field("11", GetOr(m, "11", ""));
    FirstValueRead(msg, 9);
    FirstValueRead(msg, 10);
    FirstValueRead(msg, 11);
  }

  lemma ReportTags(msg: Message, no: nat, m: Parsed, r: Report, time: string)
    requires msg.body == ReportFields(no, m, r, time)
    ensures var fs := AllFields(msg);
      |fs| > 11 && FirstOfTag(fs, 9) && FirstOfTag(fs, 10) && FirstOfTag(fs, 11)
  {
    var fs := AllFields(msg);
    forall j | 0 <= j < 12 ensures fs[j].tag == TAGS[j] {
      FrontTags(msg, no, m, r, time, j);
    }
    DistinctTags();
  }

  const TAGS := ["8", "9", "35", "34", "49", "52", "56", "37", "17", "150", "39", "11"]

  lemma FrontTags(msg: Message, no: nat, m: Parsed, r: Report, time: string, j: nat)
    requires msg.body == ReportFields(no, m, r, time) && j < 12
    ensures |AllFields(msg)| > 11 && AllFields(msg)[j].tag == TAGS[j]
  {
    var fs := AllFields(msg);
    if j >= 7 {
      assert fs[j] == msg.body[j - 7];
    }
  }

  lemma DistinctTags()
    ensures forall i, j | 0 <= j < i < 12 :: TAGS[i] != TAGS[j]
  {
    forall i, j | 0 <= j < i < 12 ensures TAGS[i] != TAGS[j] {
      assert TagNumber(j) != TagNumber(i);
    }
  }

  function TagNumber(i: nat): (n: nat)
    requires i < 12
    ensures n == ReadDigits(TAGS[i], 0)
  {
    [8, 9, 35, 34, 49, 52, 56, 37, 17, 150, 39, 11][i]
  }

  /**
   A cancel request with ClOrdID `id` is confirmed under that same id, not under
   the id of the order it cancels, when the engine decodes the reply.
   */
  lemma CancelConfirmedUnderRequestId(s: Peer, raw: string, id: Word, clock: Clock)
    requires Orderly(s) && CleanClock(clock)
    requires var m := ParseOf(raw); GetOr(m, "35", "") == "F" && "11" in m.fields && m.fields["11"] == Print(id)
    ensures var t := Handle(s, ParseOf(raw), clock);
      |t.sent| == |s.sent| + 1 && ReadsAs(Wire(t.sent[|s.sent|]), id, Events.KCanceled)
  {
    ParsedIsClean(raw);
    ReportIsRead(s, ParseOf(raw), Report("4", "4", "0", "0"), clock, id, Events.KCanceled);
  }

  /** An order is acknowledged as New under its own id, and a fill can only come after that. */
  lemma OrderAcknowledgedFirst(s: Peer, raw: string, id: Word, clock: Clock)
    requires Orderly(s) && CleanClock(clock)
    requires var m := ParseOf(raw); GetOr(m, "35", "") == "D" && "11" in m.fields && m.fields["11"] == Print(id)
    ensures var t := Handle(s, ParseOf(raw), clock); var n := |s.sent|;
      && n < |t.sent| <= n + 2 && ReadsAs(Wire(t.sent[n]), id, Events.KNew)
      && (|t.sent| == n + 2 ==> ReadsAs(Wire(t.sent[n + 1]), id, Events.KFilled))
  {
    var m := ParseOf(raw);
    ParsedIsClean(raw);
    var t := AckThenFill(s, m, id, clock);
    assert Handle(s, m, clock).sent == t.sent
      || Handle(s, m, clock).sent == ExecReport(s, m, AckOf(m), clock).sent;
  }

  function AckOf(m: Parsed): Report {
    Report("0", "0", GetOr(m, "38", "1"), "0")
  }

  function FillOf(m: Parsed): Report {
    FillReport("F", "2", "0", GetOr(m, "38", "1"), GetOr(m, "44", "0"), GetOr(m, "38", "1"))
  }

  lemma AckThenFill(s: Peer, m: Parsed, id: Word, clock: Clock) returns (t: Peer)
    requires Orderly(s) && CleanParsed(m) && CleanClock(clock) && "11" in m.fields && m.fields["11"] == Print(id)
    ensures var a, n := ExecReport(s, m, AckOf(m), clock), |s.sent|;
      && t == ExecReport(a, m, FillOf(m), clock) && |a.sent| == n + 1 && |t.sent| == n + 2 && a.sent <= t.sent
      && ReadsAs(Wire(a.sent[n]), id, Events.KNew) && ReadsAs(Wire(t.sent[n + 1]), id, Events.KFilled)
  {
    CleanValue(m, "38", "1");
    CleanValue(m, "44", "0");
    var a := ExecReport(s, m, AckOf(m), clock);
    t := ExecReport(a, m, FillOf(m), clock);
    ReportIsRead(s, m, AckOf(m), clock, id, Events.KNew);
    ExecReportIsOrderly(s, m, AckOf(m), clock);
    ReportIsRead(a, m, FillOf(m), clock, id, Events.KFilled);
    ExecReportIsOrderly(a, m, FillOf(m), clock);
  }
}
