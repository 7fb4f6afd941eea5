/**
 What a client reads in the replies of the mock exchange, field by field: the
 values of its own request, the state the exchange reports, and the running
 numbers of the execution reports.
 */
module ReplyFields {
  import opened Common
  import opened Decimal
  import opened FixCodec
  import opened Framing
  import opened MockSession
  import opened MockReplies

  // --------------------------- reading fields ---------------------------

  /** The value a reader of the message finds under the tag. */
  ghost predicate Reads(msg: Message, tag: string, value: string) {
    var p := ParseOf(Wire(msg)).fields; tag in p && p[tag] == value
  }

  /** The first fields have tags with these numbers. */
  ghost predicate Numbered(fs: seq<Field>, ns: seq<nat>) {
    |ns| <= |fs| && forall j | 0 <= j < |ns| :: ReadDigits(fs[j].tag, 0) == ns[j]
  }

  /** `place` tells where each of these numbers stands, so they are all different. */
  ghost predicate Placed(ns: seq<nat>, place: nat -> nat) {
    forall i | 0 <= i < |ns| :: ns[i] > 0 && place(ns[i]) == i
  }

  /** Fields of different tags are all read. */
  lemma BodyIsRead(msg: Message, ns: seq<nat>, place: nat -> nat)
    requires CleanMessage(msg) && Numbered(AllFields(msg), ns) && Placed(ns, place)
    ensures forall i | 0 <= i < |ns| :: Reads(msg, AllFields(msg)[i].tag, AllFields(msg)[i].value)
  {
    assert ReadDigits(SYMBOLS_KEY, 0) == 0;
    forall i | 0 <= i < |ns| ensures Reads(msg, AllFields(msg)[i].tag, AllFields(msg)[i].value) {
      assert place(ns[i]) == i;
      forall j | 0 <= j < i ensures AllFields(msg)[j].tag != AllFields(msg)[i].tag {
        assert place(ns[j]) == j;
      }
      FirstValueRead(msg, i);
    }
  }

  const HEADER: seq<nat> := [8, 9, 35, 34, 49, 52, 56]

  function HeaderPlace(n: nat): nat {
    match n
    case 8 => 0 case 9 => 1 case 35 => 2 case 34 => 3 case 49 => 4 case 52 => 5 case 56 => 6 case _ => 7
  }

  /** The standard header comes first, then the body, then the trailer. */
  lemma HeaderFirst(msg: Message) returns (fs: seq<Field>)
    ensures fs == AllFields(msg) && |fs| == |msg.body| + 8 && fs[7..7 + |msg.body|] == msg.body
    ensures fs[|fs| - 1].tag == "10"
    ensures fs[0] == Field("8", "FIXT.1.1") && fs[1].tag == "9" && fs[2] == Field("35", msg.kind)
    ensures fs[3] == Field("34", Print(msg.seqNum)) && fs[4] == Field("49", msg.sender)
    ensures fs[5] == Field("52", msg.time) && fs[6] == Field("56", msg.target)
  {
    fs := AllFields(msg);
    assert fs[7..7 + |msg.body|] == msg.body;
  }

  lemma HeaderNumbers()
    ensures ReadDigits("8", 0) == 8 && ReadDigits("9", 0) == 9 && ReadDigits("35", 0) == 35 && ReadDigits("34", 0) == 34
    ensures ReadDigits("49", 0) == 49 && ReadDigits("52", 0) == 52 && ReadDigits("56", 0) == 56
  {
  }

  predicate HeaderTags(fs: seq<Field>) {
    && |fs| >= 7 && fs[0].tag == "8" && fs[1].tag == "9" && fs[2].tag == "35" && fs[3].tag == "34"
    && fs[4].tag == "49" && fs[5].tag == "52" && fs[6].tag == "56"
  }

  lemma HeaderNumbered(fs: seq<Field>)
    requires HeaderTags(fs)
    ensures Numbered(fs, HEADER)
  {
    HeaderNumbers();
  }

  /** Who sent the message, to whom, when, of which kind, and its number. */
  lemma HeaderIsRead(msg: Message)
    requires CleanMessage(msg)
    ensures Reads(msg, "8", "FIXT.1.1") && Reads(msg, "35", msg.kind) && Reads(msg, "34", Print(msg.seqNum))
    ensures Reads(msg, "49", msg.sender) && Reads(msg, "52", msg.time) && Reads(msg, "56", msg.target)
  {
    var fs := HeaderFirst(msg);
    HeaderNumbered(fs);
    BodyIsRead(msg, HEADER, HeaderPlace);
    assert Reads(msg, fs[0].tag, fs[0].value) && Reads(msg, fs[2].tag, fs[2].value);
    assert Reads(msg, fs[3].tag, fs[3].value) && Reads(msg, fs[4].tag, fs[4].value);
    assert Reads(msg, fs[5].tag, fs[5].value) && Reads(msg, fs[6].tag, fs[6].value);
  }

  /** The first `n` fields of the body are read. */
  ghost predicate BodyReads(msg: Message, n: nat) {
    n <= |msg.body| && forall j | 0 <= j < n :: Reads(msg, msg.body[j].tag, msg.body[j].value)
  }

  lemma BodyBehindHeader(msg: Message, ns: seq<nat>, place: nat -> nat)
    requires CleanMessage(msg) && Placed(HEADER + ns, place) && |ns| <= |msg.body|
    requires forall j | 0 <= j < |ns| :: ReadDigits(msg.body[j].tag, 0) == ns[j]
    ensures BodyReads(msg, |ns|)
  {
    var fs := HeaderFirst(msg);
    HeaderNumbered(fs);
    forall j | 0 <= j < |msg.body| ensures fs[7 + j] == msg.body[j] {
      assert fs[7 + j] == fs[7..7 + |msg.body|][j];
    }
    assert Numbered(fs, HEADER + ns);
    BodyIsRead(msg, HEADER + ns, place);
    forall j | 0 <= j < |ns| ensures Reads(msg, msg.body[j].tag, msg.body[j].value) {
      assert Reads(msg, fs[7 + j].tag, fs[7 + j].value);
    }
  }

  // ----------------------------- one report -----------------------------

  /** The twelve fields every report has. */
  lemma BodyFirst(no: nat, m: Parsed, r: Report, time: string) returns (b: seq<Field>)
    ensures b == ReportFields(no, m, r, time) && |b| >= 12 && b[12..] == AmountFields(m, r, time)[3..]
    ensures b[0] == Field("37", "MOCK" + PrintPadded(no, 6)) && b[1] == Field("17", "E" + PrintPadded(no, 6))
    ensures b[2] == Field("150", r.execType) && b[3] == Field("39", r.status)
    ensures b[4] == Field("11", if "11" in m.fields then m.fields["11"] else "")
    ensures b[5].tag == "55"
    ensures b[5].value == if "55" in m.fields then m.fields["55"] else if m.symbols == [] then "" else m.symbols[0]
    ensures b[6] == Field("207", "ROFX") && b[7] == Field("54", if "54" in m.fields then m.fields["54"] else "1")
    ensures b[8] == Field("38", if "38" in m.fields then m.fields["38"] else "1")
    ensures b[9] == Field("151", r.leaves) && b[10] == Field("14", r.cum) && b[11] == Field("60", time)
  {
    b := ReportFields(no, m, r, time);
    var a := AmountFields(m, r, time);
    assert b[..2] == IdFields(no) && b[2..4] == StateFields(r) && b[4..9] == OrderFields(m) && b[9..] == a;
    assert b[4] == b[4..9][0] && b[5] == b[4..9][1] && b[6] == b[4..9][2] && b[7] == b[4..9][3] && b[8] == b[4..9][4];
    assert b[9] == b[9..][0] && b[10] == b[9..][1] && b[11] == b[9..][2] && b[12..] == b[9..][3..];
  }

  lemma TwoDigits()
    ensures ReadDigits("37", 0) == 37 && ReadDigits("17", 0) == 17 && ReadDigits("39", 0) == 39
    ensures ReadDigits("11", 0) == 11 && ReadDigits("55", 0) == 55 && ReadDigits("54", 0) == 54
    ensures ReadDigits("38", 0) == 38 && ReadDigits("14", 0) == 14 && ReadDigits("60", 0) == 60
    ensures ReadDigits("44", 0) == 44 && ReadDigits("31", 0) == 31 && ReadDigits("32", 0) == 32
  {
  }

  lemma ReadThree(s: string)
    requires |s| == 3 && forall i | 0 <= i < 3 :: IsDigit(s[i])
    ensures ReadDigits(s, 0) == 100 * DigitValue(s[0]) + 10 * DigitValue(s[1]) + DigitValue(s[2])
  {
    assert s[1..][1..] == s[2..] && s[2..][1..] == [];
    var ten := 10 * DigitValue(s[0]) + DigitValue(s[1]);
    assert ReadDigits(s[2..], ten) == 10 * ten + DigitValue(s[2]);
  }

  lemma ThreeDigits()
    ensures ReadDigits("150", 0) == 150 && ReadDigits("207", 0) == 207 && ReadDigits("151", 0) == 151
  {
    ReadThree("150");
    ReadThree("207");
    ReadThree("151");
  }

  const REPORT: seq<nat> := [37, 17, 150, 39, 11, 55, 207, 54, 38, 151, 14, 60]

  /** Where a tag stands in a report; with a price the last trade comes one place later. */
  function ReportPlace(n: nat, priced: bool): nat {
    match n
    case 8 => 0 case 9 => 1 case 35 => 2 case 34 => 3 case 49 => 4 case 52 => 5 case 56 => 6
    case 37 => 7 case 17 => 8 case 150 => 9 case 39 => 10 case 11 => 11 case 55 => 12 case 207 => 13
    case 54 => 14 case 38 => 15 case 151 => 16 case 14 => 17 case 60 => 18
    case 44 => if priced then 19 else 99
    case 31 => if priced then 20 else 19
    case 32 => if priced then 21 else 20
    case _ => 99
  }

  function Extras(priced: bool, fill: bool): seq<nat> {
    if priced && fill then [44, 31, 32] else if priced then [44] else if fill then [31, 32] else []
  }

  lemma ReportPlaced(priced: bool, fill: bool)
    ensures Placed(HEADER + (REPORT + Extras(priced, fill)), n => ReportPlace(n, priced))
  {
    var ns := HEADER + (REPORT + Extras(priced, fill));
    forall i | 0 <= i < |ns| ensures ns[i] > 0 && ReportPlace(ns[i], priced) == i {
      if 7 <= i < 19 {
        assert ns[i] == REPORT[i - 7];
      } else if i >= 19 {
        assert ns[i] == Extras(priced, fill)[i - 19];
      }
    }
  }

  predicate FirstTags(b: seq<Field>) {
    && |b| >= 12 && b[0].tag == "37" && b[1].tag == "17" && b[2].tag == "150" && b[3].tag == "39" && b[4].tag == "11"
    && b[5].tag == "55" && b[6].tag == "207" && b[7].tag == "54" && b[8].tag == "38" && b[9].tag == "151"
    && b[10].tag == "14" && b[11].tag == "60"
  }

  lemma FirstNumbered(b: seq<Field>)
    requires FirstTags(b)
    ensures forall j | 0 <= j < 12 :: ReadDigits(b[j].tag, 0) == REPORT[j]
  {
    TwoDigits();
    ThreeDigits();
  }

  lemma ExtrasNumbered(extra: seq<Field>, priced: bool, fill: bool)
    requires |extra| == |Extras(priced, fill)| && (priced ==> extra[0].tag == "44")
    requires fill ==> extra[|extra| - 2].tag == "31" && extra[|extra| - 1].tag == "32"
    ensures forall j | 0 <= j < |extra| :: ReadDigits(extra[j].tag, 0) == Extras(priced, fill)[j]
  {
    TwoDigits();
  }

  /** The price of the request, if it has one, and a fill's last trade follow the time. */
  lemma ExtraFields(no: nat, m: Parsed, r: Report, time: string) returns (extra: seq<Field>)
    ensures |ReportFields(no, m, r, time)| >= 12 && extra == ReportFields(no, m, r, time)[12..]
    ensures extra == (if "44" in m.fields && m.fields["44"] != "" then [Field("44", m.fields["44"])] else [])
      + (if r.FillReport? then [Field("31", r.px), Field("32", r.qty)] else [])
  {
    var b := BodyFirst(no, m, r, time);
    extra := b[12..];
  }

  lemma TagsFirst(no: nat, m: Parsed, r: Report, time: string)
    ensures FirstTags(ReportFields(no, m, r, time))
  {
    var b := BodyFirst(no, m, r, time);
  }

  lemma ReportNumbered(no: nat, m: Parsed, r: Report, time: string, priced: bool) returns (ns: seq<nat>)
    requires priced <==> "44" in m.fields && m.fields["44"] != ""
    ensures ns == REPORT + Extras(priced, r.FillReport?) && |ns| == |ReportFields(no, m, r, time)|
    ensures forall j | 0 <= j < |ns| :: ReadDigits(ReportFields(no, m, r, time)[j].tag, 0) == ns[j]
  {
    ns := REPORT + Extras(priced, r.FillReport?);
    TagsFirst(no, m, r, time);
    var extra := ExtraFields(no, m, r, time);
    FirstNumbered(ReportFields(no, m, r, time));
    ExtrasNumbered(extra, priced, r.FillReport?);
    NumbersJoin(ReportFields(no, m, r, time), extra, REPORT, Extras(priced, r.FillReport?));
  }

  lemma NumbersJoin(b: seq<Field>, extra: seq<Field>, first: seq<nat>, more: seq<nat>)
    requires |b| == |first| + |more| && extra == b[|first|..]
    requires forall j | 0 <= j < |first| :: ReadDigits(b[j].tag, 0) == first[j]
    requires forall j | 0 <= j < |more| :: ReadDigits(extra[j].tag, 0) == more[j]
    ensures forall j | 0 <= j < |b| :: ReadDigits(b[j].tag, 0) == (first + more)[j]
  {
    forall j | |first| <= j < |b| ensures ReadDigits(b[j].tag, 0) == more[j - |first|] {
      assert b[j] == extra[j - |first|];
    }
  }

  lemma ReportBodyIsRead(msg: Message, no: nat, m: Parsed, r: Report, time: string)
    requires CleanMessage(msg) && msg.body == ReportFields(no, m, r, time)
    ensures BodyReads(msg, |msg.body|)
  {
    var priced := "44" in m.fields && m.fields["44"] != "";
    var ns := ReportNumbered(no, m, r, time, priced);
    ReportPlaced(priced, r.FillReport?);
    BodyBehindHeader(msg, ns, n => ReportPlace(n, priced));
  }

  /** The fields of the request come back, with the exchange's defaults for missing ones. */
  ghost predicate Echoes(msg: Message, m: Parsed) {
    && Reads(msg, "11", if "11" in m.fields then m.fields["11"] else "")
    && Reads(msg, "55", if "55" in m.fields then m.fields["55"] else if m.symbols == [] then "" else m.symbols[0])
    && Reads(msg, "207", "ROFX") && Reads(msg, "54", if "54" in m.fields then m.fields["54"] else "1")
    && Reads(msg, "38", if "38" in m.fields then m.fields["38"] else "1")
  }

  /** The report's running number, in both its ids, and the state of the order. */
  ghost predicate States(msg: Message, no: nat, execType: string, status: string, leaves: string, cum: string) {
    && Reads(msg, "37", "MOCK" + PrintPadded(no, 6)) && Reads(msg, "17", "E" + PrintPadded(no, 6))
    && Reads(msg, "150", execType) && Reads(msg, "39", status) && Reads(msg, "151", leaves) && Reads(msg, "14", cum)
  }

  /** Every execution report: its running numbers, its state, the fields of the request, and the time. */
  lemma ReportFieldsAreRead(msg: Message, no: nat, m: Parsed, r: Report, time: string)
    requires CleanMessage(msg) && msg.body == ReportFields(no, m, r, time)
    ensures States(msg, no, r.execType, r.status, r.leaves, r.cum) && Echoes(msg, m) && Reads(msg, "60", time)
  {
    ReportBodyIsRead(msg, no, m, r, time);
    var b := BodyFirst(no, m, r, time);
    assert forall i | 0 <= i < 12 :: Reads(msg, b[i].tag, b[i].value);
  }

  /** The request's price, if it has one, and a fill's last trade. */
  lemma ReportExtrasAreRead(msg: Message, no: nat, m: Parsed, r: Report, time: string)
    requires CleanMessage(msg) && msg.body == ReportFields(no, m, r, time)
    ensures "44" in m.fields && m.fields["44"] != "" ==> Reads(msg, "44", m.fields["44"])
    ensures r.FillReport? ==> Reads(msg, "31", r.px) && Reads(msg, "32", r.qty)
  {
    ReportBodyIsRead(msg, no, m, r, time);
    var extra := ExtraFields(no, m, r, time);
    forall i | 0 <= i < |extra| ensures Reads(msg, extra[i].tag, extra[i].value) {
      assert extra[i] == msg.body[12 + i];
    }
    var price := if "44" in m.fields && m.fields["44"] != "" then [Field("44", m.fields["44"])] else [];
    var fill := if r.FillReport? then [Field("31", r.px), Field("32", r.qty)] else [];
    ReadTogether(msg, price, fill);
    assert price != [] ==> Reads(msg, price[0].tag, price[0].value);
    assert fill != [] ==> Reads(msg, fill[0].tag, fill[0].value) && Reads(msg, fill[1].tag, fill[1].value);
  }

  lemma ReadTogether(msg: Message, a: seq<Field>, b: seq<Field>)
    requires forall i | 0 <= i < |a + b| :: Reads(msg, (a + b)[i].tag, (a + b)[i].value)
    ensures forall i | 0 <= i < |a| :: Reads(msg, a[i].tag, a[i].value)
    ensures forall i | 0 <= i < |b| :: Reads(msg, b[i].tag, b[i].value)
  {
    assert forall i | 0 <= i < |a| :: (a + b)[i] == a[i];
    assert forall i | 0 <= i < |b| :: (a + b)[|a| + i] == b[i];
  }

  // ----------------------------- whole replies -----------------------------

  /** The reply numbered `n`, of this kind, from the exchange to the session's user. */
  ghost predicate Addressed(msg: Message, n: nat, kind: string, user: string) {
    && Reads(msg, "35", kind) && Reads(msg, "34", Print(n)) && Reads(msg, "49", "ROFX") && Reads(msg, "56", user)
  }

  lemma ReportSent(s: Peer, m: Parsed, r: Report, clock: Clock) returns (t: Peer, msg: Message)
    requires Orderly(s) && CleanParsed(m) && CleanReport(r) && CleanClock(clock)
    ensures t == ExecReport(s, m, r, clock) && t.sent == s.sent + [msg] && Orderly(t)
    ensures t.orderNo == s.orderNo + 1 && t.user == s.user && t.alive == s.alive && t.seqNum == s.seqNum + 1
    ensures Addressed(msg, s.seqNum + 1, "8", s.user) && Echoes(msg, m)
    ensures States(msg, s.orderNo + 1, r.execType, r.status, r.leaves, r.cum)
    ensures "44" in m.fields && m.fields["44"] != "" ==> Reads(msg, "44", m.fields["44"])
    ensures r.FillReport? ==> Reads(msg, "31", r.px) && Reads(msg, "32", r.qty)
  {
    t := ExecReport(s, m, r, clock);
    msg := t.sent[|s.sent|];
    ExecReportIsOrderly(s, m, r, clock);
    HeaderIsRead(msg);
    ReportFieldsAreRead(msg, s.orderNo + 1, m, r, clock(s.seqNum + 1).transact);
    ReportExtrasAreRead(msg, s.orderNo + 1, m, r, clock(s.seqNum + 1).transact);
  }

  lemma AckSent(s: Peer, m: Parsed, clock: Clock) returns (t: Peer, msg: Message)
    requires Orderly(s) && CleanParsed(m) && CleanClock(clock)
    ensures t == ExecReport(s, m, AckOf(m), clock) && t.sent == s.sent + [msg] && Orderly(t)
    ensures t.orderNo == s.orderNo + 1 && t.user == s.user && t.alive == s.alive && t.seqNum == s.seqNum + 1
    ensures Addressed(msg, s.seqNum + 1, "8", s.user) && Echoes(msg, m)
    ensures States(msg, s.orderNo + 1, "0", "0", if "38" in m.fields then m.fields["38"] else "1", "0")
  {
    CleanValue(m, "38", "1");
    t, msg := ReportSent(s, m, AckOf(m), clock);
  }

  lemma FillSent(s: Peer, m: Parsed, clock: Clock) returns (t: Peer, msg: Message)
    requires Orderly(s) && CleanParsed(m) && CleanClock(clock)
    ensures t == ExecReport(s, m, FillOf(m), clock) && t.sent == s.sent + [msg] && Orderly(t)
    ensures t.orderNo == s.orderNo + 1 && t.alive == s.alive && t.seqNum == s.seqNum + 1
    ensures var qty := if "38" in m.fields then m.fields["38"] else "1";
      && Addressed(msg, s.seqNum + 1, "8", s.user) && Echoes(msg, m)
      && States(msg, s.orderNo + 1, "F", "2", "0", qty)
      && Reads(msg, "31", if "44" in m.fields then m.fields["44"] else "0") && Reads(msg, "32", qty)
  {
    CleanValue(m, "38", "1");
    CleanValue(m, "44", "0");
    t, msg := ReportSent(s, m, FillOf(m), clock);
  }

  /**
   An order is acknowledged with its own fields, and filled at once, at its price
   and in full, exactly when the acknowledgement's running number is a multiple of
   five. Each report takes the next running number.
   */
  lemma OrderIsAnswered(s: Peer, raw: string, clock: Clock)
    requires Orderly(s) && CleanClock(clock) && GetOr(ParseOf(raw), "35", "") == "D"
    ensures var m, t, n := ParseOf(raw), Handle(s, ParseOf(raw), clock), |s.sent|;
      var no, qty := s.orderNo + 1, if "38" in m.fields then m.fields["38"] else "1";
      && |t.sent| == n + (if no % 5 == 0 then 2 else 1) && s.sent <= t.sent && t.orderNo == s.orderNo + (|t.sent| - n)
      && Addressed(t.sent[n], n + 1, "8", s.user) && Echoes(t.sent[n], m) && States(t.sent[n], no, "0", "0", qty, "0")
      && (no % 5 == 0 ==>
            && Addressed(t.sent[n + 1], n + 2, "8", s.user) && Echoes(t.sent[n + 1], m)
            && States(t.sent[n + 1], no + 1, "F", "2", "0", qty)
            && Reads(t.sent[n + 1], "31", if "44" in m.fields then m.fields["44"] else "0")
            && Reads(t.sent[n + 1], "32", qty))
  {
    var m := ParseOf(raw);
    ParsedIsClean(raw);
    var t, ack := AckSent(s, m, clock);
    if t.orderNo % 5 == 0 {
      var u, fill := FillSent(t, m, clock);
    }
  }

  /** A cancel request is confirmed with its own fields. */
  lemma CancelIsAnswered(s: Peer, raw: string, clock: Clock)
    requires Orderly(s) && CleanClock(clock) && GetOr(ParseOf(raw), "35", "") == "F"
    ensures var m, t, n := ParseOf(raw), Handle(s, ParseOf(raw), clock), |s.sent|;
      && |t.sent| == n + 1 && s.sent <= t.sent && t.orderNo == s.orderNo + 1
      && Addressed(t.sent[n], n + 1, "8", s.user) && Echoes(t.sent[n], m)
      && States(t.sent[n], s.orderNo + 1, "4", "4", "0", "0")
  {
    ParsedIsClean(raw);
    var t, msg := ReportSent(s, ParseOf(raw), Report("4", "4", "0", "0"), clock);
  }

  /** Everything else a reply does to the session: the next number, and nothing more. */
  lemma SentTo(s: Peer, kind: string, fields: seq<Field>, clock: Clock) returns (t: Peer, msg: Message)
    requires Orderly(s) && NoSoh(kind) && CleanClock(clock) && CleanBody(fields)
    ensures t == Send(s, kind, fields, clock) && t.sent == s.sent + [msg] && msg.body == fields && CleanMessage(msg)
    ensures t.seqNum == s.seqNum + 1 && t.user == s.user && t.alive == s.alive && t.orderNo == s.orderNo
    ensures Addressed(msg, s.seqNum + 1, kind, s.user)
  {
    SendIsOrderly(s, kind, fields, clock);
    t := Send(s, kind, fields, clock);
    msg := t.sent[|s.sent|];
    HeaderIsRead(msg);
  }

  /** A test request is answered with a heartbeat that repeats its id. */
  lemma TestRequestIsAnswered(s: Peer, raw: string, clock: Clock)
    requires Orderly(s) && CleanClock(clock) && GetOr(ParseOf(raw), "35", "") == "1"
    ensures var m, t, n := ParseOf(raw), Handle(s, ParseOf(raw), clock), |s.sent|;
      && |t.sent| == n + 1 && t == s.(seqNum := n + 1, sent := t.sent) && s.sent <= t.sent
      && Addressed(t.sent[n], n + 1, "0", s.user)
      && Reads(t.sent[n], "112", if "112" in m.fields then m.fields["112"] else "")
  {
    var m := ParseOf(raw);
    ParsedIsClean(raw);
    CleanValue(m, "112", "");
    FieldIsClean("112", GetOr(m, "112", ""));
    var t, msg := SentTo(s, "0", [Field("112", GetOr(m, "112", ""))], clock);
    ReadThree("112");
    BodyBehindHeader(msg, [112], n => if n == 112 then 7 else HeaderPlace(n));
    assert Reads(msg, msg.body[0].tag, msg.body[0].value);
  }

  /** A logout is answered, and the session ends. */
  lemma LogoutIsAnswered(s: Peer, raw: string, clock: Clock)
    requires Orderly(s) && CleanClock(clock) && GetOr(ParseOf(raw), "35", "") == "5"
    ensures var t, n := Handle(s, ParseOf(raw), clock), |s.sent|;
      && |t.sent| == n + 1 && t == s.(seqNum := n + 1, sent := t.sent, alive := false) && s.sent <= t.sent
      && Addressed(t.sent[n], n + 1, "5", s.user)
  {
    var t, msg := SentTo(s, "5", [], clock);
  }

  /** A logon names the user that this and all later messages go to, and is answered with its own interval. */
  lemma LogonIsAnswered(s: Peer, raw: string, clock: Clock)
    requires Orderly(s) && CleanClock(clock) && GetOr(ParseOf(raw), "35", "") == "A"
    ensures var m, t, n := ParseOf(raw), Handle(s, ParseOf(raw), clock), |s.sent|;
      var user := if "49" in m.fields then m.fields["49"] else "CLIENT";
      && |t.sent| == n + 1 && t == s.(seqNum := n + 1, sent := t.sent, user := user) && s.sent <= t.sent
      && Addressed(t.sent[n], n + 1, "A", user) && Reads(t.sent[n], "98", "0")
      && Reads(t.sent[n], "108", if "108" in m.fields then m.fields["108"] else "30") && Reads(t.sent[n], "1137", "9")
      && (if "141" in m.fields && m.fields["141"] == "Y" then Reads(t.sent[n], "141", "Y")
          else forall f | f in t.sent[n].body :: f.tag != "141")
  {
    var m := ParseOf(raw);
    ParsedIsClean(raw);
    CleanValue(m, "49", "CLIENT");
    CleanValue(m, "108", "30");
    var interval := GetOr(m, "108", "30");
    var reset := "141" in m.fields && m.fields["141"] == "Y";
    LogonBodyIsClean(interval, reset);
    var t, msg := SentTo(s.(user := GetOr(m, "49", "CLIENT")), "A", LogonBody(interval, reset), clock);
    LogonBodyIsRead(msg, interval, reset);
  }

  function LogonBody(interval: string, reset: bool): seq<Field> {
    [Field("98", "0"), Field("108", interval)] + (if reset then [Field("141", "Y")] else []) + [Field("1137", "9")]
  }

  lemma LogonBodyIsClean(interval: string, reset: bool)
    requires NoSoh(interval)
    ensures CleanBody(LogonBody(interval, reset))
  {
    FieldIsClean("98", "0");
    FieldIsClean("108", interval);
    FieldIsClean("141", "Y");
    FieldIsClean("1137", "9");
  }

  lemma LogonBodyIsRead(msg: Message, interval: string, reset: bool)
    requires CleanMessage(msg) && msg.body == LogonBody(interval, reset)
    ensures Reads(msg, "98", "0") && Reads(msg, "108", interval) && Reads(msg, "1137", "9")
    ensures if reset then Reads(msg, "141", "Y") else forall f | f in msg.body :: f.tag != "141"
  {
    if reset {
      ResetLogonIsRead(msg, interval);
    } else {
      PlainLogonIsRead(msg, interval);
    }
  }

  lemma ResetLogonIsRead(msg: Message, interval: string)
    requires CleanMessage(msg)
    requires msg.body == [Field("98", "0"), Field("108", interval), Field("141", "Y"), Field("1137", "9")]
    ensures Reads(msg, "98", "0") && Reads(msg, "108", interval) && Reads(msg, "141", "Y") && Reads(msg, "1137", "9")
  {
    LogonNumbers();
    BodyBehindHeader(msg, [98, 108, 141, 1137], n => LogonPlace(n, true));
    assert Reads(msg, msg.body[0].tag, msg.body[0].value) && Reads(msg, msg.body[1].tag, msg.body[1].value);
    assert Reads(msg, msg.body[2].tag, msg.body[2].value) && Reads(msg, msg.body[3].tag, msg.body[3].value);
  }

  lemma PlainLogonIsRead(msg: Message, interval: string)
    requires CleanMessage(msg) && msg.body == [Field("98", "0"), Field("108", interval), Field("1137", "9")]
    ensures Reads(msg, "98", "0") && Reads(msg, "108", interval) && Reads(msg, "1137", "9")
  {
    LogonNumbers();
    BodyBehindHeader(msg, [98, 108, 1137], n => LogonPlace(n, false));
    assert Reads(msg, msg.body[0].tag, msg.body[0].value) && Reads(msg, msg.body[1].tag, msg.body[1].value);
    assert Reads(msg, msg.body[2].tag, msg.body[2].value);
  }

  function LogonPlace(n: nat, reset: bool): nat {
    match n
    case 98 => 7
    case 108 => 8
    case 141 => 9
    case 1137 => if reset then 10 else 9
    case _ => HeaderPlace(n)
  }

  lemma LogonNumbers()
    ensures ReadDigits("98", 0) == 98 && ReadDigits("108", 0) == 108 && ReadDigits("141", 0) == 141
    ensures ReadDigits("1137", 0) == 1137
  {
    ReadThree("108");
    ReadThree("141");
    assert "1137"[1..] == "137" && "137"[1..] == "37" && "37"[1..] == "7" && "7"[1..] == "";
    assert ReadDigits("7", 113) == 1137 && ReadDigits("37", 11) == 1137 && ReadDigits("137", 1) == 1137;
  }

  /** Every other kind of message changes nothing. */
  lemma OthersAreIgnored(s: Peer, raw: string, clock: Clock)
    requires GetOr(ParseOf(raw), "35", "") !in {"A", "1", "5", "D", "F"}
    ensures Handle(s, ParseOf(raw), clock) == s
  {
  }

  // -------------------------- streamed snapshots --------------------------

  /** Level `i` of this kind starts at field `at`: its kind, price and size. */
  predicate LevelAt(fs: seq<Field>, at: nat, kind: string, l: LevelText) {
    && at + 3 <= |fs| && fs[at] == Field("269", kind) && fs[at + 1] == Field("270", l.px)
    && fs[at + 2] == Field("271", l.qty)
  }

  lemma {:induction false} LevelsInOrder(kind: string, levels: seq<LevelText>)
    ensures |LevelFields(kind, levels)| == 3 * |levels|
    ensures forall i | 0 <= i < |levels| :: LevelAt(LevelFields(kind, levels), 3 * i, kind, levels[i])
    decreases |levels|
  {
    if levels != [] {
      var rest := LevelFields(kind, levels[1..]);
      LevelsInOrder(kind, levels[1..]);
      forall i | 0 <= i < |levels| ensures LevelAt(LevelFields(kind, levels), 3 * i, kind, levels[i]) {
        if i > 0 {
          assert LevelAt(rest, 3 * (i - 1), kind, levels[1..][i - 1]);
        }
      }
    }
  }

  /**
   A streamed snapshot: addressed and numbered like a reply, it names the request
   and the symbol, counts its entries, and lists the bids and then the offers, each
   with its kind, price and size.
   */
  lemma SnapshotIsStreamed(s: Peer, reqId: string, sym: string, bids: seq<LevelText>, offers: seq<LevelText>,
                           clock: Clock)
    requires Orderly(s) && CleanClock(clock) && NoSoh(reqId) && NoSoh(sym) && CleanLevels(bids) && CleanLevels(offers)
    ensures var t, n := Live(s, Streamed(reqId, sym, bids, offers), clock), |s.sent|;
      && |t.sent| == n + 1 && t == s.(seqNum := n + 1, sent := t.sent) && s.sent <= t.sent
      && Addressed(t.sent[n], n + 1, "W", s.user) && Reads(t.sent[n], "262", reqId) && Reads(t.sent[n], "55", sym)
      && Reads(t.sent[n], "268", Print(|bids| + |offers|)) && |t.sent[n].body| == 4 + 3 * (|bids| + |offers|)
      && (forall i | 0 <= i < |bids| :: LevelAt(t.sent[n].body, 4 + 3 * i, "0", bids[i]))
      && (forall i | 0 <= i < |offers| :: LevelAt(t.sent[n].body, 4 + 3 * (|bids| + i), "1", offers[i]))
  {
    SnapshotIsClean(reqId, sym, bids, offers);
    var body := SnapshotFields(reqId, sym, bids, offers);
    var t, msg := SentTo(s, "W", body, clock);
    SnapshotBody(reqId, sym, bids, offers);
    SnapshotHeadIsRead(msg, reqId, sym, Print(|bids| + |offers|));
  }

  function SnapshotPlace(n: nat): nat {
    match n
    case 262 => 7
    case 55 => 8
    case 207 => 9
    case 268 => 10
    case _ => HeaderPlace(n)
  }

  lemma SnapshotHeadIsRead(msg: Message, reqId: string, sym: string, count: string)
    requires CleanMessage(msg) && |msg.body| >= 4
    requires msg.body[0] == Field("262", reqId) && msg.body[1] == Field("55", sym)
    requires msg.body[2] == Field("207", "ROFX") && msg.body[3] == Field("268", count)
    ensures Reads(msg, "262", reqId) && Reads(msg, "55", sym) && Reads(msg, "268", count)
  {
    ReadThree("262");
    ReadThree("268");
    ThreeDigits();
    TwoDigits();
    BodyBehindHeader(msg, [262, 55, 207, 268], SnapshotPlace);
    assert Reads(msg, msg.body[0].tag, msg.body[0].value) && Reads(msg, msg.body[1].tag, msg.body[1].value);
    assert Reads(msg, msg.body[3].tag, msg.body[3].value);
  }

  lemma SnapshotBody(reqId: string, sym: string, bids: seq<LevelText>, offers: seq<LevelText>)
    ensures var b := SnapshotFields(reqId, sym, bids, offers);
      && |b| == 4 + 3 * (|bids| + |offers|) && b[0] == Field("262", reqId) && b[1] == Field("55", sym)
      && b[2] == Field("207", "ROFX") && b[3] == Field("268", Print(|bids| + |offers|))
      && (forall i | 0 <= i < |bids| :: LevelAt(b, 4 + 3 * i, "0", bids[i]))
      && (forall i | 0 <= i < |offers| :: LevelAt(b, 4 + 3 * (|bids| + i), "1", offers[i]))
  {
    LevelsInOrder("0", bids);
    LevelsInOrder("1", offers);
    forall i | 0 <= i < |bids|
      ensures LevelAt(SnapshotFields(reqId, sym, bids, offers), 4 + 3 * i, "0", bids[i])
    {
      assert LevelAt(LevelFields("0", bids), 3 * i, "0", bids[i]);
    }
    forall i | 0 <= i < |offers|
      ensures LevelAt(SnapshotFields(reqId, sym, bids, offers), 4 + 3 * (|bids| + i), "1", offers[i])
    {
      assert LevelAt(LevelFields("1", offers), 3 * i, "1", offers[i]);
    }
  }
}
