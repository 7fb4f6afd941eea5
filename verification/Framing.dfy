/**
 Cutting a byte stream into messages, as the receive loop of the mock exchange
 does: a message ends at the first SOH after the first `<SOH>10=`.
 */
module Framing {
  import opened Common
  import opened FixCodec

  predicate MarkerAt(s: string, i: nat) {
    i + 4 <= |s| && s[i] == SOH && s[i + 1] == '1' && s[i + 2] == '0' && s[i + 3] == '='
  }

  /** Where the first separator followed by `10=` is from `i` on; the length of `s` if nowhere. */
  function FindMarker(s: string, i: nat): (r: nat)
    requires i <= |s|
    ensures i <= r <= |s| && (r < |s| ==> MarkerAt(s, r))
    ensures forall j | i <= j < r :: !MarkerAt(s, j)
    decreases |s| - i
  {
    if i == |s| || MarkerAt(s, i) then i else FindMarker(s, i + 1)
  }

  /** `s.find(SOH, i)`, with the length of `s` for not found. */
  function FindSoh(s: string, i: nat): (r: nat)
    requires i <= |s|
    ensures i <= r <= |s| && (r < |s| ==> s[r] == SOH)
    ensures forall j | i <= j < r :: s[j] != SOH
    decreases |s| - i
  {
    if i == |s| || s[i] == SOH then i else FindSoh(s, i + 1)
  }

  /** The length of the first complete message in the buffer, 0 when there is none. */
  function Cut(s: string): (n: nat)
    ensures n <= |s|
    ensures n > 0 ==> IsCut(s, FindMarker(s, 0), n)
  {
    var e := FindMarker(s, 0);
    if e == |s| then 0 else
      var k := FindSoh(s, e + 1);
      if k == |s| then 0 else k + 1
  }

  /** `e` is the first marker and the message ends with the first SOH behind it. */
  ghost predicate IsCut(s: string, e: nat, n: nat) {
    && MarkerAt(s, e) && (forall j | 0 <= j < e :: !MarkerAt(s, j))
    && e + 5 <= n <= |s| && s[n - 1] == SOH && (forall j | e + 1 <= j < n - 1 :: s[j] != SOH)
  }

  lemma CutIsUnique(s: string, e: nat, n: nat)
    requires IsCut(s, e, n)
    ensures Cut(s) == n
  {
    assert FindMarker(s, 0) == e;
    var k := FindSoh(s, e + 1);
    assert s[n - 1] == SOH;
  }

  /** More input does not move an end that was already found. */
  lemma CutIsStable(a: string, b: string)
    requires Cut(a) > 0
    ensures Cut(a + b) == Cut(a)
  {
    var e := FindMarker(a, 0);
    MarkersAgree(a, b);
    CutIsUnique(a + b, e, Cut(a));
  }

  lemma MarkersAgree(a: string, b: string)
    ensures forall j: nat | j + 4 <= |a| :: MarkerAt(a + b, j) == MarkerAt(a, j)
  {
  }

  /** An end that lies within the first part was there before the second part came. */
  lemma CutWasThere(a: string, b: string)
    requires 0 < Cut(a + b) <= |a|
    ensures Cut(a) == Cut(a + b)
  {
    var e, n := FindMarker(a + b, 0), Cut(a + b);
    MarkersAgree(a, b);
    assert forall j | 0 <= j < |a| :: (a + b)[j] == a[j];
    assert IsCut(a, e, n);
    CutIsUnique(a, e, n);
  }

  // ------------------------------- the stream -------------------------------

  datatype Framed = Framed(msgs: seq<string>, rest: string)

  /** The inner loop: cut off messages until none is complete. */
  function SplitStream(buf: string): (f: Framed)
    ensures Cut(f.rest) == 0
    ensures f.msgs == [] ==> f.rest == buf
    ensures forall i | 0 <= i < |f.msgs| :: f.msgs[i] != ""
    decreases |buf|
  {
    var n := Cut(buf);
    if n == 0 then Framed([], buf)
    else
      var f := SplitStream(buf[n..]);
      Framed([buf[..n]] + f.msgs, f.rest)
  }

  function Concat(chunks: seq<string>): string {
    if chunks == [] then [] else chunks[0] + Concat(chunks[1..])
  }

  lemma ConcatCons(first: string, more: seq<string>)
    ensures Concat([first] + more) == first + Concat(more)
  {
    assert ([first] + more)[1..] == more;
  }

  /** No byte is lost, added or reordered. */
  lemma {:induction false} NothingIsLost(buf: string) returns (f: Framed)
    ensures f == SplitStream(buf) && Concat(f.msgs) + f.rest == buf
    decreases |buf|
  {
    var n := Cut(buf);
    if n == 0 {
      f := Framed([], buf);
    } else {
      var g := NothingIsLost(buf[n..]);
      f := Framed([buf[..n]] + g.msgs, g.rest);
      FirstOff(buf, n, g.msgs, g.rest);
    }
  }

  lemma FirstOff(buf: string, n: nat, ms: seq<string>, rest: string)
    requires n <= |buf| && Concat(ms) + rest == buf[n..]
    ensures Concat([buf[..n]] + ms) + rest == buf
  {
    var a := buf[..n];
    assert ([a] + ms)[1..] == ms;
    Regroup(a, Concat(ms), rest);
  }

  lemma SplitFirst(buf: string, first: string, more: string)
    requires buf == first + more && Cut(buf) == |first| > 0
    ensures SplitStream(buf) == Framed([first] + SplitStream(more).msgs, SplitStream(more).rest)
  {
    assert buf[..|first|] == first && buf[|first|..] == more;
  }

  /** Splitting in two goes: what the first part leaves over goes in front of the second. */
  lemma {:induction false} SplitInTwo(a: string, b: string) returns (f: Framed, g: Framed)
    ensures f == SplitStream(a) && g == SplitStream(f.rest + b)
    ensures SplitStream(a + b) == Framed(f.msgs + g.msgs, g.rest)
    decreases |a|
  {
    var n := Cut(a);
    if n == 0 {
      f, g := Framed([], a), SplitStream(a + b);
      Regroup([], g.msgs, []);
    } else {
      var first, more := a[..n], a[n..];
      assert a == first + more;
      CutIsStable(a, b);
      Regroup(first, more, b);
      var f', g' := SplitInTwo(more, b);
      SplitFirst(a, first, more);
      SplitFirst(a + b, first, more + b);
      Regroup([first], f'.msgs, g'.msgs);
      f, g := Framed([first] + f'.msgs, f'.rest), g';
    }
  }

  /** Receiving chunk by chunk, without regard to logouts. */
  function Feed(rest: string, chunks: seq<string>): Framed
    decreases |chunks|
  {
    if chunks == [] then Framed([], rest)
    else
      var f := SplitStream(rest + chunks[0]);
      var g := Feed(f.rest, chunks[1..]);
      Framed(f.msgs + g.msgs, g.rest)
  }

  /** However the network cuts the stream, the same messages come out. */
  lemma {:induction false} ChunkInvariance(rest: string, chunks: seq<string>)
    requires Cut(rest) == 0
    ensures Feed(rest, chunks) == SplitStream(rest + Concat(chunks))
    decreases |chunks|
  {
    if chunks == [] {
      assert rest + Concat(chunks) == rest;
    } else {
      Regroup(rest, chunks[0], Concat(chunks[1..]));
      var f, g := SplitInTwo(rest + chunks[0], Concat(chunks[1..]));
      ChunkInvariance(f.rest, chunks[1..]);
    }
  }

  // ------------------------ framing inverts building ------------------------

  lemma FieldShape(f: Field)
    requires CleanField(f)
    ensures var t := FieldText(f);
      |t| >= 2 && t[|t| - 1] == SOH && forall i | 0 <= i < |t| - 1 :: t[i] != SOH
  {
    var t := FieldText(f);
    forall i | 0 <= i < |t| - 1 ensures t[i] != SOH {
      if i < |f.tag| {
        assert t[i] == f.tag[i];
      } else if i > |f.tag| {
        assert t[i] == f.value[i - |f.tag| - 1];
      }
    }
  }

  /** Only tag 10 itself makes a field start with `10=`. */
  lemma TenIsATag(f: Field, rest: string)
    requires CleanField(f)
    ensures MarkerAt([SOH] + FieldText(f) + rest, 0) <==> f.tag == "10"
  {
    var s := [SOH] + FieldText(f) + rest;
    assert s[1..] == f.tag + "=" + f.value + [SOH] + rest;
    forall i | 0 <= i < |f.tag| ensures s[1 + i] == f.tag[i] && f.tag[i] != '=' {
      assert f.tag[i] in f.tag;
    }
    assert s[1 + |f.tag|] == '=';
    if MarkerAt(s, 0) {
      assert |f.tag| == 2;
      assert f.tag == "10";
    }
  }

  lemma MarkerShift(t: string, tail: string, j: nat)
    ensures MarkerAt(t + tail, |t| + j) == MarkerAt(tail, j)
    ensures t != [] && t[|t| - 1] == SOH ==> MarkerAt(t + tail, |t| - 1) == MarkerAt([SOH] + tail, 0)
  {
  }

  /** No field after the first has tag 10. */
  ghost predicate TenFree(fs: seq<Field>) {
    forall i | 1 <= i < |fs| :: fs[i].tag != "10"
  }

  lemma {:induction false} TextEnds(fs: seq<Field>)
    requires Clean(fs) && fs != []
    ensures |Text(fs)| >= 2 && Text(fs)[|Text(fs)| - 1] == SOH
  {
    FieldShape(fs[0]);
    if |fs| > 1 {
      TextEnds(fs[1..]);
    } else {
      TextOne(fs[0]);
    }
  }

  lemma {:induction false} NoMarker(fs: seq<Field>, rest: string, j: nat)
    requires Clean(fs) && fs != [] && TenFree(fs) && j < |Text(fs)| - 1
    ensures !MarkerAt(Text(fs) + rest, j)
    decreases |fs|
  {
    var n := |FieldText(fs[0])|;
    if j < n {
      NoMarkerYet(fs, rest, j);
    } else {
      NoMarker(fs[1..], rest, j - n);
      NoMarkerLater(FieldText(fs[0]), Text(fs[1..]), rest, j);
    }
  }

  lemma NoMarkerLater(t: string, more: string, rest: string, j: nat)
    requires |t| <= j && !MarkerAt(more + rest, j - |t|)
    ensures !MarkerAt((t + more) + rest, j)
  {
    Regroup(t, more, rest);
    MarkerShift(t, more + rest, j - |t|);
  }

  lemma NoMarkerYet(fs: seq<Field>, rest: string, j: nat)
    requires Clean(fs) && fs != [] && TenFree(fs) && j < |FieldText(fs[0])| && j < |Text(fs)| - 1
    ensures !MarkerAt(Text(fs) + rest, j)
  {
    if |fs| == 1 {
      TextOne(fs[0]);
    }
    Regroup(FieldText(fs[0]), Text(fs[1..]), rest);
    if j < |FieldText(fs[0])| - 1 {
      NoMarkerInside(fs[0], Text(fs[1..]) + rest, j);
    } else {
      NoMarkerBetween(fs, rest);
    }
  }

  lemma NoMarkerInside(f: Field, tail: string, j: nat)
    requires CleanField(f) && j < |FieldText(f)| - 1
    ensures !MarkerAt(FieldText(f) + tail, j)
  {
    FieldShape(f);
    assert (FieldText(f) + tail)[j] == FieldText(f)[j];
  }

  lemma NextField(fs: seq<Field>, rest: string)
    requires Clean(fs) && |fs| > 1
    ensures MarkerAt([SOH] + (Text(fs[1..]) + rest), 0) <==> fs[1].tag == "10"
  {
    var f, more := fs[1], Text(fs[1..][1..]);
    TenIsATag(f, more + rest);
    assert fs[1..][0] == f;
    Regroup(FieldText(f), more, rest);
    Regroup([SOH], FieldText(f), more + rest);
  }

  lemma NoMarkerBetween(fs: seq<Field>, rest: string)
    requires Clean(fs) && |fs| > 1 && TenFree(fs)
    ensures !MarkerAt(FieldText(fs[0]) + (Text(fs[1..]) + rest), |FieldText(fs[0])| - 1)
  {
    FieldShape(fs[0]);
    MarkerShift(FieldText(fs[0]), Text(fs[1..]) + rest, 0);
    NextField(fs, rest);
  }

  /** The first field of tag 10, other than in first place, ends the message. */
  lemma TenEnds(fs: seq<Field>, ten: Field, rest: string)
    requires Clean(fs) && fs != [] && TenFree(fs) && CleanField(ten) && ten.tag == "10"
    ensures Cut(Text(fs) + FieldText(ten) + rest) == |Text(fs)| + |FieldText(ten)|
  {
    var t, u := Text(fs), FieldText(ten);
    var s, tail := t + u + rest, u + rest;
    Regroup(t, u, rest);
    TextEnds(fs);
    MarkerShift(t, tail, 0);
    TenIsATag(ten, rest);
    Regroup([SOH], u, rest);
    var e := |t| - 1;
    forall j | 0 <= j < e ensures !MarkerAt(s, j) {
      NoMarker(fs, tail, j);
    }
    FieldShape(ten);
    assert forall j | 0 <= j < |u| :: s[|t| + j] == u[j];
    EndOf(s, e, u);
  }

  lemma EndOf(s: string, e: nat, u: string)
    requires MarkerAt(s, e) && (forall j | 0 <= j < e :: !MarkerAt(s, j)) && e + 1 + |u| <= |s|
    requires |u| >= 2 && u[|u| - 1] == SOH && (forall i | 0 <= i < |u| - 1 :: u[i] != SOH)
    requires forall j | 0 <= j < |u| :: s[e + 1 + j] == u[j]
    ensures Cut(s) == e + 1 + |u|
  {
    var n := e + 1 + |u|;
    forall j | e + 1 <= j < n - 1 ensures s[j] != SOH {
      assert s[e + 1 + (j - e - 1)] == u[j - e - 1];
    }
    assert s[e + 1 + (|u| - 1)] == SOH;
    assert IsCut(s, e, n);
    CutIsUnique(s, e, n);
  }

  /** No field of the body has tag 10. */
  ghost predicate NoTen(m: Message) {
    forall i | 0 <= i < |m.body| :: m.body[i].tag != "10"
  }

  function Wire(m: Message): string {
    Text(AllFields(m))
  }

  function Wires(ms: seq<Message>): seq<string> {
    seq(|ms|, i requires 0 <= i < |ms| => Wire(ms[i]))
  }

  lemma TenFreeHeader(m: Message)
    ensures TenFree(AllButTrailer(m)) <==> NoTen(m)
  {
    var fs := AllButTrailer(m);
    assert forall i | 0 <= i < |m.body| :: fs[7 + i] == m.body[i];
    assert fs[1].tag == "9" && fs[2].tag == "35" && fs[3].tag == "34" && fs[4].tag == "49" && fs[5].tag == "52"
      && fs[6].tag == "56";
    if TenFree(fs) {
      forall i | 0 <= i < |m.body| ensures m.body[i].tag != "10" {
        assert fs[7 + i].tag != "10";
      }
    }
  }

  lemma WholeMessageIsCut(m: Message, rest: string)
    requires CleanMessage(m) && NoTen(m)
    ensures Cut(Wire(m) + rest) == |Wire(m)| > 0
  {
    MessageIsClean(m);
    TenFreeHeader(m);
    TextSnoc(AllButTrailer(m), Trailer(m));
    TrailerIsClean(m);
    TenEnds(AllButTrailer(m), Trailer(m), rest);
  }

  lemma TrailerIsClean(m: Message)
    requires CleanMessage(m)
    ensures CleanField(Trailer(m))
  {
    MessageIsClean(m);
    assert AllFields(m)[|AllFields(m)| - 1] == Trailer(m);
  }

  lemma {:induction false} WiresAreSplit(ms: seq<Message>)
    requires forall i | 0 <= i < |ms| :: CleanMessage(ms[i]) && NoTen(ms[i])
    ensures SplitStream(Concat(Wires(ms))) == Framed(Wires(ms), "")
  {
    if ms != [] {
      var first, more := Wire(ms[0]), Wires(ms[1..]);
      assert Wires(ms) == [first] + more;
      WholeMessageIsCut(ms[0], Concat(more));
      WiresAreSplit(ms[1..]);
      ConcatCons(first, more);
      SplitFirst(first + Concat(more), first, Concat(more));
    }
  }

  /**
   Framing inverts building: any concatenation of built messages, cut anywhere,
   comes out as exactly those messages with nothing left over, and each parses
   back to the first value of every tag and all its symbols.
   */
  lemma FramingInvertsBuilding(ms: seq<Message>, chunks: seq<string>)
    requires forall i | 0 <= i < |ms| :: CleanMessage(ms[i]) && NoTen(ms[i])
    requires Concat(chunks) == Concat(Wires(ms))
    ensures Feed("", chunks) == Framed(Wires(ms), "")
    ensures forall i | 0 <= i < |ms| :: Owed(AllFields(ms[i]), ParseOf(Feed("", chunks).msgs[i]))
  {
    ChunkInvariance("", chunks);
    assert "" + Concat(chunks) == Concat(chunks);
    WiresAreSplit(ms);
    forall i | 0 <= i < |ms| ensures Owed(AllFields(ms[i]), ParseOf(Wires(ms)[i])) {
      WireIsParsed(ms, i);
    }
  }

  lemma WireIsParsed(ms: seq<Message>, i: nat)
    requires i < |ms| && CleanMessage(ms[i])
    ensures Owed(AllFields(ms[i]), ParseOf(Wires(ms)[i]))
  {
    ParseInvertsBuild(ms[i]);
    assert Wires(ms)[i] == Text(AllFields(ms[i]));
  }

  /** A built message is framed whole exactly when its body has no field of tag 10. */
  lemma FramedWholeIffNoTen(m: Message)
    requires CleanMessage(m)
    ensures SplitStream(Wire(m)) == Framed([Wire(m)], "") <==> NoTen(m)
  {
    if NoTen(m) {
      WholeMessageIsCut(m, "");
      assert Wire(m) + "" == Wire(m);
    } else {
      var n := CutEarly(m);
    }
    OneMessage(Wire(m));
  }

  lemma OneMessage(s: string)
    requires Cut(s) > 0
    ensures SplitStream(s) == Framed([s], "") <==> Cut(s) == |s|
  {
    var n := Cut(s);
    var f := SplitStream(s[n..]);
    assert ([s[..n]] + f.msgs)[0] == s[..n];
    if n == |s| {
      assert s[..n] == s && s[n..] == "" && Cut("") == 0;
    }
  }

  lemma CutEarly(m: Message) returns (n: nat)
    requires CleanMessage(m) && !NoTen(m)
    ensures n == Cut(Wire(m)) && 0 < n < |Wire(m)|
  {
    var fs := AllFields(m);
    MessageIsClean(m);
    TenFreeHeader(m);
    var k :| 1 <= k < |AllButTrailer(m)| && AllButTrailer(m)[k].tag == "10";
    var j := FirstTen(fs, k);
    TextMiddle(fs[..j], fs[j], fs[j + 1..]);
    Around(fs, j);
    TenEnds(fs[..j], fs[j], Text(fs[j + 1..]));
    n := |Text(fs[..j])| + |FieldText(fs[j])|;
    TextEnds(fs[j + 1..]);
  }

  lemma Around<T>(s: seq<T>, j: nat)
    requires j < |s|
    ensures s == s[..j] + [s[j]] + s[j + 1..]
  {
  }

  lemma TextMiddle(a: seq<Field>, f: Field, b: seq<Field>)
    ensures Text(a + [f] + b) == Text(a) + FieldText(f) + Text(b)
  {
    TextSnoc(a, f);
    TextConcat(a + [f], b);
  }

  lemma {:induction false} FirstTen(fs: seq<Field>, k: nat) returns (j: nat)
    requires 1 <= k < |fs| && fs[k].tag == "10"
    ensures 1 <= j <= k && fs[j].tag == "10" && TenFree(fs[..j])
  {
    if i :| 1 <= i < k && fs[i].tag == "10" {
      j := FirstTen(fs, i);
    } else {
      j := k;
    }
  }
}
