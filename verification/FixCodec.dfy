/**
 The tag=value codec of the mock exchange: building a message with its
 BodyLength and CheckSum, and parsing it back. Text is Latin-1, one character
 per byte.
 */
module FixCodec {
  import opened Common
  import opened Decimal

  const SOH: char := 1 as char

  datatype Field = Field(tag: string, value: string)

  datatype Message = Message(kind: string, seqNum: nat, sender: string, time: string, target: string, body: seq<Field>)

  function FieldText(f: Field): string {
    f.tag + "=" + f.value + [SOH]
  }

  function Text(fs: seq<Field>): string {
    if fs == [] then [] else FieldText(fs[0]) + Text(fs[1..])
  }

  function ByteSum(s: string): nat {
    if s == [] then 0 else ByteSum(s[..|s| - 1]) + s[|s| - 1] as nat
  }

  /** `f"{sum % 256:03d}"`. */
  function Checksum(s: string): (c: string)
    ensures |c| == 3 && ReadDigits(c, 0) == ByteSum(s) % 256
  {
    var n := ByteSum(s) % 256;
    PaddedIsFixed(n, 3);
    ReadPadded(n, 3);
    PrintPadded(n, 3)
  }

  function BodyFields(m: Message): seq<Field> {
    [Field("35", m.kind), Field("34", Print(m.seqNum)), Field("49", m.sender),
     Field("52", m.time), Field("56", m.target)] + m.body
  }

  /** Everything before the trailer, in order. */
  function AllButTrailer(m: Message): seq<Field> {
    [Field("8", "FIXT.1.1"), Field("9", Print(|Text(BodyFields(m))|))] + BodyFields(m)
  }

  function Trailer(m: Message): Field {
    Field("10", Checksum(Text(AllButTrailer(m))))
  }

  /** The fields of the message on the wire. */
  function AllFields(m: Message): seq<Field> {
    AllButTrailer(m) + [Trailer(m)]
  }

  lemma {:induction false} TextConcat(a: seq<Field>, b: seq<Field>)
    ensures Text(a + b) == Text(a) + Text(b)
  {
    if a == [] {
      assert a + b == b;
    } else {
      assert (a + b)[1..] == a[1..] + b && (a + b)[0] == a[0];
      TextConcat(a[1..], b);
      Regroup(FieldText(a[0]), Text(a[1..]), Text(b));
    }
  }

  lemma TextSnoc(fs: seq<Field>, f: Field)
    ensures Text(fs + [f]) == Text(fs) + FieldText(f)
  {
    TextConcat(fs, [f]);
    TextOne(f);
  }

  lemma TextOne(f: Field)
    ensures Text([f]) == FieldText(f)
  {
    assert [f][1..] == [];
  }

  lemma Standard(m: Message)
    ensures Text(BodyFields(m)[..5]) == FieldText(Field("35", m.kind)) + FieldText(Field("34", Print(m.seqNum)))
      + FieldText(Field("49", m.sender)) + FieldText(Field("52", m.time)) + FieldText(Field("56", m.target))
  {
    var fs := BodyFields(m)[..5];
    assert fs[..4] + [fs[4]] == fs && fs[..3] + [fs[3]] == fs[..4] && fs[..2] + [fs[2]] == fs[..3]
      && [fs[0]] + [fs[1]] == fs[..2];
    TextOne(fs[0]);
    TextSnoc([fs[0]], fs[1]);
    TextSnoc(fs[..2], fs[2]);
    TextSnoc(fs[..3], fs[3]);
    TextSnoc(fs[..4], fs[4]);
  }

  lemma Head(m: Message)
    ensures Text(AllButTrailer(m)) == FieldText(Field("8", "FIXT.1.1"))
      + FieldText(Field("9", Print(|Text(BodyFields(m))|))) + Text(BodyFields(m))
  {
    var fs := AllButTrailer(m);
    assert fs[1..][1..] == BodyFields(m);
    assert Text(fs) == FieldText(fs[0]) + (FieldText(fs[1]) + Text(fs[1..][1..]));
  }

  /** `build`: the body first, then the length in front of it and the checksum behind it. */
  method Build(m: Message) returns (wire: string)
    ensures wire == Text(AllFields(m))
  {
    var body := FieldText(Field("35", m.kind)) + FieldText(Field("34", Print(m.seqNum)))
      + FieldText(Field("49", m.sender))
    + FieldText(Field("52", m.time)) + FieldText(Field("56", m.target));
    ghost var standard := BodyFields(m)[..5];
    Standard(m);
    assert standard + m.body[..0] == standard;
    for i := 0 to |m.body|
      invariant body == Text(standard + m.body[..i])
    {
      TextSnoc(standard + m.body[..i], m.body[i]);
      assert standard + m.body[..i + 1] == standard + m.body[..i] + [m.body[i]];
      body := body + FieldText(m.body[i]);
    }
    assert standard + m.body[..|m.body|] == BodyFields(m);
    var head := FieldText(Field("8", "FIXT.1.1")) + FieldText(Field("9", Print(|body|)));
    Head(m);
    var full := head + body;
    wire := full + FieldText(Field("10", Checksum(full)));
    TextSnoc(AllButTrailer(m), Trailer(m));
  }

  // --------------------------------- parsing ---------------------------------

  /** The position of the first `c`, or the length when there is none. */
  function Find(s: string, c: char): (r: nat)
    ensures r <= |s| && (forall i | 0 <= i < r :: s[i] != c) && (r < |s| ==> s[r] == c)
  {
    if s == [] || s[0] == c then 0 else 1 + Find(s[1..], c)
  }

  lemma FindUnique(s: string, c: char, k: nat)
    requires k <= |s| && (forall i | 0 <= i < k :: s[i] != c) && (k < |s| ==> s[k] == c)
    ensures Find(s, c) == k
  {
    var r := Find(s, c);
    if k < |s| {
      assert s[k] == c;
    }
  }

  /** `raw.split(SOH)`. */
  function Split(s: string): (pieces: seq<string>)
    ensures |pieces| >= 1
  {
    var k := Find(s, SOH);
    if k == |s| then [s] else [s[..k]] + Split(s[k + 1..])
  }

  datatype Parsed = Parsed(fields: map<string, string>, symbols: seq<string>)

  const NOTHING := Parsed(map[], [])

  function AbsorbField(p: Parsed, f: Field): Parsed {
    Parsed(if f.tag in p.fields then p.fields else p.fields[f.tag := f.value],
           if f.tag == "55" then p.symbols + [f.value] else p.symbols)
  }

  /** A piece is cut at its first `=`; without one it is skipped. */
  function Absorb(p: Parsed, kv: string): Parsed {
    var e := Find(kv, '=');
    if e == |kv| then p else AbsorbField(p, Field(kv[..e], kv[e + 1..]))
  }

  function AbsorbAll(p: Parsed, pieces: seq<string>): Parsed
    decreases |pieces|
  {
    if pieces == [] then p else AbsorbAll(Absorb(p, pieces[0]), pieces[1..])
  }

  /** The key under which the symbols are stored, in place of any field of that tag. */
  const SYMBOLS_KEY := "_symbols"

  function StoreSymbols(p: Parsed): Parsed {
    Parsed(p.fields - {SYMBOLS_KEY}, p.symbols)
  }

  function ParseOf(raw: string): Parsed {
    StoreSymbols(AbsorbAll(NOTHING, Split(raw)))
  }

  method Parse(raw: string) returns (p: Parsed)
    ensures p == ParseOf(raw)
  {
    var pieces := Split(raw);
    p := NOTHING;
    for i := 0 to |pieces|
      invariant StoreSymbols(AbsorbAll(p, pieces[i..])) == ParseOf(raw)
    {
      var e := Find(pieces[i], '=');
      if e == |pieces[i]| {
        continue;
      }
      var k, v := pieces[i][..e], pieces[i][e + 1..];
      var symbols := p.symbols;
      if k == "55" {
        symbols := symbols + [v];
      }
      p := Parsed(if k in p.fields then p.fields else p.fields[k := v], symbols);
    }
    p := Parsed(p.fields - {SYMBOLS_KEY}, p.symbols);
  }

  // --------------------------- what parsing means ---------------------------

  /** The pieces with separators between them. */
  ghost function Joined(pieces: seq<string>): string {
    if pieces == [] then "" else if |pieces| == 1 then pieces[0] else pieces[0] + [SOH] + Joined(pieces[1..])
  }

  /** Splitting cuts the text at every separator, and nowhere else. */
  lemma {:induction false} SplitIsAtSeparators(s: string)
    ensures Joined(Split(s)) == s && forall i | 0 <= i < |Split(s)| :: SOH !in Split(s)[i]
    decreases |s|
  {
    var k := Find(s, SOH);
    if k < |s| {
      SplitIsAtSeparators(s[k + 1..]);
      assert Split(s)[1..] == Split(s[k + 1..]);
      assert s == s[..k] + [SOH] + s[k + 1..];
    } else {
      assert Split(s) == [s];
    }
  }

  /** The piece is this tag, an equals sign and a value. */
  predicate HasTag(piece: string, tag: string) {
    |tag| < |piece| && piece[..|tag|] == tag && piece[|tag|] == '=' && '=' !in tag
  }

  ghost predicate FirstWithTag(pieces: seq<string>, i: nat, tag: string)
    requires i < |pieces|
  {
    HasTag(pieces[i], tag) && forall j | 0 <= j < i :: !HasTag(pieces[j], tag)
  }

  lemma FindIsTag(piece: string, tag: string)
    ensures HasTag(piece, tag) <==> Find(piece, '=') == |tag| < |piece| && piece[..|tag|] == tag
  {
    if HasTag(piece, tag) {
      assert forall i | 0 <= i < |tag| :: piece[i] == tag[i];
      FindUnique(piece, '=', |tag|);
    }
  }

  /** The values of the pieces of tag 55, in order. */
  ghost function SymbolValues(pieces: seq<string>): seq<string> {
    if pieces == [] then []
    else (if HasTag(pieces[0], "55") then [pieces[0][3..]] else []) + SymbolValues(pieces[1..])
  }

  /** The tag is found exactly when some piece has it, with the value of the first such piece. */
  ghost predicate ShowsTag(pieces: seq<string>, tag: string, fields: map<string, string>) {
    && (tag in fields <==> exists i :: 0 <= i < |pieces| && HasTag(pieces[i], tag))
    && forall i | 0 <= i < |pieces| && FirstWithTag(pieces, i, tag) ::
         tag in fields && fields[tag] == pieces[i][|tag| + 1..]
  }

  /** Going through the pieces: a value once found stays, and a new one is that of the first piece of its tag. */
  lemma {:induction false} AbsorbMeans(p: Parsed, pieces: seq<string>, tag: string)
    ensures var q := AbsorbAll(p, pieces);
      && (tag in p.fields ==> tag in q.fields && q.fields[tag] == p.fields[tag])
      && (tag !in p.fields ==> ShowsTag(pieces, tag, q.fields))
    decreases |pieces|
  {
    if pieces != [] {
      var first, rest := pieces[0], pieces[1..];
      var p' := Absorb(p, first);
      FindIsTag(first, tag);
      AbsorbMeans(p', rest, tag);
      assert forall i | 1 <= i < |pieces| :: pieces[i] == rest[i - 1];
      assert forall i | 0 <= i < |rest| :: rest[i] == pieces[i + 1];
      var e := Find(first, '=');
      assert e < |first| && first[..e] == tag ==> HasTag(first, tag);
      forall i | 1 <= i < |pieces| && FirstWithTag(pieces, i, tag) ensures FirstWithTag(rest, i - 1, tag) {
        assert forall j | 0 <= j < i - 1 :: rest[j] == pieces[j + 1];
      }
    }
  }

  lemma {:induction false} AbsorbSymbols(p: Parsed, pieces: seq<string>)
    ensures AbsorbAll(p, pieces).symbols == p.symbols + SymbolValues(pieces)
    decreases |pieces|
  {
    if pieces != [] {
      FindIsTag(pieces[0], "55");
      AbsorbSymbols(Absorb(p, pieces[0]), pieces[1..]);
    }
  }

  lemma OthersAreStored(p: Parsed, tag: string)
    requires tag != "_symbols"
    ensures var q := StoreSymbols(p);
      && (tag in q.fields <==> tag in p.fields) && (tag in p.fields ==> q.fields[tag] == p.fields[tag])
      && q.symbols == p.symbols
  {
  }

  /**
   What parsing makes of any text at all, well formed or not: a tag is found exactly
   when some piece between separators starts with it and an equals sign, its value is
   that of the first such piece, the reserved tag apart; and the symbols are the values
   of tag 55 in order.
   */
  lemma ParsedMeans(raw: string, tag: string)
    requires tag != "_symbols"
    ensures ShowsTag(Split(raw), tag, ParseOf(raw).fields) && ParseOf(raw).symbols == SymbolValues(Split(raw))
  {
    var q := AbsorbAll(NOTHING, Split(raw));
    AbsorbMeans(NOTHING, Split(raw), tag);
    AbsorbSymbols(NOTHING, Split(raw));
    OthersAreStored(q, tag);
  }

  // ------------------------- parsing inverts building -------------------------

  ghost predicate CleanField(f: Field) {
    SOH !in f.tag && '=' !in f.tag && SOH !in f.value
  }

  ghost predicate Clean(fs: seq<Field>) {
    forall i | 0 <= i < |fs| :: CleanField(fs[i])
  }

  /** No field before `i` has its tag. */
  ghost predicate FirstOfTag(fs: seq<Field>, i: nat)
    requires i < |fs|
  {
    forall j | 0 <= j < i :: fs[j].tag != fs[i].tag
  }

  /** The values of tag 55 among the first `n` fields, in order. */
  function SymbolsOf(fs: seq<Field>, n: nat): seq<string>
    requires n <= |fs|
  {
    if n == 0 then [] else SymbolsOf(fs, n - 1) + (if fs[n - 1].tag == "55" then [fs[n - 1].value] else [])
  }

  function Tags(fs: seq<Field>, n: nat): set<string>
    requires n <= |fs|
  {
    set i | 0 <= i < n :: fs[i].tag
  }

  ghost predicate FirstValues(fs: seq<Field>, n: nat, fields: map<string, string>)
    requires n <= |fs|
  {
    forall i | 0 <= i < n && FirstOfTag(fs, i) :: fs[i].tag in fields && fields[fs[i].tag] == fs[i].value
  }

  /**
   What a reader of the first `n` fields is owed: their tags, the first value of
   every tag, and every symbol in order.
   */
  ghost predicate Digest(fs: seq<Field>, n: nat, p: Parsed)
    requires n <= |fs|
  {
    p.fields.Keys == Tags(fs, n) && FirstValues(fs, n, p.fields) && p.symbols == SymbolsOf(fs, n)
  }

  lemma TagsSnoc(fs: seq<Field>, n: nat)
    requires n < |fs|
    ensures Tags(fs, n + 1) == Tags(fs, n) + {fs[n].tag}
    ensures FirstOfTag(fs, n) ==> fs[n].tag !in Tags(fs, n)
  {
  }

  lemma ValuesSnoc(fs: seq<Field>, n: nat, fields: map<string, string>)
    requires n < |fs| && FirstValues(fs, n, fields) && (FirstOfTag(fs, n) ==> fs[n].tag !in fields)
    ensures FirstValues(fs, n + 1, if fs[n].tag in fields then fields else fields[fs[n].tag := fs[n].value])
  {
  }

  lemma DigestSnoc(fs: seq<Field>, n: nat, p: Parsed)
    requires n < |fs| && Digest(fs, n, p)
    ensures Digest(fs, n + 1, AbsorbField(p, fs[n]))
  {
    TagsSnoc(fs, n);
    ValuesSnoc(fs, n, p.fields);
  }

  lemma SplitField(f: Field, rest: string)
    requires CleanField(f)
    ensures Split(FieldText(f) + rest) == [f.tag + "=" + f.value] + Split(rest)
  {
    var kv := f.tag + "=" + f.value;
    var s := FieldText(f) + rest;
    assert s[..|kv|] == kv && s[|kv|] == SOH && s[|kv| + 1..] == rest;
    FindUnique(s, SOH, |kv|);
  }

  lemma AbsorbPiece(p: Parsed, f: Field)
    requires CleanField(f)
    ensures Absorb(p, f.tag + "=" + f.value) == AbsorbField(p, f)
  {
    var kv := f.tag + "=" + f.value;
    assert kv[..|f.tag|] == f.tag && kv[|f.tag| + 1..] == f.value;
    FindUnique(kv, '=', |f.tag|);
  }

  lemma AbsorbFirst(p: Parsed, f: Field, rest: string)
    requires CleanField(f)
    ensures AbsorbAll(p, Split(FieldText(f) + rest)) == AbsorbAll(AbsorbField(p, f), Split(rest))
  {
    SplitField(f, rest);
    AbsorbPiece(p, f);
    assert ([f.tag + "=" + f.value] + Split(rest))[1..] == Split(rest);
  }

  lemma AbsorbNothing(p: Parsed)
    ensures AbsorbAll(p, Split("")) == p
  {
    assert AbsorbAll(p, [""]) == AbsorbAll(Absorb(p, ""), []);
  }

  function AbsorbFields(p: Parsed, fs: seq<Field>): Parsed
    decreases |fs|
  {
    if fs == [] then p else AbsorbFields(AbsorbField(p, fs[0]), fs[1..])
  }

  lemma {:induction false} AbsorbText(p: Parsed, fs: seq<Field>)
    requires Clean(fs)
    ensures AbsorbAll(p, Split(Text(fs))) == AbsorbFields(p, fs)
    decreases |fs|
  {
    if fs == [] {
      AbsorbNothing(p);
    } else {
      AbsorbFirst(p, fs[0], Text(fs[1..]));
      AbsorbText(AbsorbField(p, fs[0]), fs[1..]);
    }
  }

  lemma {:induction false} FieldsDigested(fs: seq<Field>, n: nat, p: Parsed) returns (q: Parsed)
    requires n <= |fs| && Digest(fs, n, p)
    ensures q == AbsorbFields(p, fs[n..]) && Digest(fs, |fs|, q)
    decreases |fs| - n
  {
    if n == |fs| {
      q := p;
    } else {
      DigestSnoc(fs, n, p);
      q := FieldsDigested(fs, n + 1, AbsorbField(p, fs[n]));
      FieldsStep(fs, n, p);
    }
  }

  lemma FieldsStep(fs: seq<Field>, n: nat, p: Parsed)
    requires n < |fs|
    ensures AbsorbFields(p, fs[n..]) == AbsorbFields(AbsorbField(p, fs[n]), fs[n + 1..])
  {
    assert fs[n..][1..] == fs[n + 1..];
  }

  /**
   What the reader of all fields gets: the tags but the reserved one, the first
   value of each, and every symbol in order.
   */
  ghost predicate Owed(fs: seq<Field>, p: Parsed) {
    && p.fields.Keys == Tags(fs, |fs|) - {SYMBOLS_KEY}
    && (forall i | 0 <= i < |fs| && FirstOfTag(fs, i) && fs[i].tag != SYMBOLS_KEY ::
          fs[i].tag in p.fields && p.fields[fs[i].tag] == fs[i].value)
    && p.symbols == SymbolsOf(fs, |fs|)
  }

  /** Parsing the text of any clean fields gives exactly what is owed. */
  lemma ParseInvertsText(fs: seq<Field>)
    requires Clean(fs)
    ensures Owed(fs, ParseOf(Text(fs)))
  {
    AbsorbText(NOTHING, fs);
    var q := FieldsDigested(fs, 0, NOTHING);
    assert fs[0..] == fs;
  }

  /** A message none of whose parts contains the separators. */
  ghost predicate CleanMessage(m: Message) {
    SOH !in m.kind && SOH !in m.sender && SOH !in m.time && SOH !in m.target && Clean(m.body)
  }

  lemma DigitsAreClean(s: string)
    requires forall i | 0 <= i < |s| :: IsDigit(s[i])
    ensures SOH !in s && '=' !in s
  {
  }

  lemma MessageIsClean(m: Message)
    requires CleanMessage(m)
    ensures Clean(AllFields(m)) && Clean(AllButTrailer(m))
  {
    PrintsDigits(m.seqNum);
    DigitsAreClean(Print(m.seqNum));
    PrintsDigits(|Text(BodyFields(m))|);
    DigitsAreClean(Print(|Text(BodyFields(m))|));
    var sum := ByteSum(Text(AllButTrailer(m))) % 256;
    PaddedIsFixed(sum, 3);
    PaddedDigits(sum, 3);
    DigitsAreClean(Trailer(m).value);
  }

  lemma PaddedDigits(n: nat, w: nat)
    ensures forall i | 0 <= i < |PrintPadded(n, w)| :: IsDigit(PrintPadded(n, w)[i])
  {
    PrintsDigits(n);
  }

  /** Parsing a built message gives back its fields. */
  lemma ParseInvertsBuild(m: Message)
    requires CleanMessage(m)
    ensures Owed(AllFields(m), ParseOf(Text(AllFields(m))))
  {
    MessageIsClean(m);
    ParseInvertsText(AllFields(m));
  }
}
