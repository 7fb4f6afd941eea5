/**
 Decimal text as the program prints and reads it: `%llu`, `%0*llu` and
 `strtoull`, and the byte order of such texts.
 */
module Decimal {
  import opened Machine64

  function Digit(d: nat): char
    requires d < 10
  {
    '0' + d as char
  }

  predicate IsDigit(c: char) {
    '0' <= c <= '9'
  }

  function DigitValue(c: char): nat
    requires IsDigit(c)
  {
    (c - '0') as nat
  }

  /** `%llu`. */
  function Print(n: nat): (s: string)
    ensures |s| >= 1
  {
    if n < 10 then [Digit(n)] else Print(n / 10) + [Digit(n % 10)]
  }

  function Zeros(k: nat): (s: string)
    ensures |s| == k
  {
    seq(k, _ => '0')
  }

  /** `%0wllu`: at least `w` characters, filled with zeros on the left. */
  function PrintPadded(n: nat, w: nat): string {
    var s := Print(n);
    if |s| < w then Zeros(w - |s|) + s else s
  }

  predicate IsBlank(c: char) {
    c == ' ' || '\t' <= c <= '\r'
  }

  function SkipBlanks(s: string): string {
    if s != [] && IsBlank(s[0]) then SkipBlanks(s[1..]) else s
  }

  /** The leading digits of `s`, appended to the number `acc`. */
  function ReadDigits(s: string, acc: nat): nat {
    if s != [] && IsDigit(s[0]) then ReadDigits(s[1..], 10 * acc + DigitValue(s[0])) else acc
  }

  /** `strtoull(s, nullptr, 10)`: blanks, a sign, digits up to the first other character; saturating. */
  function StrToULL(s: string): Word {
    var t := SkipBlanks(s);
    var signed := t != [] && (t[0] == '-' || t[0] == '+');
    var n := ReadDigits(if signed then t[1..] else t, 0);
    if n >= TWO_64 then TWO_64 - 1
    else if signed && t[0] == '-' then Sub(0, n)
    else n
  }

  // ----------------------------- decimal notation -----------------------------

  ghost predicate IsNumeral(s: string) {
    s != "" && forall i | 0 <= i < |s| :: '0' <= s[i] <= '9'
  }

  /** Reading is positional: one more digit behind a numeral counts once, and everything before it ten times. */
  lemma {:induction false} ReadSnoc(s: string, c: char, acc: nat)
    requires (forall i | 0 <= i < |s| :: '0' <= s[i] <= '9') && '0' <= c <= '9'
    ensures ReadDigits(s + [c], acc) == 10 * ReadDigits(s, acc) + (c as nat - '0' as nat)
    ensures ReadDigits("", acc) == acc
  {
    if s == "" {
      assert [c][1..] == "";
    } else {
      assert (s + [c])[1..] == s[1..] + [c];
      ReadSnoc(s[1..], c, 10 * acc + DigitValue(s[0]));
    }
  }

  /** A number prints as the numeral that reads as it, without a leading zero unless it is zero. */
  lemma {:induction false} PrintsNumeral(n: nat)
    ensures IsNumeral(Print(n)) && ReadDigits(Print(n), 0) == n && (Print(n)[0] == '0' <==> n == 0)
  {
    PrintsDigits(n);
    ReadPrinted(n, "", 0);
    assert Print(n) + "" == Print(n);
    LeadingDigit(n);
  }

  lemma {:induction false} LeadingDigit(n: nat)
    ensures Print(n)[0] == '0' <==> n == 0
  {
    if n >= 10 {
      LeadingDigit(n / 10);
    }
  }

  /** Padding puts zeros in front of that numeral, up to the width. */
  lemma PadsWithZeros(n: nat, w: nat)
    ensures var s, d := PrintPadded(n, w), Print(n);
      && |s| == (if |d| < w then w else |d|) && s[|s| - |d|..] == d && IsNumeral(s) && ReadDigits(s, 0) == n
      && forall i | 0 <= i < |s| - |d| :: s[i] == '0'
  {
    PrintsNumeral(n);
    ReadPadded(n, w);
  }

  // -------------------------------- round trips --------------------------------

  lemma {:induction false} ReadPrinted(n: nat, rest: string, acc: nat)
    requires acc == 0
    ensures ReadDigits(Print(n) + rest, acc) == ReadDigits(rest, n)
  {
    var last := [Digit(n % 10)] + rest;
    assert last[0] == Digit(n % 10) && last[1..] == rest;
    if n < 10 {
      assert Print(n) + rest == last;
    } else {
      assert Print(n) + rest == Print(n / 10) + last;
      ReadPrinted(n / 10, last, acc);
    }
  }

  lemma {:induction false} PrintsDigits(n: nat)
    ensures forall i | 0 <= i < |Print(n)| :: IsDigit(Print(n)[i])
  {
    if n >= 10 {
      PrintsDigits(n / 10);
    }
  }

  lemma {:induction false} ReadZeros(k: nat, rest: string)
    ensures ReadDigits(Zeros(k) + rest, 0) == ReadDigits(rest, 0)
  {
    if k == 0 {
      assert Zeros(k) + rest == rest;
    } else {
      var s := Zeros(k) + rest;
      assert s[0] == '0' && s[1..] == Zeros(k - 1) + rest;
      ReadZeros(k - 1, rest);
    }
  }

  ghost predicate NoDigitFirst(rest: string) {
    rest == [] || !IsDigit(rest[0])
  }

  /** A printed number is read back exactly, whatever non-digit follows it. */
  lemma StrToULLInvertsPrint(n: Word, rest: string)
    requires NoDigitFirst(rest)
    ensures StrToULL(Print(n) + rest) == n
  {
    PrintsDigits(n);
    assert IsDigit((Print(n) + rest)[0]);
    ReadPrinted(n, rest, 0);
  }

  /** Padded or not, different numbers print differently. */
  lemma PaddedIsInjective(n: nat, m: nat, w: nat)
    requires PrintPadded(n, w) == PrintPadded(m, w)
    ensures n == m
  {
    ReadPadded(n, w);
    ReadPadded(m, w);
  }

  lemma ReadPadded(n: nat, w: nat)
    ensures ReadDigits(PrintPadded(n, w), 0) == n
  {
    var s := Print(n);
    assert s + [] == s;
    ReadPrinted(n, [], 0);
    if |s| < w {
      ReadZeros(w - |s|, s);
    }
  }

  lemma {:induction false} ReadNumeral(d: string, rest: string, acc: nat)
    requires (forall i | 0 <= i < |d| :: '0' <= d[i] <= '9') && NoDigitFirst(rest)
    ensures ReadDigits(d + rest, acc) == ReadDigits(d, acc)
  {
    if d == "" {
      assert d + rest == rest;
    } else {
      assert (d + rest)[1..] == d[1..] + rest;
      ReadNumeral(d[1..], rest, 10 * acc + DigitValue(d[0]));
    }
  }

  lemma {:induction false} BlanksAreSkipped(blanks: string, s: string)
    requires (forall i | 0 <= i < |blanks| :: IsBlank(blanks[i])) && s != "" && !IsBlank(s[0])
    ensures SkipBlanks(blanks + s) == s
  {
    if blanks == "" {
      assert blanks + s == s;
    } else {
      assert (blanks + s)[1..] == blanks[1..] + s;
      BlanksAreSkipped(blanks[1..], s);
    }
  }

  /**
   Reading a ClOrdID that need not be one of ours: white space and a sign may come
   first, the number ends before the first other character, from 2^64 on it is read
   as 2^64 - 1, and below that a minus sign takes it from 2^64.
   */
  lemma AnyNumberIsRead(blanks: string, sign: string, d: string, rest: string)
    requires (forall i | 0 <= i < |blanks| :: blanks[i] == ' ' || 9 <= blanks[i] as nat <= 13)
    requires sign in {"", "+", "-"} && IsNumeral(d) && NoDigitFirst(rest)
    ensures var n := ReadDigits(d, 0);
      StrToULL(blanks + (sign + (d + rest)))
        == if n >= TWO_64 then TWO_64 - 1 else if sign == "-" && n > 0 then TWO_64 - n else n
  {
    var t := d + rest;
    SignGoesFirst(sign, t);
    BlanksAreSkipped(blanks, sign + t);
    ReadNumeral(d, rest, 0);
    SignedIsRead(blanks + (sign + t), sign, t);
  }

  lemma SignedIsRead(s: string, sign: string, t: string)
    requires sign in {"", "+", "-"} && t != "" && '0' <= t[0] <= '9' && SkipBlanks(s) == sign + t
    ensures var n := ReadDigits(t, 0);
      StrToULL(s) == if n >= TWO_64 then TWO_64 - 1 else if sign == "-" && n > 0 then TWO_64 - n else n
  {
    SignGoesFirst(sign, t);
  }

  lemma SignGoesFirst(sign: string, t: string)
    requires sign in {"", "+", "-"} && t != "" && '0' <= t[0] <= '9'
    ensures sign + t != "" && !IsBlank((sign + t)[0])
    ensures (sign + t)[0] == '-' <==> sign == "-"
    ensures (if (sign + t)[0] == '-' || (sign + t)[0] == '+' then (sign + t)[1..] else sign + t) == t
  {
    assert (sign + t)[0] == if sign == "" then t[0] else sign[0];
    assert (sign + t)[|sign|..] == t;
  }

  // --------------------------------- byte order ---------------------------------

  /** Lexicographic order of bytes, a proper prefix being smaller (`memcmp`, then length). */
  predicate LexLess(a: string, b: string) {
    if b == [] then false
    else if a == [] then true
    else a[0] < b[0] || (a[0] == b[0] && LexLess(a[1..], b[1..]))
  }

  function Pow10(k: nat): (p: nat)
    ensures p >= 1
  {
    if k == 0 then 1 else 10 * Pow10(k - 1)
  }

  /** Exactly `w` digits: `n` modulo 10^w. */
  function Fixed(n: nat, w: nat): (s: string)
    ensures |s| == w
  {
    if w == 0 then [] else Fixed(n / 10, w - 1) + [Digit(n % 10)]
  }

  /** Dropping the last `k` digits. */
  function Shorten(n: nat, k: nat): nat {
    if k == 0 then n else Shorten(n / 10, k - 1)
  }

  lemma {:induction false} LexSnoc(a: string, b: string, x: char, y: char)
    requires |a| == |b|
    ensures LexLess(a + [x], b + [y]) <==> LexLess(a, b) || (a == b && x < y)
  {
    if a != [] {
      assert (a + [x])[1..] == a[1..] + [x] && (b + [y])[1..] == b[1..] + [y];
      assert a == [a[0]] + a[1..] && b == [b[0]] + b[1..];
      LexSnoc(a[1..], b[1..], x, y);
    }
  }

  lemma {:induction false} LexExtend(a: string, b: string, c: string)
    requires |a| == |b| && c != []
    ensures LexLess(a, b + c) <==> LexLess(a, b) || a == b
    ensures !LexLess(b + c, a) || LexLess(b, a)
  {
    if a == [] {
      assert b + c == c;
    } else {
      assert (b + c)[1..] == b[1..] + c;
      assert a == [a[0]] + a[1..] && b == [b[0]] + b[1..];
      LexExtend(a[1..], b[1..], c);
    }
  }

  /** On texts of the same width, byte order is numeric order. */
  lemma {:induction false} FixedOrder(n: nat, m: nat, w: nat)
    requires n < Pow10(w) && m < Pow10(w)
    ensures LexLess(Fixed(n, w), Fixed(m, w)) <==> n < m
    ensures Fixed(n, w) == Fixed(m, w) <==> n == m
  {
    if w > 0 {
      var n', m' := n / 10, m / 10;
      FixedOrder(n', m', w - 1);
      LexSnoc(Fixed(n', w - 1), Fixed(m', w - 1), Digit(n % 10), Digit(m % 10));
      assert Fixed(n, w)[..w - 1] == Fixed(n', w - 1) && Fixed(m, w)[..w - 1] == Fixed(m', w - 1);
      assert Fixed(n, w)[w - 1] == Digit(n % 10) && Fixed(m, w)[w - 1] == Digit(m % 10);
    }
  }

  lemma {:induction false} ZerosAreFixed(k: nat)
    ensures Fixed(0, k) == Zeros(k)
  {
    if k > 0 {
      ZerosAreFixed(k - 1);
    }
  }

  /** Padding to a width that suffices gives that width exactly. */
  lemma {:induction false} PaddedIsFixed(n: nat, w: nat)
    requires n < Pow10(w) && w >= 1
    ensures PrintPadded(n, w) == Fixed(n, w) && |Print(n)| <= w
  {
    if n < 10 {
      ZerosAreFixed(w - 1);
    } else {
      PaddedIsFixed(n / 10, w - 1);
      var s := Print(n / 10);
      assert Print(n) == s + [Digit(n % 10)];
      if |s| < w - 1 {
        assert Zeros(w - |Print(n)|) + Print(n) == Zeros(w - 1 - |s|) + s + [Digit(n % 10)];
      }
    }
  }
}
