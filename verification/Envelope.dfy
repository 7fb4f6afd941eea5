/**
 The envelope of a message: what BodyLength and CheckSum promise a receiver,
 by the standard header and standard trailer sections of FIXT 1.1.
 */
module Envelope {
  import opened Common
  import opened Decimal
  import opened FixCodec

  /** `8=<version>|9=<length>|<body>10=<sum>|` with length and sum as the standard counts them. */
  ghost predicate Parts(raw: string, version: string, length: string, body: string, sum: string) {
    && raw == "8=" + version + [SOH] + "9=" + length + [SOH] + body + "10=" + sum + [SOH]
    && SOH !in version && SOH !in length && |sum| == 3
    && ReadDigits(length, 0) == |body|
    && ReadDigits(sum, 0) == ByteSum(raw[..|raw| - 7]) % 256
  }

  ghost predicate Accepted(raw: string) {
    exists version, length, body, sum :: Parts(raw, version, length, body, sum)
  }

  lemma Flatten(version: string, length: string, body: string, sum: string) returns (raw: string)
    ensures raw == FieldText(Field("8", version)) + FieldText(Field("9", length)) + body + FieldText(Field("10", sum))
    ensures raw == "8=" + version + [SOH] + "9=" + length + [SOH] + body + "10=" + sum + [SOH]
  {
    raw := FieldText(Field("8", version)) + FieldText(Field("9", length)) + body + FieldText(Field("10", sum));
    assert "8" + "=" == "8=" && "9" + "=" == "9=" && "10" + "=" == "10=";
    Chain("8=" + version + [SOH], "9=", length, [SOH], body);
    Chain("8=" + version + [SOH] + "9=" + length + [SOH] + body, "10=", sum, [SOH], "");
  }

  lemma Chain(a: string, b: string, c: string, d: string, e: string)
    ensures a + (b + c + d) + e == a + b + c + d + e
  {
    Regroup(a, b + c, d);
    Regroup(a, b, c);
  }

  lemma LengthAndSum(m: Message)
    ensures var full, body := Text(AllButTrailer(m)), Text(BodyFields(m));
      ReadDigits(Print(|body|), 0) == |body| && ReadDigits(Checksum(full), 0) == ByteSum(full) % 256
  {
    var full, body := Text(AllButTrailer(m)), Text(BodyFields(m));
    assert Print(|body|) + [] == Print(|body|);
    ReadPrinted(|body|, [], 0);
  }

  /** Every built message passes a receiver's length and checksum tests. */
  lemma BuiltIsAccepted(m: Message)
    ensures Accepted(Text(AllFields(m)))
  {
    var full, body := Text(AllButTrailer(m)), Text(BodyFields(m));
    TextSnoc(AllButTrailer(m), Trailer(m));
    Head(m);
    LengthAndSum(m);
    PrintsDigits(|body|);
    DigitsAreClean(Print(|body|));
    Assembled("FIXT.1.1", Print(|body|), body, Checksum(full), full);
  }

  lemma Assembled(version: string, length: string, body: string, sum: string, full: string)
    requires full == FieldText(Field("8", version)) + FieldText(Field("9", length)) + body
    requires SOH !in version && SOH !in length && |sum| == 3
    requires ReadDigits(length, 0) == |body| && ReadDigits(sum, 0) == ByteSum(full) % 256
    ensures Accepted(full + FieldText(Field("10", sum)))
  {
    var raw := Flatten(version, length, body, sum);
    DropTrailer(full, sum);
    assert Parts(raw, version, length, body, sum);
  }

  lemma DropTrailer(full: string, sum: string)
    requires |sum| == 3
    ensures var raw := full + FieldText(Field("10", sum));
      raw[..|raw| - 7] == full
  {
    assert |FieldText(Field("10", sum))| == 7;
  }

  lemma {:induction false} ByteSumConcat(a: string, b: string)
    ensures ByteSum(a + b) == ByteSum(a) + ByteSum(b)
  {
    if b == [] {
      assert a + b == a;
    } else {
      assert (a + b)[..|a + b| - 1] == a + b[..|b| - 1];
      ByteSumConcat(a, b[..|b| - 1]);
    }
  }

  lemma ByteSumUpdate(s: string, i: nat, c: char)
    requires i < |s|
    ensures ByteSum(s[i := c]) == ByteSum(s) - s[i] as nat + c as nat
  {
    assert s == s[..i] + [s[i]] + s[i + 1..];
    assert s[i := c] == s[..i] + [c] + s[i + 1..];
    ByteSumConcat(s[..i] + [s[i]], s[i + 1..]);
    ByteSumConcat(s[..i] + [c], s[i + 1..]);
    ByteSumConcat(s[..i], [s[i]]);
    ByteSumConcat(s[..i], [c]);
    ByteSumOne(c);
    ByteSumOne(s[i]);
  }

  lemma ByteSumOne(c: char)
    ensures ByteSum([c]) == c as nat
  {
    assert ByteSum([c]) == ByteSum([c][..0]) + c as nat;
  }

  lemma SumField(raw: string, version: string, length: string, body: string, sum: string)
    requires Parts(raw, version, length, body, sum)
    ensures |raw| >= 7 && raw[|raw| - 4..|raw| - 1] == sum
  {
    var front := "8=" + version + [SOH] + "9=" + length + [SOH] + body + "10=";
    assert raw == front + (sum + [SOH]);
    assert raw[|front|..] == sum + [SOH];
  }

  /** A single corrupted byte before the trailer never goes unnoticed. */
  lemma CorruptionIsNoticed(raw: string, i: nat, c: char)
    requires Accepted(raw) && |raw| >= 7 && i < |raw| - 7
    requires raw[i] as nat < 256 && c as nat < 256 && c != raw[i]
    ensures !Accepted(raw[i := c])
  {
    var version, length, body, sum :| Parts(raw, version, length, body, sum);
    SumField(raw, version, length, body, sum);
    var bad := raw[i := c];
    assert bad[..|bad| - 7] == raw[..|raw| - 7][i := c];
    ByteSumUpdate(raw[..|raw| - 7], i, c);
    SumsDiffer(ByteSum(raw[..|raw| - 7]), raw[i] as nat, c as nat);
    forall v, l, b, s ensures !Parts(bad, v, l, b, s) {
      if Parts(bad, v, l, b, s) {
        SumField(bad, v, l, b, s);
      }
    }
  }

  lemma SumsDiffer(n: nat, x: nat, y: nat)
    requires x < 256 && y < 256 && x != y
    ensures n % 256 != (n - x + y) % 256
  {
  }
}
