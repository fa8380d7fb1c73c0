/** Strict base64url, as `acme_jws.ts` reads and writes it (section 2 of RFC
    7515, section 3.5 of RFC 4648): no padding, the URL-safe alphabet, and one
    spelling for one byte string. */
module Base64Url {
  import opened Basics
  import opened Wrappers

  type Byte = b: int | 0 <= b < 256
  type Sextet = d: int | 0 <= d < 64

  // ----- bytes and sextets ------------------------------------------------

  function Sextet0(b0: Byte): Sextet { b0 / 4 }
  function Sextet1(b0: Byte, b1: Byte): Sextet { b0 % 4 * 16 + b1 / 16 }
  function Sextet2(b1: Byte, b2: Byte): Sextet { b1 % 16 * 4 + b2 / 64 }
  function Sextet3(b2: Byte): Sextet { b2 % 64 }

  function Byte0(d0: Sextet, d1: Sextet): Byte { d0 * 4 + d1 / 16 }
  function Byte1(d1: Sextet, d2: Sextet): Byte { d1 % 16 * 16 + d2 / 4 }
  function Byte2(d2: Sextet, d3: Sextet): Byte { d2 % 4 * 64 + d3 }

  /** The sextets of a byte string, the last one padded with zero bits. */
  function Sextets(bytes: seq<Byte>): seq<Sextet>
  {
    if |bytes| < 3 then TailSextets(bytes)
    else
      [Sextet0(bytes[0]), Sextet1(bytes[0], bytes[1]), Sextet2(bytes[1], bytes[2]), Sextet3(bytes[2])]
      + Sextets(bytes[3..])
  }

  function TailSextets(bytes: seq<Byte>): seq<Sextet>
    requires |bytes| < 3
  {
    if bytes == [] then []
    else if |bytes| == 1 then [Sextet0(bytes[0]), Sextet1(bytes[0], 0)]
    else [Sextet0(bytes[0]), Sextet1(bytes[0], bytes[1]), Sextet2(bytes[1], 0)]
  }

  /** The whole bytes in a run of sextets; the bits left over are dropped. */
  function Bytes(ds: seq<Sextet>): seq<Byte>
  {
    if |ds| < 4 then TailBytes(ds)
    else [Byte0(ds[0], ds[1]), Byte1(ds[1], ds[2]), Byte2(ds[2], ds[3])] + Bytes(ds[4..])
  }

  function TailBytes(ds: seq<Sextet>): seq<Byte>
    requires |ds| < 4
  {
    if |ds| < 2 then []
    else if |ds| == 2 then [Byte0(ds[0], ds[1])]
    else [Byte0(ds[0], ds[1]), Byte1(ds[1], ds[2])]
  }

  /** Nothing but zero bits after the last whole byte. */
  predicate ZeroTail(ds: seq<Sextet>)
  {
    && |ds| % 4 != 1
    && (|ds| % 4 == 2 ==> ds[|ds| - 1] % 16 == 0)
    && (|ds| % 4 == 3 ==> ds[|ds| - 1] % 4 == 0)
  }

  /** Two digits put together come apart again, in base 4, 16 and 64. */
  lemma Apart4(high: nat, low: nat)
    requires low < 4
    ensures (high * 4 + low) / 4 == high && (high * 4 + low) % 4 == low
  {
  }

  lemma Apart16(high: nat, low: nat)
    requires low < 16
    ensures (high * 16 + low) / 16 == high && (high * 16 + low) % 16 == low
  {
  }

  lemma Apart64(high: nat, low: nat)
    requires low < 64
    ensures (high * 64 + low) / 64 == high && (high * 64 + low) % 64 == low
  {
  }

  lemma RegroupBytes(b0: Byte, b1: Byte, b2: Byte)
    ensures Byte0(Sextet0(b0), Sextet1(b0, b1)) == b0
    ensures Byte1(Sextet1(b0, b1), Sextet2(b1, b2)) == b1
    ensures Byte2(Sextet2(b1, b2), Sextet3(b2)) == b2
    ensures Sextet1(b0, 0) % 16 == 0 == Sextet2(b1, 0) % 4
  {
    Apart16(b0 % 4, b1 / 16);
    Apart16(b0 % 4, 0);
    Apart4(b1 % 16, b2 / 64);
    Apart4(b1 % 16, 0);
  }

  lemma RegroupSextets(d0: Sextet, d1: Sextet, d2: Sextet, d3: Sextet)
    ensures Sextet0(Byte0(d0, d1)) == d0
    ensures Sextet1(Byte0(d0, d1), Byte1(d1, d2)) == d1
    ensures Sextet2(Byte1(d1, d2), Byte2(d2, d3)) == d2
    ensures Sextet3(Byte2(d2, d3)) == d3
    ensures d1 % 16 == 0 ==> Sextet1(Byte0(d0, d1), 0) == d1
    ensures d2 % 4 == 0 ==> Sextet2(Byte1(d1, d2), 0) == d2
  {
    Apart4(d0, d1 / 16);
    Apart16(d1 % 16, d2 / 4);
    Apart64(d2 % 4, d3);
  }

  lemma OneByte(b0: Byte)
    ensures TailBytes([Sextet0(b0), Sextet1(b0, 0)]) == [b0]
  {
    RegroupBytes(b0, 0, 0);
  }

  lemma TwoBytes(b0: Byte, b1: Byte)
    ensures TailBytes([Sextet0(b0), Sextet1(b0, b1), Sextet2(b1, 0)]) == [b0, b1]
  {
    RegroupBytes(b0, b1, 0);
  }

  lemma TailRoundTrip(bytes: seq<Byte>)
    requires |bytes| < 3
    ensures TailBytes(TailSextets(bytes)) == bytes
  {
    if |bytes| == 1 {
      OneByte(bytes[0]);
      assert bytes == [bytes[0]];
    } else if |bytes| == 2 {
      TwoBytes(bytes[0], bytes[1]);
      assert bytes == [bytes[0], bytes[1]];
    }
  }

  lemma TailZero(bytes: seq<Byte>)
    requires |bytes| < 3
    ensures ZeroTail(TailSextets(bytes))
  {
    if bytes != [] {
      RegroupBytes(bytes[0], bytes[|bytes| - 1], 0);
      var ds := TailSextets(bytes);
      assert |ds| == |bytes| + 1;
      assert ds[|bytes|] == if |bytes| == 1 then Sextet1(bytes[0], 0) else Sextet2(bytes[1], 0);
    }
  }

  lemma {:induction false} BytesOfSextets(bytes: seq<Byte>)
    ensures Bytes(Sextets(bytes)) == bytes
    ensures ZeroTail(Sextets(bytes))
  {
    if |bytes| < 3 {
      TailRoundTrip(bytes);
      TailZero(bytes);
    } else {
      BytesOfSextets(bytes[3..]);
      RegroupBytes(bytes[0], bytes[1], bytes[2]);
      var ds := Sextets(bytes);
      assert ds[4..] == Sextets(bytes[3..]);
      ZeroTailSuffix(ds);
      assert bytes == [bytes[0], bytes[1], bytes[2]] + bytes[3..];
    }
  }

  lemma {:induction false} SextetCount(bytes: seq<Byte>)
    ensures |Sextets(bytes)| == (4 * |bytes| + 2) / 3
  {
    if |bytes| >= 3 {
      SextetCount(bytes[3..]);
    }
  }

  lemma FourLess(n: nat)
    requires n >= 4
    ensures (n - 4) % 4 == n % 4
  {
  }

  lemma ZeroTailSuffix(ds: seq<Sextet>)
    requires |ds| >= 4
    ensures ZeroTail(ds) <==> ZeroTail(ds[4..])
  {
    FourLess(|ds|);
    assert |ds[4..]| == |ds| - 4;
    if |ds| > 4 {
      assert ds[4..][|ds| - 5] == ds[|ds| - 1];
    }
  }

  lemma TwoSextets(d0: Sextet, d1: Sextet)
    requires d1 % 16 == 0
    ensures TailSextets([Byte0(d0, d1)]) == [d0, d1]
  {
    RegroupSextets(d0, d1, 0, 0);
  }

  lemma ThreeSextets(d0: Sextet, d1: Sextet, d2: Sextet)
    requires d2 % 4 == 0
    ensures TailSextets([Byte0(d0, d1), Byte1(d1, d2)]) == [d0, d1, d2]
  {
    RegroupSextets(d0, d1, d2, 0);
  }

  lemma {:induction false} SextetsOfBytes(ds: seq<Sextet>)
    requires ZeroTail(ds)
    ensures Sextets(Bytes(ds)) == ds
  {
    if |ds| == 2 {
      TwoSextets(ds[0], ds[1]);
      assert ds == [ds[0], ds[1]];
    } else if |ds| == 3 {
      ThreeSextets(ds[0], ds[1], ds[2]);
      assert ds == [ds[0], ds[1], ds[2]];
    } else if |ds| > 3 {
      ZeroTailSuffix(ds);
      SextetsOfBytes(ds[4..]);
      RegroupSextets(ds[0], ds[1], ds[2], ds[3]);
      assert Bytes(ds)[3..] == Bytes(ds[4..]);
      assert ds == [ds[0], ds[1], ds[2], ds[3]] + ds[4..];
    }
  }

  // ----- as one number ------------------------------------------------------

  /** A byte string as the number its bytes write in base 256. */
  function ValueOf(bytes: seq<Byte>): nat
  {
    if bytes == [] then 0 else bytes[0] * Power(256, |bytes| - 1) + ValueOf(bytes[1..])
  }

  /** Sextets as the number they write in base 64. */
  function ValueOfSextets(ds: seq<Sextet>): nat
  {
    if ds == [] then 0 else ds[0] * Power(64, |ds| - 1) + ValueOfSextets(ds[1..])
  }

  /** A number with the zero bits after it that fill the last sextet of so many bytes. */
  function Shifted(n: int, count: nat): int
  {
    if count % 3 == 0 then n else if count % 3 == 1 then n * 16 else n * 4
  }

  lemma PowerNext(base: nat, n: nat)
    requires base > 0
    ensures Power(base, n + 1) == base * Power(base, n)
  {
  }

  lemma {:induction false} WholeGroups(m: nat)
    ensures Power(64, 4 * m) == Power(256, 3 * m)
  {
    if m > 0 {
      WholeGroups(m - 1);
      FourMore(4 * (m - 1));
      ThreeMore(3 * (m - 1));
    }
  }

  lemma SextetWidth(count: nat)
    ensures Power(64, (4 * count + 2) / 3) == Shifted(Power(256, count), count)
  {
    var m, r := count / 3, count % 3;
    WholeGroups(m);
    FourMore(4 * m);
    ThreeMore(3 * m);
    assert (4 * count + 2) / 3 == if r == 0 then 4 * m else if r == 1 then 4 * m + 2 else 4 * m + 3;
  }

  lemma FourMore(k: nat)
    ensures Power(64, k + 1) == 64 * Power(64, k) && Power(64, k + 2) == 4096 * Power(64, k)
    ensures Power(64, k + 3) == 262144 * Power(64, k) && Power(64, k + 4) == 16777216 * Power(64, k)
  {
    PowerNext(64, k);
    PowerNext(64, k + 1);
    PowerNext(64, k + 2);
    PowerNext(64, k + 3);
  }

  lemma ThreeMore(k: nat)
    ensures Power(256, k + 1) == 256 * Power(256, k) && Power(256, k + 2) == 65536 * Power(256, k)
    ensures Power(256, k + 3) == 16777216 * Power(256, k)
  {
    PowerNext(256, k);
    PowerNext(256, k + 1);
    PowerNext(256, k + 2);
  }

  lemma Gather2(a: int, b: int, k: int, p: int, v: int)
    ensures a * (k * p) + (b * p + v) == (a * k + b) * p + v
  {
  }

  lemma NextSextet(ds: seq<Sextet>, i: nat)
    requires i < |ds|
    ensures ValueOfSextets(ds[i..]) == ds[i] * Power(64, |ds| - i - 1) + ValueOfSextets(ds[i + 1..])
  {
    assert ds[i..][1..] == ds[i + 1..];
  }

  lemma NextByte(bytes: seq<Byte>, i: nat)
    requires i < |bytes|
    ensures ValueOf(bytes[i..]) == bytes[i] * Power(256, |bytes| - i - 1) + ValueOf(bytes[i + 1..])
  {
    assert bytes[i..][1..] == bytes[i + 1..];
  }

  lemma TwoDigits(ds: seq<Sextet>, i: nat)
    requires i + 2 <= |ds|
    ensures ValueOfSextets(ds[i..]) ==
            (ds[i] * 64 + ds[i + 1]) * Power(64, |ds| - i - 2) + ValueOfSextets(ds[i + 2..])
  {
    NextSextet(ds, i);
    NextSextet(ds, i + 1);
    PowerNext(64, |ds| - i - 2);
    Gather2(ds[i], ds[i + 1], 64, Power(64, |ds| - i - 2), ValueOfSextets(ds[i + 2..]));
  }

  lemma FourDigits(ds: seq<Sextet>)
    requires |ds| >= 4
    ensures ValueOfSextets(ds) ==
            (ds[0] * 262144 + ds[1] * 4096 + ds[2] * 64 + ds[3]) * Power(64, |ds| - 4) + ValueOfSextets(ds[4..])
  {
    assert ds[0..] == ds;
    TwoDigits(ds, 0);
    TwoDigits(ds, 2);
    FourMore(|ds| - 4);
    var d0: int, d1: int, d2: int, d3: int := ds[0], ds[1], ds[2], ds[3];
    var high: int, low: int := d0 * 64 + d1, d2 * 64 + d3;
    Gather2(high, low, 4096, Power(64, |ds| - 4), ValueOfSextets(ds[4..]));
  }

  lemma TwoOctets(bytes: seq<Byte>, i: nat)
    requires i + 2 <= |bytes|
    ensures ValueOf(bytes[i..]) ==
            (bytes[i] as int * 256 + bytes[i + 1] as int) * Power(256, |bytes| - i - 2) + ValueOf(bytes[i + 2..])
  {
    NextByte(bytes, i);
    NextByte(bytes, i + 1);
    PowerNext(256, |bytes| - i - 2);
    Gather2(bytes[i], bytes[i + 1], 256, Power(256, |bytes| - i - 2), ValueOf(bytes[i + 2..]));
  }

  lemma ThreeDigits(bytes: seq<Byte>)
    requires |bytes| >= 3
    ensures ValueOf(bytes) ==
            (bytes[0] as int * 65536 + bytes[1] as int * 256 + bytes[2] as int) * Power(256, |bytes| - 3)
            + ValueOf(bytes[3..])
  {
    assert bytes[0..] == bytes;
    TwoOctets(bytes, 0);
    NextByte(bytes, 2);
    PowerNext(256, |bytes| - 3);
    var b0: int, b1: int, b2: int := bytes[0], bytes[1], bytes[2];
    var high := b0 * 256 + b1;
    Gather2(high, b2, 256, Power(256, |bytes| - 3), ValueOf(bytes[3..]));
  }

  /** Three bytes and their four sextets are one number. */
  lemma GroupValue(b0: Byte, b1: Byte, b2: Byte)
    ensures Sextet0(b0) * 262144 + Sextet1(b0, b1) * 4096 + Sextet2(b1, b2) * 64 + Sextet3(b2) ==
            b0 * 65536 + b1 * 256 + b2
  {
  }

  lemma SmallPowers()
    ensures Power(64, 0) == 1 && Power(64, 1) == 64 && Power(64, 2) == 4096
    ensures Power(256, 0) == 1 && Power(256, 1) == 256
  {
    FourMore(0);
    ThreeMore(0);
  }

  lemma TwoValue(d0: Sextet, d1: Sextet)
    ensures ValueOfSextets([d0, d1]) == d0 * 64 + d1
  {
    SmallPowers();
    assert [d0, d1][1..] == [d1];
    assert [d1][1..] == [];
    assert ValueOfSextets([d1]) == d1 * Power(64, 0);
  }

  lemma ThreeValue(d0: Sextet, d1: Sextet, d2: Sextet)
    ensures ValueOfSextets([d0, d1, d2]) == d0 * 4096 + d1 * 64 + d2
  {
    SmallPowers();
    TwoValue(d1, d2);
    assert [d0, d1, d2][1..] == [d1, d2];
  }

  lemma OneByteValue(b0: Byte)
    ensures ValueOf([b0]) == b0
  {
    SmallPowers();
    assert [b0][1..] == [];
  }

  lemma TwoByteValue(b0: Byte, b1: Byte)
    ensures ValueOf([b0, b1]) == b0 * 256 + b1
  {
    SmallPowers();
    OneByteValue(b1);
    assert [b0, b1][1..] == [b1];
  }

  lemma OneTail(b0: Byte)
    ensures ValueOfSextets(TailSextets([b0])) == ValueOf([b0]) * 16
  {
    TwoValue(Sextet0(b0), Sextet1(b0, 0));
    OneByteValue(b0);
  }

  lemma TwoTail(b0: Byte, b1: Byte)
    ensures ValueOfSextets(TailSextets([b0, b1])) == ValueOf([b0, b1]) * 4
  {
    ThreeValue(Sextet0(b0), Sextet1(b0, b1), Sextet2(b1, 0));
    TwoByteValue(b0, b1);
    GroupValue(b0, b1, 0);
  }

  lemma ShiftedSum(shifted: int, n: int, g: int, q: int, p: int, v: int, u: int, count: nat)
    requires shifted == g * q + v && n == g * p + u
    requires q == Shifted(p, count) && v == Shifted(u, count)
    ensures shifted == Shifted(n, count)
  {
    if count % 3 == 1 {
      assert g * (p * 16) == g * p * 16;
    } else if count % 3 == 2 {
      assert g * (p * 4) == g * p * 4;
    }
  }

  lemma FourFirst(ds: seq<Sextet>, group: int)
    requires |ds| >= 4 && group == ds[0] as int * 262144 + ds[1] as int * 4096 + ds[2] as int * 64 + ds[3] as int
    ensures ValueOfSextets(ds) == group * Power(64, |ds| - 4) + ValueOfSextets(ds[4..])
  {
    FourDigits(ds);
  }

  lemma GroupFirst(bytes: seq<Byte>, group: int)
    requires |bytes| >= 3 && group == bytes[0] as int * 65536 + bytes[1] as int * 256 + bytes[2] as int
    ensures ValueOfSextets(Sextets(bytes)) ==
            group * Power(64, |Sextets(bytes[3..])|) + ValueOfSextets(Sextets(bytes[3..]))
  {
    var ds := Sextets(bytes);
    assert ds[4..] == Sextets(bytes[3..]);
    GroupValue(bytes[0], bytes[1], bytes[2]);
    FourFirst(ds, group);
  }

  lemma FirstThree(bytes: seq<Byte>, group: int)
    requires |bytes| >= 3 && group == bytes[0] as int * 65536 + bytes[1] as int * 256 + bytes[2] as int
    ensures ValueOf(bytes) == group * Power(256, |bytes| - 3) + ValueOf(bytes[3..])
  {
    ThreeDigits(bytes);
  }

  lemma GroupWidth(bytes: seq<Byte>)
    ensures Power(64, |Sextets(bytes)|) == Shifted(Power(256, |bytes|), |bytes|)
  {
    SextetCount(bytes);
    SextetWidth(|bytes|);
  }

  lemma GroupAndRest(bytes: seq<Byte>, rest: seq<Byte>)
    requires |bytes| >= 3 && rest == bytes[3..]
    requires ValueOfSextets(Sextets(rest)) == Shifted(ValueOf(rest), |rest|)
    ensures ValueOfSextets(Sextets(bytes)) == Shifted(ValueOf(bytes), |rest|)
  {
    var group := bytes[0] as int * 65536 + bytes[1] as int * 256 + bytes[2] as int;
    GroupWidth(rest);
    GroupFirst(bytes, group);
    FirstThree(bytes, group);
    ShiftedSum(ValueOfSextets(Sextets(bytes)), ValueOf(bytes), group, Power(64, |Sextets(rest)|), Power(256, |rest|),
               ValueOfSextets(Sextets(rest)), ValueOf(rest), |rest|);
  }

  /** The sextets write the number the bytes do, with zero bits after it to fill the
      last one. */
  lemma {:induction false} SextetsKeepValue(bytes: seq<Byte>)
    ensures ValueOfSextets(Sextets(bytes)) == Shifted(ValueOf(bytes), |bytes|)
  {
    if |bytes| == 1 {
      assert bytes == [bytes[0]];
      OneTail(bytes[0]);
    } else if |bytes| == 2 {
      assert bytes == [bytes[0], bytes[1]];
      TwoTail(bytes[0], bytes[1]);
    } else if bytes != [] {
      SextetsKeepValue(bytes[3..]);
      GroupAndRest(bytes, bytes[3..]);
      assert (|bytes| - 3) % 3 == |bytes| % 3;
    }
  }

  // ----- sextets and characters -------------------------------------------

  function Symbol(d: Sextet): char
  {
    if d < 26 then ('A' as int + d) as char
    else if d < 52 then ('a' as int + d - 26) as char
    else if d < 62 then ('0' as int + d - 52) as char
    else if d == 62 then '-' else '_'
  }

  predicate InAlphabet(c: char)
  {
    'A' <= c <= 'Z' || 'a' <= c <= 'z' || '0' <= c <= '9' || c == '-' || c == '_'
  }

  function Value(c: char): Sextet
    requires InAlphabet(c)
  {
    if 'A' <= c <= 'Z' then c as int - 'A' as int
    else if 'a' <= c <= 'z' then c as int - 'a' as int + 26
    else if '0' <= c <= '9' then c as int - '0' as int + 52
    else if c == '-' then 62 else 63
  }

  predicate AllAlphabet(text: string)
  {
    forall i :: 0 <= i < |text| ==> InAlphabet(text[i])
  }

  function Symbols(ds: seq<Sextet>): (text: string)
    ensures |text| == |ds| && AllAlphabet(text) && Values(text) == ds
  {
    seq(|ds|, i requires 0 <= i < |ds| => Symbol(ds[i]))
  }

  function Values(text: string): (ds: seq<Sextet>)
    requires AllAlphabet(text)
    ensures |ds| == |text|
    ensures forall i :: 0 <= i < |text| ==> ds[i] == Value(text[i])
  {
    seq(|text|, i requires 0 <= i < |text| => Value(text[i]))
  }

  lemma SymbolsOfValues(text: string)
    requires AllAlphabet(text)
    ensures Symbols(Values(text)) == text
  {
    forall i | 0 <= i < |text| ensures Symbol(Value(text[i])) == text[i] {}
  }

  const UPPER := "ABCDEFGHIJKLMNOPQRSTUVWXYZ"
  const LOWER := "abcdefghijklmnopqrstuvwxyz"
  const DIGITS := "0123456789"

  lemma UpperIs(d: Sextet)
    requires d < 26
    ensures Symbol(d) == UPPER[d]
  {
  }

  lemma LowerIs(d: Sextet)
    requires 26 <= d < 52
    ensures Symbol(d) == LOWER[d - 26]
  {
  }

  lemma DigitIs(d: Sextet)
    requires 52 <= d < 62
    ensures Symbol(d) == DIGITS[d - 52]
  {
  }

  /** Table 2 of RFC 4648. */
  lemma AlphabetIs(d: Sextet)
    ensures Symbol(d) ==
            if d < 26 then UPPER[d] else if d < 52 then LOWER[d - 26] else if d < 62 then DIGITS[d - 52]
            else if d == 62 then '-' else '_'
    ensures InAlphabet(Symbol(d)) && Value(Symbol(d)) == d
  {
    if d < 26 {
      UpperIs(d);
    } else if d < 52 {
      LowerIs(d);
    } else if d < 62 {
      DigitIs(d);
    }
  }

  // ----- the codec --------------------------------------------------------

  /** `Buffer.toString('base64url')`. */
  function Encode(bytes: seq<Byte>): string
  {
    Symbols(Sextets(bytes))
  }

  /** `Buffer.from(text, 'base64url')` on text of the alphabet. */
  function RawDecode(text: string): seq<Byte>
    requires AllAlphabet(text)
  {
    Bytes(Values(text))
  }

  /** The strict decoder: the alphabet, the length, and bytes that encode back
      to exactly what was sent. */
  function Decode(text: string, allowEmpty: bool): Option<seq<Byte>>
  {
    if text == "" then (if allowEmpty then Some([]) else None)
    else if !AllAlphabet(text) || |text| % 4 == 1 then None
    else
      var bytes := RawDecode(text);
      if Encode(bytes) != text then None else Some(bytes)
  }

  /** What strictness means bit by bit. */
  predicate Canonical(text: string)
  {
    AllAlphabet(text) && ZeroTail(Values(text))
  }

  /** The decoder accepts exactly the encoder's image, and answers the bytes
      that were encoded: no two accepted spellings name one byte string. */
  lemma DecodeIffEncode(text: string, allowEmpty: bool, bytes: seq<Byte>)
    requires text != ""
    ensures Decode(text, allowEmpty) == Some(bytes) <==> Encode(bytes) == text
  {
    BytesOfSextets(bytes);
  }

  /** Which texts are accepted, said of the characters alone. */
  lemma AcceptedIffCanonical(text: string, allowEmpty: bool)
    ensures Decode(text, allowEmpty).Some? <==> Canonical(text) && (text != "" || allowEmpty)
  {
    if text != "" && AllAlphabet(text) && |text| % 4 != 1 {
      if Canonical(text) {
        SextetsOfBytes(Values(text));
        SymbolsOfValues(text);
      } else {
        BytesOfSextets(RawDecode(text));
      }
    }
  }

  lemma EncodeInjective(a: seq<Byte>, b: seq<Byte>)
    ensures Encode(a) == Encode(b) <==> a == b
  {
    BytesOfSextets(a);
    BytesOfSextets(b);
  }

  /** The text writes, in the alphabet's digits, the number the bytes do, with zero
      bits after it to fill the last character. */
  lemma EncodeWrites(bytes: seq<Byte>)
    ensures AllAlphabet(Encode(bytes))
    ensures ValueOfSextets(Values(Encode(bytes))) ==
            ValueOf(bytes) * (if |bytes| % 3 == 0 then 1 else if |bytes| % 3 == 1 then 16 else 4)
  {
    SextetsKeepValue(bytes);
  }

  /** The empty text is no bytes where it is allowed, and refused where it is not. */
  lemma EmptyDecoded(allowEmpty: bool)
    ensures Decode("", allowEmpty) == if allowEmpty then Some([]) else None
    ensures Encode([]) == ""
  {
  }

  lemma EncodeShape(bytes: seq<Byte>)
    ensures |Encode(bytes)| == (4 * |bytes| + 2) / 3
    ensures forall c :: c in Encode(bytes) ==> InAlphabet(c)
  {
    SextetCount(bytes);
  }
}
