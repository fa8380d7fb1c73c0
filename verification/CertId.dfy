/** RFC 9773's certificate identifier (section 4.1): base64url of the authority
    key identifier, a dot, base64url of the serial number's DER INTEGER content
    (section 8.3 of X.690). */
module CertId {
  import opened Basics
  import opened Wrappers
  import opened Base64Url
  import Text

  // ----- hexadecimal ------------------------------------------------------

  predicate IsHex(c: char)
  {
    '0' <= c <= '9' || 'a' <= c <= 'f' || 'A' <= c <= 'F'
  }

  type HexDigit = c: char | '0' <= c <= '9' || 'a' <= c <= 'f' witness '0'

  type Hex = seq<HexDigit>

  type Nibble = d: int | 0 <= d < 16

  function Digit(c: HexDigit): Nibble
  {
    if c <= '9' then c as int - '0' as int else c as int - 'a' as int + 10
  }

  function HexChar(d: Nibble): (c: HexDigit)
    ensures Digit(c) == d
  {
    if d < 10 then ('0' as int + d) as char else ('a' as int + d - 10) as char
  }

  /** `replace(/[^0-9a-fA-F]/g, '').toLowerCase()`. */
  function HexDigits(text: string): Hex
  {
    if text == "" then ""
    else if IsHex(text[0]) then [Text.LowerChar(text[0])] + HexDigits(text[1..])
    else HexDigits(text[1..])
  }

  /** Piece by piece: a digit stays, a capital one becomes small, and nothing else
      is left. */
  lemma {:induction false} HexByPieces(a: string, b: string)
    ensures HexDigits(a + b) == HexDigits(a) + HexDigits(b)
  {
    if a == "" {
      assert a + b == b;
    } else {
      assert (a + b)[1..] == a[1..] + b;
      HexByPieces(a[1..], b);
    }
  }

  lemma HexOfOne(c: char)
    ensures HexDigits([c]) ==
            if c in "0123456789abcdef" then [c]
            else if c == 'A' then "a" else if c == 'B' then "b" else if c == 'C' then "c"
            else if c == 'D' then "d" else if c == 'E' then "e" else if c == 'F' then "f" else ""
  {
    assert [c][1..] == "";
  }

  /** The digits are worth zero to fifteen. */
  lemma DigitWorth(d: Nibble)
    ensures Digit("0123456789abcdef"[d]) == d
  {
  }

  /** `replace(/^(00)+(?=.)/, '')`: leading zero octets go while a character follows. */
  function StripZeroPairs(hex: Hex): Hex
  {
    if |hex| > 2 && hex[0] == '0' && hex[1] == '0' then StripZeroPairs(hex[2..]) else hex
  }

  function Octet(high: HexDigit, low: HexDigit): Byte
  {
    Digit(high) * 16 + Digit(low)
  }

  /** `Buffer.from(hex, 'hex')`. */
  function OctetsOf(hex: Hex): seq<Byte>
    requires |hex| % 2 == 0
  {
    if hex == "" then [] else [Octet(hex[0], hex[1])] + OctetsOf(hex[2..])
  }

  /** `toString('hex')`. */
  function ToHex(bytes: seq<Byte>): Hex
  {
    if bytes == [] then "" else [HexChar(bytes[0] / 16), HexChar(bytes[0] % 16)] + ToHex(bytes[1..])
  }

  // ----- the integers the two notations denote ----------------------------

  function ValueOfHex(hex: Hex): nat
  {
    if hex == "" then 0 else Digit(hex[0]) * Power(16, |hex| - 1) + ValueOfHex(hex[1..])
  }

  lemma {:induction false} PowerSquare(n: nat)
    ensures Power(16, 2 * n) == Power(256, n)
  {
    if n > 0 {
      PowerSquare(n - 1);
      assert Power(16, 2 * n) == 16 * (16 * Power(16, 2 * n - 2));
    }
  }

  lemma {:induction false} ValueOfOctets(hex: Hex)
    requires |hex| % 2 == 0
    ensures |OctetsOf(hex)| == |hex| / 2
    ensures ValueOf(OctetsOf(hex)) == ValueOfHex(hex)
  {
    if hex != "" {
      ValueOfOctets(hex[2..]);
      var n := |hex| / 2 - 1;
      PowerSquare(n);
      assert hex[1..][1..] == hex[2..];
      assert OctetsOf(hex)[1..] == OctetsOf(hex[2..]);
      assert Power(16, |hex| - 1) == 16 * Power(16, 2 * n);
      TwoDigits(Digit(hex[0]), Digit(hex[1]), Power(256, n));
    }
  }

  lemma TwoDigits(a: int, b: int, p: int)
    ensures a * (16 * p) + b * p == (a * 16 + b) * p
  {
  }

  lemma {:induction false} OctetsOfToHex(bytes: seq<Byte>)
    ensures |ToHex(bytes)| == 2 * |bytes|
    ensures OctetsOf(ToHex(bytes)) == bytes
  {
    if bytes != [] {
      OctetsOfToHex(bytes[1..]);
      assert ToHex(bytes)[2..] == ToHex(bytes[1..]);
    }
  }

  lemma {:induction false} StripKeepsValue(hex: Hex)
    ensures ValueOfHex(StripZeroPairs(hex)) == ValueOfHex(hex)
  {
    if |hex| > 2 && hex[0] == '0' && hex[1] == '0' {
      StripKeepsValue(hex[2..]);
      assert hex[1..][1..] == hex[2..];
    }
  }

  lemma {:induction false} StripShape(hex: Hex)
    ensures var s := StripZeroPairs(hex);
            && (s == "" <==> hex == "")
            && |s| % 2 == |hex| % 2
            && !(|s| > 2 && s[0] == '0' && s[1] == '0')
  {
    if |hex| > 2 && hex[0] == '0' && hex[1] == '0' {
      StripShape(hex[2..]);
    }
  }

  // ----- the serial number's content octets -------------------------------

  /** The hexadecimal text the octets are read from: stripped, and made even. */
  function EvenHex(serialHex: string): (hex: Hex)
  {
    var stripped := StripZeroPairs(HexDigits(serialHex));
    if |stripped| % 2 == 1 then "0" + stripped else stripped
  }

  /** A zero octet goes in front when the first bit is set. */
  function SignPadded(bytes: seq<Byte>): seq<Byte>
  {
    if bytes != [] && bytes[0] >= 128 then [0] + bytes else bytes
  }

  function ContentOctets(serialHex: string): seq<Byte>
  {
    StripShape(HexDigits(serialHex));
    SignPadded(OctetsOf(EvenHex(serialHex)))
  }

  method SerialContentBytes(serialHex: string) returns (bytes: seq<Byte>)
    ensures bytes == ContentOctets(serialHex)
  {
    var hex: Hex := StripZeroPairs(HexDigits(serialHex));
    StripShape(HexDigits(serialHex));
    if |hex| % 2 == 1 {
      hex := "0" + hex;
    }
    bytes := OctetsOf(hex);
    if bytes != [] && bytes[0] >= 128 {
      bytes := [0] + bytes;
    }
  }

  lemma EvenHexValue(serialHex: string)
    ensures |EvenHex(serialHex)| % 2 == 0
    ensures ValueOfHex(EvenHex(serialHex)) == ValueOfHex(HexDigits(serialHex))
  {
    var stripped := StripZeroPairs(HexDigits(serialHex));
    StripKeepsValue(HexDigits(serialHex));
    assert ("0" + stripped)[1..] == stripped;
  }

  /** The octets denote the number the digits do, whatever the text was. */
  lemma ContentKeepsValue(serialHex: string)
    ensures ValueOf(ContentOctets(serialHex)) == ValueOfHex(HexDigits(serialHex))
  {
    StripShape(HexDigits(serialHex));
    EvenHexValue(serialHex);
    ValueOfOctets(EvenHex(serialHex));
    var bytes := OctetsOf(EvenHex(serialHex));
    assert ([0] + bytes)[1..] == bytes;
  }

  /** Section 8.3 of X.690 for a non-negative integer: at least one octet, the
      sign bit clear, and no nine leading zero bits. */
  predicate DerContent(bytes: seq<Byte>)
  {
    && bytes != []
    && bytes[0] < 128
    && (|bytes| > 1 && bytes[0] == 0 ==> bytes[1] >= 128)
  }

  /** A text of odd length that, stripped, still begins with a zero and a digit
      below eight: it gets a zero octet that the number does not need. */
  predicate Long(serialHex: string)
  {
    var stripped := StripZeroPairs(HexDigits(serialHex));
    |stripped| % 2 == 1 && |stripped| > 1 && stripped[0] == '0' && Digit(stripped[1]) < 8
  }

  lemma {:induction false} OctetCount(hex: Hex)
    requires |hex| % 2 == 0
    ensures |OctetsOf(hex)| == |hex| / 2
  {
    if hex != "" {
      OctetCount(hex[2..]);
    }
  }

  lemma FirstOctets(hex: Hex)
    requires |hex| % 2 == 0 && hex != ""
    ensures OctetsOf(hex) != [] && OctetsOf(hex)[0] == Octet(hex[0], hex[1])
    ensures |OctetsOf(hex)| == |hex| / 2
    ensures |hex| > 2 ==> OctetsOf(hex)[1] == Octet(hex[2], hex[3]) && OctetsOf(hex)[1..] == OctetsOf(hex[2..])
  {
    OctetCount(hex);
    assert OctetsOf(hex)[1..] == OctetsOf(hex[2..]);
    if |hex| > 2 {
      assert OctetsOf(hex[2..])[0] == Octet(hex[2..][0], hex[2..][1]);
    }
  }

  /** A long text's octets are one zero more than the number's own. */
  lemma LongContent(serialHex: string)
    requires Long(serialHex)
    ensures var content := ContentOctets(serialHex);
            |content| > 1 && content == [0] + content[1..]
            && DerContent(content[1..]) && ValueOf(content[1..]) == ValueOf(content)
  {
    var hex := EvenHex(serialHex);
    StripShape(HexDigits(serialHex));
    FirstOctets(hex);
    FirstOctets(hex[2..]);
    assert ContentOctets(serialHex) == OctetsOf(hex);
  }

  /** Every other text with a digit gets the number's own octets. */
  lemma ShortContent(serialHex: string)
    requires HexDigits(serialHex) != "" && !Long(serialHex)
    ensures DerContent(ContentOctets(serialHex))
  {
    StripShape(HexDigits(serialHex));
    FirstOctets(EvenHex(serialHex));
  }

  /** Exactly when the octets are DER. */
  lemma ContentIsDer(serialHex: string)
    ensures DerContent(ContentOctets(serialHex)) <==> HexDigits(serialHex) != "" && !Long(serialHex)
  {
    ContentEmpty(serialHex);
    if Long(serialHex) {
      LongContent(serialHex);
    } else if HexDigits(serialHex) != "" {
      ShortContent(serialHex);
    }
  }

  lemma EvenSerialIsDer(serialHex: string)
    requires HexDigits(serialHex) != "" && |HexDigits(serialHex)| % 2 == 0
    ensures DerContent(ContentOctets(serialHex))
  {
    StripShape(HexDigits(serialHex));
    ContentIsDer(serialHex);
  }

  // ----- DER content is one per number -------------------------------------

  lemma MulMonotone(a: int, b: int, p: nat)
    requires a <= b
    ensures a * p <= b * p
  {
  }

  lemma {:induction false} ValueBound(bytes: seq<Byte>)
    ensures ValueOf(bytes) < Power(256, |bytes|)
  {
    if bytes != [] {
      ValueBound(bytes[1..]);
      MulMonotone(bytes[0], 255, Power(256, |bytes| - 1));
    }
  }

  lemma {:induction false} PowerMonotone(base: nat, m: nat, n: nat)
    requires base > 0 && m <= n
    ensures Power(base, m) <= Power(base, n)
  {
    if m < n {
      PowerMonotone(base, m, n - 1);
      assert Power(base, n - 1) <= base * Power(base, n - 1);
    }
  }

  /** A DER integer needs all its octets: its value is out of reach of fewer. */
  lemma DerNeedsItsLength(bytes: seq<Byte>)
    requires DerContent(bytes)
    ensures 2 * ValueOf(bytes) < Power(256, |bytes|)
    ensures |bytes| > 1 ==> 2 * ValueOf(bytes) >= Power(256, |bytes| - 1)
  {
    ValueBound(bytes[1..]);
    MulMonotone(bytes[0], 127, Power(256, |bytes| - 1));
    if |bytes| > 1 {
      if bytes[0] == 0 {
        MulMonotone(128, bytes[1..][0], Power(256, |bytes| - 2));
      } else {
        MulMonotone(1, bytes[0], Power(256, |bytes| - 1));
      }
    }
  }

  lemma {:induction false} SameLengthSameValue(a: seq<Byte>, b: seq<Byte>)
    requires |a| == |b| && ValueOf(a) == ValueOf(b)
    ensures a == b
  {
    if a != [] {
      ValueBound(a[1..]);
      ValueBound(b[1..]);
      LeadingDigit(a[0], b[0], ValueOf(a[1..]), ValueOf(b[1..]), Power(256, |a| - 1));
      SameLengthSameValue(a[1..], b[1..]);
      assert a == [a[0]] + a[1..] && b == [b[0]] + b[1..];
    }
  }

  lemma LeadingDigit(x: int, y: int, u: nat, v: nat, p: nat)
    requires u < p && v < p && x * p + u == y * p + v
    ensures x == y && u == v
  {
    if x < y {
      MulMonotone(x + 1, y, p);
    } else if y < x {
      MulMonotone(y + 1, x, p);
    }
  }

  lemma DerUnique(a: seq<Byte>, b: seq<Byte>)
    requires DerContent(a) && DerContent(b)
    requires ValueOf(a) == ValueOf(b)
    ensures a == b
  {
    DerNeedsItsLength(a);
    DerNeedsItsLength(b);
    if |a| < |b| {
      PowerMonotone(256, |a|, |b| - 1);
    } else if |b| < |a| {
      PowerMonotone(256, |b|, |a| - 1);
    }
    SameLengthSameValue(a, b);
  }

  // ----- the identifier ----------------------------------------------------

  function CertIdOf(aki: seq<Byte>, serialHex: string): string
  {
    Encode(aki) + "." + Encode(ContentOctets(serialHex))
  }

  datatype Parsed = Parsed(aki: seq<Byte>, serialHex: Hex, certId: string)

  const MAX_LENGTH := 512

  function ParseCertId(text: string): Option<Parsed>
  {
    var pieces := Text.Split(text, '.');
    if |pieces| != 2 || |text| > MAX_LENGTH then None
    else
      var aki, serial := Decode(pieces[0], false), Decode(pieces[1], false);
      if aki.None? || serial.None? then None
      else Some(Parsed(aki.value, StripZeroPairs(ToHex(serial.value)), text))
  }

  lemma SplitTwo(aki: seq<Byte>, serial: seq<Byte>)
    ensures Text.Split(Encode(aki) + "." + Encode(serial), '.') == [Encode(aki), Encode(serial)]
  {
    EncodeShape(aki);
    EncodeShape(serial);
    Text.SplitWhole(Encode(aki), '.');
    Text.SplitWhole(Encode(serial), '.');
    Text.SplitConcat(Encode(aki), '.', Encode(serial));
  }

  /** Two byte strings, written with the dot between, are read back when both
      are non-empty and the text is within the limit, and otherwise refused. */
  lemma ParseWritten(aki: seq<Byte>, serial: seq<Byte>)
    ensures var text := Encode(aki) + "." + Encode(serial);
            ParseCertId(text) ==
            if aki != [] && serial != [] && |text| <= 512
            then Some(Parsed(aki, StripZeroPairs(ToHex(serial)), text)) else None
  {
    SplitTwo(aki, serial);
    EncodeNonEmpty(aki);
    EncodeNonEmpty(serial);
    if aki != [] {
      DecodeIffEncode(Encode(aki), false, aki);
    }
    if serial != [] {
      DecodeIffEncode(Encode(serial), false, serial);
    }
  }

  /** A text of the two byte strings, short enough. */
  predicate WrittenAs(text: string, aki: seq<Byte>, serial: seq<Byte>)
  {
    aki != [] && serial != [] && |text| <= MAX_LENGTH && text == Encode(aki) + "." + Encode(serial)
  }

  /** And nothing else is accepted. */
  lemma ParsedIffWritten(text: string)
    ensures ParseCertId(text).Some? <==> exists aki, serial :: WrittenAs(text, aki, serial)
  {
    if ParseCertId(text).Some? {
      var pieces := Text.Split(text, '.');
      Text.JoinSplit(text, '.');
      assert pieces[1..] == [pieces[1]];
      var aki, serial := Decode(pieces[0], false).value, Decode(pieces[1], false).value;
      EncodeNonEmpty(aki);
      EncodeNonEmpty(serial);
      assert WrittenAs(text, aki, serial);
    }
    if aki, serial :| WrittenAs(text, aki, serial) {
      ParseWritten(aki, serial);
    }
  }

  lemma EncodeNonEmpty(bytes: seq<Byte>)
    ensures Encode(bytes) == "" <==> bytes == []
  {
    EncodeShape(bytes);
  }

  lemma SerialHexValue(serial: seq<Byte>)
    ensures ValueOfHex(StripZeroPairs(ToHex(serial))) == ValueOf(serial)
  {
    OctetsOfToHex(serial);
    ValueOfOctets(ToHex(serial));
    StripKeepsValue(ToHex(serial));
  }

  /** A certificate's own identifier, within the limit, is read back as the same
      key identifier and the same number. */
  lemma RoundTrip(aki: seq<Byte>, serialHex: string)
    ensures ParseCertId(CertIdOf(aki, serialHex)).Some? <==>
            aki != [] && HexDigits(serialHex) != "" && |CertIdOf(aki, serialHex)| <= MAX_LENGTH
    ensures ParseCertId(CertIdOf(aki, serialHex)).Some? ==>
            var parsed := ParseCertId(CertIdOf(aki, serialHex)).value;
            && parsed.aki == aki
            && ValueOfHex(parsed.serialHex) == ValueOfHex(HexDigits(serialHex))
            && parsed.certId == CertIdOf(aki, serialHex)
  {
    var text, serial := CertIdOf(aki, serialHex), ContentOctets(serialHex);
    ParseWritten(aki, serial);
    ContentEmpty(serialHex);
    SerialHexValue(serial);
    ContentKeepsValue(serialHex);
  }

  lemma ContentEmpty(serialHex: string)
    ensures ContentOctets(serialHex) == [] <==> HexDigits(serialHex) == ""
  {
    StripShape(HexDigits(serialHex));
    EvenHexValue(serialHex);
    ValueOfOctets(EvenHex(serialHex));
  }

  /** Two certificates share an identifier exactly when they share the key
      identifier and the number and both serials are spelled long or neither is. */
  lemma CertIdInjective(aki: seq<Byte>, serialHex: string, aki': seq<Byte>, serialHex': string)
    ensures CertIdOf(aki, serialHex) == CertIdOf(aki', serialHex') <==>
            && aki == aki'
            && ValueOfHex(HexDigits(serialHex)) == ValueOfHex(HexDigits(serialHex'))
            && (HexDigits(serialHex) == "" <==> HexDigits(serialHex') == "")
            && (Long(serialHex) <==> Long(serialHex'))
  {
    SameTexts(aki, ContentOctets(serialHex), aki', ContentOctets(serialHex'));
    SameContents(serialHex, serialHex');
  }

  lemma SameTexts(aki: seq<Byte>, a: seq<Byte>, aki': seq<Byte>, a': seq<Byte>)
    ensures Encode(aki) + "." + Encode(a) == Encode(aki') + "." + Encode(a') <==> aki == aki' && a == a'
  {
    SplitTwo(aki, a);
    SplitTwo(aki', a');
    EncodeInjective(aki, aki');
    EncodeInjective(a, a');
    assert [Encode(aki), Encode(a)][0] == Encode(aki) && [Encode(aki'), Encode(a')][0] == Encode(aki');
    assert [Encode(aki), Encode(a)][1] == Encode(a) && [Encode(aki'), Encode(a')][1] == Encode(a');
  }

  lemma SameContents(serialHex: string, serialHex': string)
    ensures ContentOctets(serialHex) == ContentOctets(serialHex') <==>
            && ValueOfHex(HexDigits(serialHex)) == ValueOfHex(HexDigits(serialHex'))
            && (HexDigits(serialHex) == "" <==> HexDigits(serialHex') == "")
            && (Long(serialHex) <==> Long(serialHex'))
  {
    var c, c' := ContentOctets(serialHex), ContentOctets(serialHex');
    ContentKeepsValue(serialHex);
    ContentKeepsValue(serialHex');
    ContentEmpty(serialHex);
    ContentEmpty(serialHex');
    ContentIsDer(serialHex);
    ContentIsDer(serialHex');
    if ValueOf(c) == ValueOf(c') && c != [] && c' != [] {
      if Long(serialHex) && Long(serialHex') {
        LongContent(serialHex);
        LongContent(serialHex');
        DerUnique(c[1..], c'[1..]);
      } else if !Long(serialHex) && !Long(serialHex') {
        DerUnique(c, c');
      }
    }
  }

  /** So one number can carry two identifiers: "07f" and "7f". */
  lemma OddSerialSplits(aki: seq<Byte>)
    ensures ValueOfHex(HexDigits("07f")) == ValueOfHex(HexDigits("7f"))
    ensures Long("07f") && !Long("7f")
    ensures CertIdOf(aki, "07f") != CertIdOf(aki, "7f")
  {
    OneNumber();
    OneLong();
    CertIdInjective(aki, "07f", aki, "7f");
  }

  lemma OneNumber()
    ensures HexDigits("07f") == "07f" && HexDigits("7f") == "7f"
    ensures ValueOfHex("07f") == ValueOfHex("7f")
  {
    LowerHexStays("07f");
    LowerHexStays("7f");
    assert ("07f")[1..] == "7f";
  }

  lemma OneLong()
    ensures Long("07f") && !Long("7f")
  {
    OneNumber();
  }

  /** An accepted identifier is what `CertIdOf` makes of what it was read as
      exactly when its serial is DER: the parser alone takes longer spellings. */
  lemma ReadThenWritten(aki: seq<Byte>, serial: seq<Byte>)
    requires serial != []
    ensures CertIdOf(aki, StripZeroPairs(ToHex(serial))) == Encode(aki) + "." + Encode(serial)
       <==> DerContent(serial)
  {
    var again := ContentOctets(StripZeroPairs(ToHex(serial)));
    ReadSerial(serial);
    SameTexts(aki, again, aki, serial);
    if DerContent(serial) {
      DerUnique(again, serial);
    }
  }

  lemma ReadSerial(serial: seq<Byte>)
    requires serial != []
    ensures DerContent(ContentOctets(StripZeroPairs(ToHex(serial))))
    ensures ValueOf(ContentOctets(StripZeroPairs(ToHex(serial)))) == ValueOf(serial)
  {
    var hex := StripZeroPairs(ToHex(serial));
    LowerHexStays(hex);
    OctetsOfToHex(serial);
    StripShape(ToHex(serial));
    EvenSerialIsDer(hex);
    ContentKeepsValue(hex);
    SerialHexValue(serial);
  }

  lemma {:induction false} LowerHexStays(hex: Hex)
    ensures HexDigits(hex) == hex
  {
    if hex != "" {
      LowerHexStays(hex[1..]);
      assert hex == [hex[0]] + hex[1..];
    }
  }
}
