/** The self-describing Replay-Nonce (section 6.5 of RFC 8555): a version, an
    expiry, sixteen random bytes and a MAC, checked with no lookup. Time is in
    milliseconds; an expiry is in seconds. */
module Nonce {
  import opened Wrappers
  import opened Base64Url
  import Text

  const VERSION: Byte := 1
  const TWO_32 := 0x1_0000_0000

  type Tag = t: seq<Byte> | |t| == 16 witness [0, 0, 0, 0, 0, 0, 0, 0, 0, 0, 0, 0, 0, 0, 0, 0]

  /** What the MAC is taken over. */
  datatype MacInput = MacInput(scope: string, expiresS: nat, random: Tag)

  /** The MAC under the cluster's nonce secret. */
  type Mac = MacInput -> Tag

  /** The realm, and the cell where the service is deployed as cells. */
  function Scope(realmId: string, cell: Option<string>): string
  {
    realmId + (if cell.Some? then "\ncell:" + cell.value else "")
  }

  /** `n` as `width` octets, the most significant first. */
  function BigEndian(n: nat, width: nat): (bytes: seq<Byte>)
    ensures |bytes| == width
  {
    if width == 0 then [] else BigEndian(n / 256, width - 1) + [n % 256]
  }

  function ReadBigEndian(bytes: seq<Byte>): nat
  {
    if bytes == [] then 0
    else
      var last: int := bytes[|bytes| - 1];
      ReadBigEndian(bytes[..|bytes| - 1]) * 256 + last
  }

  function Limit(width: nat): nat
  {
    if width == 0 then 1 else 256 * Limit(width - 1)
  }

  lemma FourOctets()
    ensures Limit(4) == TWO_32
  {
    assert Limit(2) == 65536;
  }

  lemma {:induction false} ReadOfWritten(n: nat, width: nat)
    requires n < Limit(width)
    ensures ReadBigEndian(BigEndian(n, width)) == n
  {
    if width > 0 {
      ReadOfWritten(n / 256, width - 1);
      assert BigEndian(n, width)[..width - 1] == BigEndian(n / 256, width - 1);
    }
  }

  lemma {:induction false} WrittenOfRead(bytes: seq<Byte>)
    ensures ReadBigEndian(bytes) < Limit(|bytes|)
    ensures BigEndian(ReadBigEndian(bytes), |bytes|) == bytes
  {
    if bytes != [] {
      WrittenOfRead(bytes[..|bytes| - 1]);
      assert bytes == bytes[..|bytes| - 1] + [bytes[|bytes| - 1]];
    }
  }

  /** The thirty-seven bytes of a nonce, as text. */
  function Written(expiresS: nat, random: Tag, tag: Tag): string
    requires expiresS < TWO_32
  {
    Encode([VERSION] + BigEndian(expiresS, 4) + random + tag)
  }

  lemma FourBytes(n: nat)
    ensures BigEndian(n, 4) == [n / 256 / 256 / 256 % 256, n / 256 / 256 % 256, n / 256 % 256, n % 256]
  {
    var m := n / 256;
    assert BigEndian(m, 3) == BigEndian(m / 256, 2) + [m % 256];
  }

  function ExpiryFor(nowMs: nat, lifetimeS: int): nat
  {
    var wanted := if lifetimeS == 0 then 300 else lifetimeS;
    nowMs / 1000 + (if wanted < 1 then 1 else wanted)
  }

  lemma LessWhole(n: int, q: int)
    ensures (n - 256 * q) / 256 == n / 256 - q && (n - 256 * q) % 256 == n % 256
  {
  }

  lemma ByteByByte(n: nat)
    ensures n / 256 / 256 == n / 65536 && n / 65536 / 256 == n / 16777216
  {
  }

  lemma LowFourBytes(n: nat)
    ensures n % TWO_32 / 256 / 256 / 256 % 256 == n / 16777216 % 256
    ensures n % TWO_32 / 256 / 256 % 256 == n / 65536 % 256
    ensures n % TWO_32 / 256 % 256 == n / 256 % 256 && n % TWO_32 % 256 == n % 256
  {
    var q := n / TWO_32;
    assert n % TWO_32 == n - 256 * (q * 16777216);
    LessWhole(n, q * 16777216);
    LessWhole(n / 256, q * 65536);
    LessWhole(n / 256 / 256, q * 256);
    LessWhole(n / 256 / 256 / 256, q);
    ByteByByte(n);
  }

  lemma ReadBack(bytes: seq<Byte>)
    requires bytes != []
    ensures Decode(Encode(bytes), false) == Some(bytes)
  {
    EncodeShape(bytes);
    DecodeIffEncode(Encode(bytes), false, bytes);
  }

  /** The header's four bytes are the expiry's last four. */
  function Header(n: nat): seq<Byte>
  {
    [1, n / 16777216 % 256, n / 65536 % 256, n / 256 % 256, n % 256]
  }

  lemma HeaderIs(n: nat)
    ensures Header(n) == [VERSION] + BigEndian(n % TWO_32, 4)
  {
    LowFourBytes(n);
    FourBytes(n % TWO_32);
  }

  lemma WrittenReads(expiresS: nat, random: Tag, tag: Tag)
    ensures Written(expiresS % TWO_32, random, tag) == Encode(Header(expiresS) + random + tag)
    ensures Decode(Written(expiresS % TWO_32, random, tag), false) == Some(Header(expiresS) + random + tag)
  {
    HeaderIs(expiresS);
    ReadBack(Header(expiresS) + random + tag);
  }

  /** The version and the expiry, as the buffer they are written into. */
  method WriteHeader(expiresS: nat) returns (header: seq<Byte>)
    ensures header == Header(expiresS)
  {
    var head := new Byte[5](i => 0);
    head[0] := VERSION;
    var wrapped := expiresS % TWO_32;
    head[4] := wrapped % 256;
    head[3] := wrapped / 256 % 256;
    head[2] := wrapped / 256 / 256 % 256;
    head[1] := wrapped / 256 / 256 / 256 % 256;
    LowFourBytes(expiresS);
    header := head[..];
  }

  /** The text of a nonce that expires at this second, whatever it was minted for. */
  ghost predicate ReadsAs(nonce: string, mac: Mac, scope: string, expiresS: nat, random: Tag)
  {
    Decode(nonce, false) == Some(Header(expiresS) + random + mac(MacInput(scope, expiresS, random)))
  }

  /** The expiry is the mint second and the lifetime asked for, three hundred seconds
      for none and one at least, so it is always yet to come. */
  lemma ExpiryIs(nowMs: nat, lifetimeS: int)
    ensures lifetimeS == 0 ==> ExpiryFor(nowMs, lifetimeS) == nowMs / 1000 + 300
    ensures lifetimeS > 0 ==> ExpiryFor(nowMs, lifetimeS) == nowMs / 1000 + lifetimeS
    ensures lifetimeS < 0 ==> ExpiryFor(nowMs, lifetimeS) == nowMs / 1000 + 1
    ensures nowMs < ExpiryFor(nowMs, lifetimeS) * 1000
  {
  }

  /** The text of a nonce of these parts; an expiry past its four bytes is cut to them. */
  function Minted(mac: Mac, scope: string, expiresS: nat, random: Tag): string
  {
    Written(expiresS % TWO_32, random, mac(MacInput(scope, expiresS, random)))
  }

  method WriteNonce(header: seq<Byte>, mac: Mac, scope: string, expiresS: nat, random: Tag) returns (nonce: string)
    requires header == Header(expiresS)
    ensures nonce == Minted(mac, scope, expiresS, random) && ReadsAs(nonce, mac, scope, expiresS, random)
  {
    nonce := Encode(header + random + mac(MacInput(scope, expiresS, random)));
    WrittenReads(expiresS, random, mac(MacInput(scope, expiresS, random)));
  }

  method MintNonce(mac: Mac, scope: string, nowMs: nat, lifetimeS: int, random: Tag)
    returns (nonce: string)
    ensures ReadsAs(nonce, mac, scope, ExpiryFor(nowMs, lifetimeS), random)
    ensures nonce == Minted(mac, scope, ExpiryFor(nowMs, lifetimeS), random)
  {
    var expiresS := ExpiryFor(nowMs, lifetimeS);
    var header := WriteHeader(expiresS);
    nonce := WriteNonce(header, mac, scope, expiresS, random);
  }

  datatype Checked =
    | Accepted(id: string, expiresS: nat)
    | Malformed
    | Forged
    | Expired(expiresS: nat)

  function CheckNonce(mac: Mac, nonce: string, scope: string, nowMs: nat): Checked
  {
    var bytes := Decode(nonce, false);
    if bytes.None? || |bytes.value| != 37 || bytes.value[0] != VERSION then Malformed
    else
      var expiresS := ReadBigEndian(bytes.value[1..5]);
      var random := bytes.value[5..21];
      if bytes.value[21..37] != mac(MacInput(scope, expiresS, random)) then Forged
      else if expiresS <= nowMs / 1000 then Expired(expiresS)
      else Accepted(Encode(random), expiresS)
  }

  lemma ReadWritten(expiresS: nat, random: Tag, tag: Tag)
    requires expiresS < TWO_32
    ensures var bytes := Decode(Written(expiresS, random, tag), false);
            && bytes.Some?
            && |bytes.value| == 37
            && bytes.value[0] == VERSION
            && ReadBigEndian(bytes.value[1..5]) == expiresS
            && bytes.value[5..21] == random
            && bytes.value[21..37] == tag
  {
    var bytes := [VERSION] + BigEndian(expiresS, 4) + random + tag;
    EncodeShape(bytes);
    DecodeIffEncode(Encode(bytes), false, bytes);
    FourOctets();
    ReadOfWritten(expiresS, 4);
    assert bytes[1..5] == BigEndian(expiresS, 4);
    assert bytes[5..21] == random;
    assert bytes[21..37] == tag;
  }

  /** A nonce of these parts, with the tag the check will compute. */
  ghost predicate MadeOf(mac: Mac, nonce: string, scope: string, random: Tag, id: string, expiresS: nat)
  {
    && expiresS < TWO_32
    && id == Encode(random)
    && nonce == Written(expiresS, random, mac(MacInput(scope, expiresS, random)))
  }

  lemma Cut(bytes: seq<Byte>)
    requires |bytes| == 37
    ensures bytes == [bytes[0]] + bytes[1..5] + bytes[5..21] + bytes[21..37]
  {
  }

  lemma CutWritten(bytes: seq<Byte>)
    requires |bytes| == 37 && bytes[0] == VERSION
    ensures ReadBigEndian(bytes[1..5]) < TWO_32
    ensures Encode(bytes) == Written(ReadBigEndian(bytes[1..5]), bytes[5..21], bytes[21..37])
  {
    FourOctets();
    WrittenOfRead(bytes[1..5]);
    Cut(bytes);
  }

  lemma AcceptedIsMade(mac: Mac, nonce: string, scope: string, nowMs: nat, id: string, expiresS: nat)
    requires CheckNonce(mac, nonce, scope, nowMs) == Accepted(id, expiresS)
    ensures exists random: Tag :: MadeOf(mac, nonce, scope, random, id, expiresS)
  {
    var bytes := Decode(nonce, false).value;
    var random: Tag := bytes[5..21];
    CutWritten(bytes);
    assert MadeOf(mac, nonce, scope, random, id, expiresS);
  }

  /** What a nonce must be to be accepted, and with which identity. */
  lemma AcceptedIffMade(mac: Mac, nonce: string, scope: string, nowMs: nat, id: string, expiresS: nat)
    ensures CheckNonce(mac, nonce, scope, nowMs) == Accepted(id, expiresS) <==>
            nowMs / 1000 < expiresS && exists random: Tag :: MadeOf(mac, nonce, scope, random, id, expiresS)
  {
    if CheckNonce(mac, nonce, scope, nowMs) == Accepted(id, expiresS) {
      AcceptedIsMade(mac, nonce, scope, nowMs, id, expiresS);
    } else if random: Tag :| MadeOf(mac, nonce, scope, random, id, expiresS) {
      ReadWritten(expiresS, random, mac(MacInput(scope, expiresS, random)));
    }
  }

  /** And when it is refused: "expired" if it is one whose second has come, "malformed"
      if it is not the text of thirty-seven bytes of this version, otherwise "forged". */
  lemma ExpiredIffMade(mac: Mac, nonce: string, scope: string, nowMs: nat, expiresS: nat)
    ensures CheckNonce(mac, nonce, scope, nowMs) == Expired(expiresS) <==>
            && expiresS <= nowMs / 1000
            && exists random: Tag :: MadeOf(mac, nonce, scope, random, Encode(random), expiresS)
  {
    if CheckNonce(mac, nonce, scope, nowMs) == Expired(expiresS) {
      ExpiredIsMade(mac, nonce, scope, nowMs, expiresS);
    } else if random: Tag :| MadeOf(mac, nonce, scope, random, Encode(random), expiresS) {
      ReadWritten(expiresS, random, mac(MacInput(scope, expiresS, random)));
    }
  }

  lemma ExpiredIsMade(mac: Mac, nonce: string, scope: string, nowMs: nat, expiresS: nat)
    requires CheckNonce(mac, nonce, scope, nowMs) == Expired(expiresS)
    ensures exists random: Tag :: MadeOf(mac, nonce, scope, random, Encode(random), expiresS)
  {
    var bytes := Decode(nonce, false).value;
    var random: Tag := bytes[5..21];
    CutWritten(bytes);
    assert MadeOf(mac, nonce, scope, random, Encode(random), expiresS);
  }

  lemma MalformedIff(mac: Mac, nonce: string, scope: string, nowMs: nat)
    ensures CheckNonce(mac, nonce, scope, nowMs).Malformed? <==>
            !exists bytes: seq<Byte> :: |bytes| == 37 && bytes[0] == 1 && Encode(bytes) == nonce
  {
    if Decode(nonce, false).Some? {
      var bytes := Decode(nonce, false).value;
      DecodeIffEncode(nonce, false, bytes);
    }
    if bytes: seq<Byte> :| |bytes| == 37 && bytes[0] == 1 && Encode(bytes) == nonce {
      ReadBack(bytes);
    }
  }

  /** A minted nonce is accepted in its own scope until its expiry second and
      never from then on, when the expiry fits the header's four bytes. */
  lemma MintedIsAccepted(mac: Mac, scope: string, mintedMs: nat, lifetimeS: int, random: Tag, nowMs: nat)
    requires ExpiryFor(mintedMs, lifetimeS) < TWO_32
    ensures var expiresS := ExpiryFor(mintedMs, lifetimeS);
            var nonce := Minted(mac, scope, expiresS, random);
            CheckNonce(mac, nonce, scope, nowMs) ==
            if nowMs < expiresS * 1000 then Accepted(Encode(random), expiresS) else Expired(expiresS)
  {
    var expiresS := ExpiryFor(mintedMs, lifetimeS);
    assert expiresS % TWO_32 == expiresS;
    ReadWritten(expiresS, random, mac(MacInput(scope, expiresS, random)));
    SecondsAndMillis(nowMs, expiresS);
  }

  lemma SecondsAndMillis(nowMs: nat, expiresS: nat)
    ensures nowMs / 1000 < expiresS <==> nowMs < expiresS * 1000
  {
  }

  /** An expiry that does not fit is written truncated and MACed whole, so the
      nonce is refused from the moment it is minted. */
  lemma WrappedExpiryIsForged(mac: Mac, scope: string, expiresS: nat, random: Tag, nowMs: nat)
    requires expiresS >= TWO_32
    requires mac(MacInput(scope, expiresS, random)) != mac(MacInput(scope, expiresS % TWO_32, random))
    ensures CheckNonce(mac, Minted(mac, scope, expiresS, random), scope, nowMs) == Forged
  {
    ReadWritten(expiresS % TWO_32, random, mac(MacInput(scope, expiresS, random)));
  }

  lemma ScopeInjective(realmId: string, cell: Option<string>, realmId': string, cell': Option<string>)
    requires '\n' !in realmId && '\n' !in realmId'
    requires Scope(realmId, cell) == Scope(realmId', cell')
    ensures realmId == realmId' && cell == cell'
  {
    Text.SplitWhole(realmId, '\n');
    Text.SplitWhole(realmId', '\n');
    SplitScope(realmId, cell);
    SplitScope(realmId', cell');
    if cell.Some? && cell'.Some? {
      assert "cell:" + cell.value == Text.Join(Text.Split(Scope(realmId, cell), '\n')[1..], '\n');
      assert "cell:" + cell'.value == Text.Join(Text.Split(Scope(realmId', cell'), '\n')[1..], '\n');
      assert ("cell:" + cell.value)[5..] == cell.value;
      assert ("cell:" + cell'.value)[5..] == cell'.value;
    }
  }

  lemma SplitScope(realmId: string, cell: Option<string>)
    requires '\n' !in realmId
    ensures Text.Split(Scope(realmId, cell), '\n')[0] == realmId
    ensures cell.None? <==> |Text.Split(Scope(realmId, cell), '\n')| == 1
    ensures cell.Some? ==>
            Text.Join(Text.Split(Scope(realmId, cell), '\n')[1..], '\n') == "cell:" + cell.value
  {
    Text.SplitWhole(realmId, '\n');
    if cell.Some? {
      var rest := "cell:" + cell.value;
      assert Scope(realmId, cell) == realmId + ['\n'] + rest;
      Text.SplitConcat(realmId, '\n', rest);
      Text.JoinSplit(rest, '\n');
      assert Text.Split(Scope(realmId, cell), '\n')[1..] == Text.Split(rest, '\n');
    } else {
      assert Scope(realmId, cell) == realmId;
    }
  }

  /** What the MAC of a presented nonce is checked over. */
  function Presented(nonce: string, scope: string): MacInput
    requires Decode(nonce, false).Some? && |Decode(nonce, false).value| == 37
  {
    var bytes := Decode(nonce, false).value;
    MacInput(scope, ReadBigEndian(bytes[1..5]), bytes[5..21])
  }

  /** A nonce presented with a tag the service made is accepted only where and
      for what it was minted: that realm, that cell, that expiry and those
      random bytes. The MAC is asked only not to confuse these two inputs. */
  lemma AcceptedWasMinted(mac: Mac, nonce: string, realmId: string, cell: Option<string>, nowMs: nat,
                          mintRealm: string, mintCell: Option<string>, expiresS: nat, random: Tag)
    requires '\n' !in realmId && '\n' !in mintRealm
    requires CheckNonce(mac, nonce, Scope(realmId, cell), nowMs).Accepted?
    requires var minted := MacInput(Scope(mintRealm, mintCell), expiresS, random);
             var presented := Presented(nonce, Scope(realmId, cell));
             mac(presented) == mac(minted) ==> presented == minted
    requires Decode(nonce, false).value[21..37] == mac(MacInput(Scope(mintRealm, mintCell), expiresS, random))
    ensures realmId == mintRealm && cell == mintCell && expiresS < TWO_32
    ensures nonce == Written(expiresS, random, mac(MacInput(Scope(mintRealm, mintCell), expiresS, random)))
    ensures CheckNonce(mac, nonce, Scope(realmId, cell), nowMs) == Accepted(Encode(random), expiresS)
  {
    ScopeInjective(realmId, cell, mintRealm, mintCell);
    var bytes := Decode(nonce, false).value;
    CutWritten(bytes);
  }
}
