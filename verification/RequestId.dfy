/** The fallback request id: sixteen random bytes stamped and printed as a version 4
    UUID (RFC 9562, sections 4 and 5.4). */
module RequestId {
  import opened Digits

  type Byte = bv8

  // toString(16).padStart(2, '0').
  function HexByte(b: Byte): string {
    PadStart(Print(b as nat, 16), 2)
  }

  // The two halves of the byte, one digit each.
  lemma HexByteIsNibbles(b: Byte)
    ensures HexByte(b) == [Digit((b >> 4) as nat), Digit((b & 0x0F) as nat)]
  {
    var n := b as nat;
    Halves(b);
    if n < 16 {
      assert Print(n, 16) == [Digit(n)] && HEX[0] == '0';
      assert "0" + [Digit(n)] == [Digit(0), Digit(n)];
      assert PadStart([Digit(n)], 2) == PadStart("0" + [Digit(n)], 2) == "0" + [Digit(n)];
    } else {
      assert Print(n, 16) == [Digit(n / 16)] + [Digit(n % 16)];
    }
  }

  lemma Halves(b: Byte)
    ensures (b >> 4) as nat == b as nat / 16 && (b & 0x0F) as nat == b as nat % 16
  {}

  // bytes.map(toString(16).padStart(2, '0')).join('').
  function Hex(bytes: seq<Byte>): string {
    if bytes == [] then [] else Hex(bytes[..|bytes| - 1]) + HexByte(bytes[|bytes| - 1])
  }

  // The version in the high half of byte 6, the variant in the two top bits of byte 8.
  function Stamped(bytes: seq<Byte>): seq<Byte>
    requires |bytes| == 16
  {
    bytes[6 := (bytes[6] & 0x0F) | 0x40][8 := (bytes[8] & 0x3F) | 0x80]
  }

  function Dashed(hex: string): string
    requires |hex| == 32
  {
    hex[..8] + "-" + hex[8..12] + "-" + hex[12..16] + "-" + hex[16..20] + "-" + hex[20..]
  }

  lemma {:induction false} HexLength(bytes: seq<Byte>)
    ensures |Hex(bytes)| == 2 * |bytes|
  {
    if bytes != [] {
      HexLength(bytes[..|bytes| - 1]);
      HexByteIsNibbles(bytes[|bytes| - 1]);
    }
  }

  function IdOf(bytes: seq<Byte>): string
    requires |bytes| == 16
  {
    HexLength(Stamped(bytes));
    Dashed(Hex(Stamped(bytes)))
  }

  method CreateRequestId(random: seq<Byte>) returns (id: string)
    requires |random| == 16
    ensures id == IdOf(random)
  {
    var bytes := new Byte[16](i requires 0 <= i < 16 => random[i]);
    bytes[6] := (bytes[6] & 0x0F) | 0x40;
    bytes[8] := (bytes[8] & 0x3F) | 0x80;
    ghost var stamped := Stamped(random);
    assert bytes[..] == stamped;
    var hex := "";
    for k := 0 to 16
      invariant bytes[..] == stamped && hex == Hex(stamped[..k])
    {
      assert stamped[..k + 1][..k] == stamped[..k] && stamped[..k + 1][k] == bytes[k];
      hex := hex + HexByte(bytes[k]);
    }
    assert stamped[..16] == stamped;
    HexLength(stamped);
    id := hex[..8] + "-" + hex[8..12] + "-" + hex[12..16] + "-" + hex[16..20] + "-" + hex[20..];
  }

  // ---------------------------------------------------------------- well formed

  predicate IsDash(k: nat) {
    k == 8 || k == 13 || k == 18 || k == 23
  }

  // Eight, four, four, four and twelve hexadecimal digits, the version digit 4 and the
  // variant digit one of 8, 9, a and b.
  predicate IsVersion4(id: string) {
    && |id| == 36
    && (forall k :: 0 <= k < 36 ==> if IsDash(k) then id[k] == '-' else id[k] in HEX)
    && id[14] == '4' && id[19] in "89ab"
  }

  lemma {:induction false} HexAt(bytes: seq<Byte>, k: nat)
    requires k < |bytes|
    ensures |Hex(bytes)| == 2 * |bytes|
    ensures Hex(bytes)[2 * k] == Digit((bytes[k] >> 4) as nat)
            && Hex(bytes)[2 * k + 1] == Digit((bytes[k] & 0x0F) as nat)
  {
    HexLength(bytes);
    HexLength(bytes[..|bytes| - 1]);
    HexByteIsNibbles(bytes[|bytes| - 1]);
    if k < |bytes| - 1 { HexAt(bytes[..|bytes| - 1], k); }
  }

  lemma HexIsDigits(bytes: seq<Byte>, n: nat)
    requires n < 2 * |bytes|
    ensures |Hex(bytes)| == 2 * |bytes| && Hex(bytes)[n] in HEX
  {
    HexAt(bytes, n / 2);
    assert n == 2 * (n / 2) || n == 2 * (n / 2) + 1;
  }

  // Where digit n of the hex text stands in the dashed id.
  function Position(n: nat): nat {
    n + (if n < 8 then 0 else if n < 12 then 1 else if n < 16 then 2 else if n < 20 then 3 else 4)
  }

  lemma DashedAt(hex: string)
    requires |hex| == 32
    ensures |Dashed(hex)| == 36
    ensures forall k :: 0 <= k < 36 && IsDash(k) ==> Dashed(hex)[k] == '-'
    ensures forall n :: 0 <= n < 32 ==> Dashed(hex)[Position(n)] == hex[n]
  {}

  lemma StampedNibbles(b: Byte)
    ensures ((b & 0x0F) | 0x40) >> 4 == 4
    ensures 8 <= ((b & 0x3F) | 0x80) >> 4 <= 11
  {}

  lemma IdIsVersion4(bytes: seq<Byte>)
    requires |bytes| == 16
    ensures IsVersion4(IdOf(bytes))
  {
    var stamped := Stamped(bytes);
    var hex := Hex(stamped);
    HexLength(stamped);
    DashedAt(hex);
    forall k | 0 <= k < 36 && !IsDash(k) ensures Dashed(hex)[k] in HEX {
      var n := if k < 8 then k else if k < 13 then k - 1 else if k < 18 then k - 2 else if k < 23 then k - 3 else k - 4;
      assert Position(n) == k;
      HexIsDigits(stamped, n);
    }
    StampedNibbles(bytes[6]);
    StampedNibbles(bytes[8]);
    HexAt(stamped, 6);
    HexAt(stamped, 8);
    assert Position(12) == 14 && Position(16) == 19;
  }

  // Without the dashes the id reads back as the bytes, high digit first, but for the
  // version in the high half of byte 6 and the variant in the two top bits of byte 8.
  lemma IdTellsBytes(bytes: seq<Byte>, k: nat)
    requires |bytes| == 16 && k < 16
    ensures |IdOf(bytes)| == 36
    ensures var high, low := DigitValue(IdOf(bytes)[Position(2 * k)]), DigitValue(IdOf(bytes)[Position(2 * k + 1)]);
            && low == bytes[k] as nat % 16
            && (k != 6 && k != 8 ==> high == bytes[k] as nat / 16)
            && (k == 6 ==> high == 4)
            && (k == 8 ==> high == 8 + bytes[k] as nat / 16 % 4)
  {
    var stamped := Stamped(bytes);
    HexLength(stamped);
    DashedAt(Hex(stamped));
    HexAt(stamped, k);
    Halves(stamped[k]);
    Halves(bytes[k]);
    StampedHalves(bytes[k]);
    DigitRoundTrip((stamped[k] >> 4) as nat);
    DigitRoundTrip((stamped[k] & 0x0F) as nat);
  }

  lemma StampedHalves(b: Byte)
    ensures ((b & 0x0F) | 0x40) >> 4 == 4 && ((b & 0x0F) | 0x40) & 0x0F == b & 0x0F
    ensures ((b & 0x3F) | 0x80) >> 4 == 8 + ((b >> 4) & 3) && ((b & 0x3F) | 0x80) & 0x0F == b & 0x0F
    ensures ((b >> 4) & 3) as nat == (b >> 4) as nat % 4 && (8 + ((b >> 4) & 3)) as nat == 8 + ((b >> 4) & 3) as nat
  {}

  // ---------------------------------------------------------------- how much randomness

  // The two agree on every bit that stamping leaves alone: 4 of byte 6, 6 of byte 8,
  // and all of the others, 122 in all.
  predicate AgreeOnFreeBits(a: seq<Byte>, b: seq<Byte>)
    requires |a| == 16 && |b| == 16
  {
    && (forall k :: 0 <= k < 16 && k != 6 && k != 8 ==> a[k] == b[k])
    && a[6] & 0x0F == b[6] & 0x0F
    && a[8] & 0x3F == b[8] & 0x3F
  }

  lemma StampKeepsBits(x: Byte, y: Byte)
    ensures (x & 0x0F) | 0x40 == (y & 0x0F) | 0x40 <==> x & 0x0F == y & 0x0F
    ensures (x & 0x3F) | 0x80 == (y & 0x3F) | 0x80 <==> x & 0x3F == y & 0x3F
  {}

  lemma DigitsTellBytes(x: Byte, y: Byte)
    requires Digit((x >> 4) as nat) == Digit((y >> 4) as nat) && Digit((x & 0x0F) as nat) == Digit((y & 0x0F) as nat)
    ensures x == y
  {}

  lemma {:induction false} HexTellsBytes(a: seq<Byte>, b: seq<Byte>)
    requires |a| == |b| && Hex(a) == Hex(b)
    ensures a == b
  {
    forall k | 0 <= k < |a| ensures a[k] == b[k] {
      HexAt(a, k);
      HexAt(b, k);
      DigitsTellBytes(a[k], b[k]);
    }
  }

  lemma DashedTellsHex(g: string, h: string)
    requires |g| == 32 && |h| == 32 && Dashed(g) == Dashed(h)
    ensures g == h
  {
    DashedAt(g);
    DashedAt(h);
    forall n | 0 <= n < 32 ensures g[n] == h[n] { assert Dashed(g)[Position(n)] == Dashed(h)[Position(n)]; }
  }

  lemma StampsAgreeExactly(a: seq<Byte>, b: seq<Byte>)
    requires |a| == 16 && |b| == 16
    ensures Stamped(a) == Stamped(b) <==> AgreeOnFreeBits(a, b)
  {
    StampKeepsBits(a[6], b[6]);
    StampKeepsBits(a[8], b[8]);
    var s, t := Stamped(a), Stamped(b);
    SameElsewhere(a, b, s[6], t[6], s[8], t[8]);
  }

  lemma SameElsewhere(a: seq<Byte>, b: seq<Byte>, w: Byte, x: Byte, y: Byte, z: Byte)
    requires |a| == 16 && |b| == 16
    ensures a[6 := w][8 := y] == b[6 := x][8 := z] <==>
            w == x && y == z && forall k :: 0 <= k < 16 && k != 6 && k != 8 ==> a[k] == b[k]
  {
    var s, t := a[6 := w][8 := y], b[6 := x][8 := z];
    if s == t {
      forall k | 0 <= k < 16 && k != 6 && k != 8 ensures a[k] == b[k] { assert s[k] == t[k]; }
      assert s[6] == w && t[6] == x && s[8] == y && t[8] == z;
    }
  }

  // Two ids are equal exactly when the bytes agree on the 122 free bits.
  lemma IdsAgreeExactly(a: seq<Byte>, b: seq<Byte>)
    requires |a| == 16 && |b| == 16
    ensures IdOf(a) == IdOf(b) <==> AgreeOnFreeBits(a, b)
  {
    StampsAgreeExactly(a, b);
    HexLength(Stamped(a));
    HexLength(Stamped(b));
    if IdOf(a) == IdOf(b) {
      DashedTellsHex(Hex(Stamped(a)), Hex(Stamped(b)));
      HexTellsBytes(Stamped(a), Stamped(b));
    }
  }
}
