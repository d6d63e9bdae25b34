/** Unsigned integers in network byte order. */
module BigEndian {
  import opened Widths

  ghost function Pow256(n: nat): nat {
    if n == 0 then 1 else 256 * Pow256(n - 1)
  }

  /** The low `width` bytes of `x`, most significant first. */
  function Encode(x: nat, width: nat): (b: Bytes)
    ensures |b| == width
  {
    if width == 0 then [] else Encode(x / 256, width - 1) + [x % 256]
  }

  function Decode(b: Bytes): nat {
    if b == [] then 0 else 256 * Decode(b[..|b| - 1]) + b[|b| - 1]
  }

  lemma {:induction false} DecodeEncode(x: nat, width: nat)
    requires x < Pow256(width)
    ensures Decode(Encode(x, width)) == x
  {
    if width > 0 {
      DecodeEncode(x / 256, width - 1);
      var b := Encode(x / 256, width - 1);
      assert (b + [x % 256])[..|b|] == b;
    }
  }

  lemma {:induction false} EncodeDecode(b: Bytes)
    ensures Decode(b) < Pow256(|b|)
    ensures Encode(Decode(b), |b|) == b
  {
    if b != [] {
      EncodeDecode(b[..|b| - 1]);
      assert b == b[..|b| - 1] + [b[|b| - 1]];
    }
  }

  function U16(x: u16): (b: Bytes)
    ensures |b| == 2
  {
    Encode(x, 2)
  }

  function U64(x: u64): (b: Bytes)
    ensures |b| == 8
  {
    Encode(x, 8)
  }

  lemma WidthOf16()
    ensures Pow256(2) == 0x1_0000
  {
    assert Pow256(1) == 256;
  }

  lemma WidthOf64()
    ensures Pow256(8) == 0x1_0000_0000_0000_0000
  {
    assert Pow256(2) == 0x1_0000;
    assert Pow256(4) == 0x1_0000_0000;
    assert Pow256(6) == 0x1_0000_0000_0000;
  }

  /** A two-byte field read from a buffer. */
  function ToU16(b: Bytes): u16
    requires |b| == 2
  {
    WidthOf16();
    EncodeDecode(b);
    Decode(b)
  }

  function ToU64(b: Bytes): u64
    requires |b| == 8
  {
    WidthOf64();
    EncodeDecode(b);
    Decode(b)
  }

  /** The most significant byte comes first. */
  lemma U16Bytes(b: Bytes)
    requires |b| == 2
    ensures ToU16(b) == 0x100 * (b[0] as int) + b[1] as int
  {
    DecodeNext(b, 1);
    DecodeNext(b, 0);
  }

  lemma U64Bytes(b: Bytes)
    requires |b| == 8
    ensures ToU64(b) ==
            0x100_0000_0000_0000 * (b[0] as int) + 0x1_0000_0000_0000 * (b[1] as int)
            + 0x100_0000_0000 * (b[2] as int) + 0x1_0000_0000 * (b[3] as int) + 0x100_0000 * (b[4] as int)
            + 0x1_0000 * (b[5] as int) + 0x100 * (b[6] as int) + b[7] as int
  {
    DecodeNext(b, 7);
    DecodeNext(b, 6);
    DecodeNext(b, 5);
    DecodeNext(b, 4);
    DecodeNext(b, 3);
    DecodeNext(b, 2);
    DecodeNext(b, 1);
    DecodeNext(b, 0);
  }

  lemma DecodeNext(b: Bytes, n: nat)
    requires n < |b|
    ensures Decode(b[..n + 1]) == 256 * Decode(b[..n]) + b[n]
    ensures n == 0 ==> Decode(b[..n]) == 0
    ensures n + 1 == |b| ==> b[..n + 1] == b
  {
    assert b[..n + 1][..n] == b[..n];
  }

  /** Writing a field and reading it back, and reading one and writing it back, change nothing. */
  lemma FieldRoundTrips(x: u16, b: Bytes, x': u64, b': Bytes)
    requires |b| == 2 && |b'| == 8
    ensures ToU16(U16(x)) == x && U16(ToU16(b)) == b
    ensures ToU64(U64(x')) == x' && U64(ToU64(b')) == b'
  {
    WidthOf16();
    WidthOf64();
    DecodeEncode(x, 2);
    DecodeEncode(x', 8);
    EncodeDecode(b);
    EncodeDecode(b');
  }

  lemma U16RoundTrip(x: u16)
    ensures ToU16(U16(x)) == x
  {
    FieldRoundTrips(x, [0, 0], 0, [0, 0, 0, 0, 0, 0, 0, 0]);
  }

  lemma ToU16RoundTrip(b: Bytes)
    requires |b| == 2
    ensures U16(ToU16(b)) == b
  {
    FieldRoundTrips(0, b, 0, [0, 0, 0, 0, 0, 0, 0, 0]);
  }
}
