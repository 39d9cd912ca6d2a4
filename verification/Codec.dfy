/** Bytes, machine words and sectors.  The kernel stores int arrays, file headers and bitmap
    words on disk by casting them to char*: little-endian 32-bit words. */
module Codec {
  import opened BitWords

  type byte = b: int | 0 <= b < 256
  type int32 = i: int | -0x8000_0000 <= i < 0x8000_0000

  type Sector = s: seq<byte> | |s| == 128 witness seq(128, i => 0)

  function Unsigned(i: int32): uint32 { if i < 0 then i + 0x1_0000_0000 else i }

  function Signed(u: uint32): int32 { if u < 0x8000_0000 then u else u - 0x1_0000_0000 }

  function ByteOf(u: uint32, i: nat): byte
    requires i < 4
  {
    if i == 0 then u % 256
    else if i == 1 then u / 256 % 256
    else if i == 2 then u / 0x1_0000 % 256
    else u / 0x100_0000
  }

  function Combine(a: int, b: int, c: int, d: int): int {
    a + 256 * b + 0x1_0000 * c + 0x100_0000 * d
  }

  function WordBytes(u: uint32): (bs: seq<byte>)
    ensures |bs| == 4
  {
    [ByteOf(u, 0), ByteOf(u, 1), ByteOf(u, 2), ByteOf(u, 3)]
  }

  function ToBytes(ws: seq<uint32>): (bs: seq<byte>)
    ensures |bs| == 4 * |ws|
  {
    if ws == [] then [] else WordBytes(ws[0]) + ToBytes(ws[1..])
  }

  function ToWords(bs: seq<byte>): (ws: seq<uint32>)
    ensures |ws| == |bs| / 4
  {
    if |bs| < 4 then [] else [Combine(bs[0], bs[1], bs[2], bs[3])] + ToWords(bs[4..])
  }

  lemma WordRoundTrip(u: uint32)
    ensures Combine(ByteOf(u, 0), ByteOf(u, 1), ByteOf(u, 2), ByteOf(u, 3)) == u
  {
    assert u / 256 / 256 == u / 0x1_0000;
    assert u / 0x1_0000 / 256 == u / 0x100_0000;
  }

  lemma BytesRoundTrip(a: byte, b: byte, c: byte, d: byte)
    ensures WordBytes(Combine(a, b, c, d)) == [a, b, c, d]
  {
    var u := Combine(a, b, c, d);
    assert u / 256 == b + 256 * c + 0x1_0000 * d;
    assert u / 0x1_0000 == c + 256 * d;
    assert u / 0x100_0000 == d;
  }

  /** Storing words and loading them back gives the same words. */
  lemma {:induction false} StoreThenLoad(ws: seq<uint32>)
    ensures ToWords(ToBytes(ws)) == ws
  {
    if ws != [] {
      WordRoundTrip(ws[0]);
      StoreThenLoad(ws[1..]);
      assert ToBytes(ws)[4..] == ToBytes(ws[1..]);
    }
  }

  /** Loading the words of whole-word storage and storing them again changes no byte. */
  lemma {:induction false} LoadThenStore(bs: seq<byte>)
    requires |bs| % 4 == 0
    ensures ToBytes(ToWords(bs)) == bs
  {
    if bs != [] {
      LoadThenStore(bs[4..]);
      BytesRoundTrip(bs[0], bs[1], bs[2], bs[3]);
      assert ToWords(bs)[1..] == ToWords(bs[4..]);
      assert bs == bs[..4] + bs[4..];
    }
  }

  // ---- Sectors holding 32 signed ints ----

  function UnsignedAll(ints: seq<int32>): (ws: seq<uint32>)
    ensures |ws| == |ints|
  {
    seq(|ints|, i requires 0 <= i < |ints| => Unsigned(ints[i]))
  }

  function SignedAll(ws: seq<uint32>): (ints: seq<int32>)
    ensures |ints| == |ws|
  {
    seq(|ws|, i requires 0 <= i < |ws| => Signed(ws[i]))
  }

  function IntsToSector(ints: seq<int32>): Sector
    requires |ints| == 32
  {
    ToBytes(UnsignedAll(ints))
  }

  function SectorToInts(s: Sector): (ints: seq<int32>)
    ensures |ints| == 32
  {
    SignedAll(ToWords(s))
  }

  lemma IntsRoundTrip(ints: seq<int32>)
    requires |ints| == 32
    ensures SectorToInts(IntsToSector(ints)) == ints
  {
    var ws := UnsignedAll(ints);
    StoreThenLoad(ws);
    assert SignedAll(ws) == ints;
  }

  lemma SectorRoundTrip(s: Sector)
    ensures IntsToSector(SectorToInts(s)) == s
  {
    var ws := ToWords(s);
    assert UnsignedAll(SignedAll(ws)) == ws;
    LoadThenStore(s);
  }
}
