/**
 Bytes of the attribute file and the little-endian integers stored in its
 header. The reader copies the header bytes straight into `unsigned int` and
 `unsigned short` variables, which on the little-endian hosts the program
 targets is the dBase III byte order.
 */
module Bytes {

  type Byte = b: int | 0 <= b < 256

  const U16Limit: nat := 0x1_0000
  const U32Limit: nat := 0x1_0000_0000

  /** The unsigned 16-bit value stored little-endian at `bs[at..at+2]`. */
  function U16At(bs: seq<Byte>, at: nat): (v: nat)
    requires at + 2 <= |bs|
    ensures v < U16Limit
  {
    bs[at] as int + 256 * (bs[at + 1] as int)
  }

  /** The low byte of a 16-bit reading is the first byte, the high byte the second. */
  lemma U16AtDigits(bs: seq<Byte>, at: nat)
    requires at + 2 <= |bs|
    ensures U16At(bs, at) % 256 == bs[at] && U16At(bs, at) / 256 == bs[at + 1]
  {
  }

  /** The unsigned 32-bit value stored little-endian at `bs[at..at+4]`. */
  function U32At(bs: seq<Byte>, at: nat): (v: nat)
    requires at + 4 <= |bs|
    ensures v < U32Limit
  {
    U16At(bs, at) + U16Limit * U16At(bs, at + 2)
  }

  /** The low half of a 32-bit reading is the first byte pair, the high half the second. */
  lemma U32AtHalves(bs: seq<Byte>, at: nat)
    requires at + 4 <= |bs|
    ensures U32At(bs, at) % U16Limit == U16At(bs, at) && U32At(bs, at) / U16Limit == U16At(bs, at + 2)
  {
  }

  /** The two little-endian bytes of a 16-bit value (the writer's side of `U16At`). */
  function EncodeU16(v: nat): (bs: seq<Byte>)
    requires v < U16Limit
    ensures |bs| == 2
  {
    [v % 256, v / 256]
  }

  /** The four little-endian bytes of a 32-bit value (the writer's side of `U32At`). */
  function EncodeU32(v: nat): (bs: seq<Byte>)
    requires v < U32Limit
    ensures |bs| == 4
  {
    EncodeU16(v % U16Limit) + EncodeU16(v / U16Limit)
  }

  /** Decoding what was encoded gives the value back. */
  lemma DecodeEncodeU16(v: nat)
    requires v < U16Limit
    ensures U16At(EncodeU16(v), 0) == v
  {
  }

  /** Encoding what was decoded gives the bytes back: no two byte pairs share a value. */
  lemma EncodeDecodeU16(bs: seq<Byte>, at: nat)
    requires at + 2 <= |bs|
    ensures EncodeU16(U16At(bs, at)) == bs[at..at + 2]
  {
    U16AtDigits(bs, at);
  }

  lemma DecodeEncodeU32(v: nat)
    requires v < U32Limit
    ensures U32At(EncodeU32(v), 0) == v
  {
    var bs := EncodeU32(v);
    DecodeEncodeU16(v % U16Limit);
    DecodeEncodeU16(v / U16Limit);
    assert bs[2..4] == EncodeU16(v / U16Limit);
    assert U16At(bs, 2) == U16At(bs[2..4], 0);
  }

  lemma EncodeDecodeU32(bs: seq<Byte>, at: nat)
    requires at + 4 <= |bs|
    ensures EncodeU32(U32At(bs, at)) == bs[at..at + 4]
  {
    U32AtHalves(bs, at);
    EncodeDecodeU16(bs, at);
    EncodeDecodeU16(bs, at + 2);
    assert bs[at..at + 4] == bs[at..at + 2] + bs[at + 2..at + 4];
  }
}
