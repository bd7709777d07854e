/**
 * The 6-byte accelerometer record that the firmware pushes to a connected peer
 * (src/main.c, send_accel_notification).  Each axis is a C `int16_t`; the firmware
 * stores `v & 0xFF` and `(v >> 8) & 0xFF` for every axis, x first.
 *
 * C semantics made explicit: the `int16_t` is promoted to `int`, `>> 8` on a
 * negative value is an arithmetic shift (floor division by 256, as the ARM
 * compilers do), and `& 0xFF` keeps the low eight bits of the two's-complement
 * representation, which is the non-negative remainder modulo 256.  Dafny's `/`
 * and `%` by a positive divisor are exactly floor division and that remainder.
 */
module Payload {

  type Byte = b: int | 0 <= b < 256

  /** The range of a C `int16_t`. */
  type Int16 = v: int | -0x8000 <= v < 0x8000

  /** One accelerometer sample: the x, y and z fields of `struct bma400_sensor_data`. */
  datatype Sample = Sample(x: Int16, y: Int16, z: Int16)

  /** `v & 0xFF`: the byte that agrees with `v` modulo 256. */
  function LowByte(v: Int16): (b: Byte)
    ensures (v - b) % 256 == 0
  {
    v % 256
  }

  /**
   * `(v >> 8) & 0xFF`: together with the low byte it spells the 16-bit two's-complement
   * representation of `v`, which is `v + 0x10000` for a negative `v`.
   */
  function HighByte(v: Int16): (b: Byte)
    ensures LowByte(v) + 256 * b == if v < 0 then v + 0x1_0000 else v
  {
    (v / 256) % 256
  }

  /** How a peer reads one axis back: `lo + 256 * hi` taken as a signed 16-bit value. */
  function DecodeInt16(lo: Byte, hi: Byte): Int16
  {
    var u := lo + 256 * hi;
    if u >= 0x8000 then u - 0x1_0000 else u
  }

  /** The contents of `accel_value` after one notification: bytes 0-1 x, 2-3 y, 4-5 z, low byte first. */
  function EncodeSample(s: Sample): (p: seq<Byte>)
    ensures |p| == 6
  {
    [LowByte(s.x), HighByte(s.x), LowByte(s.y), HighByte(s.y), LowByte(s.z), HighByte(s.z)]
  }

  /** The peer's reading of a 6-byte record. */
  function DecodeSample(p: seq<Byte>): Sample
    requires |p| == 6
  {
    Sample(DecodeInt16(p[0], p[1]), DecodeInt16(p[2], p[3]), DecodeInt16(p[4], p[5]))
  }

  /** Decoding the two bytes the firmware emits for `v` gives back `v`, for every `int16_t`. */
  lemma Int16RoundTrip(v: Int16)
    ensures DecodeInt16(LowByte(v), HighByte(v)) == v
  {
  }

  /** Every pair of bytes is what the firmware emits for exactly one `int16_t`: the encoding is onto. */
  lemma Int16BytesRoundTrip(lo: Byte, hi: Byte)
    ensures LowByte(DecodeInt16(lo, hi)) == lo && HighByte(DecodeInt16(lo, hi)) == hi
  {
  }

  /** The peer reconstructs exactly the sample the firmware encoded. */
  lemma SampleRoundTrip(s: Sample)
    ensures DecodeSample(EncodeSample(s)) == s
  {
    Int16RoundTrip(s.x);
    Int16RoundTrip(s.y);
    Int16RoundTrip(s.z);
  }

  /** Every 6-byte record is the encoding of the sample the peer decodes from it. */
  lemma PayloadRoundTrip(p: seq<Byte>)
    requires |p| == 6
    ensures EncodeSample(DecodeSample(p)) == p
  {
    Int16BytesRoundTrip(p[0], p[1]);
    Int16BytesRoundTrip(p[2], p[3]);
    Int16BytesRoundTrip(p[4], p[5]);
  }

  /** Worked values: 100 is `64 00`, -50 is `CE FF`, 32760 is `F8 7F`. */
  lemma EncodeExample()
    ensures EncodeSample(Sample(100, -50, 32760)) == [0x64, 0x00, 0xCE, 0xFF, 0xF8, 0x7F]
  {
  }
}
