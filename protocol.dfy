/**
 * The light's wire format: every command is one fixed 5-byte frame
 * [0x78, prefix, 0x01, value, checksum], written without response.
 */
module Protocol {
  import opened Wrappers

  /** An unsigned 8-bit value (uint8_t). */
  type byte = x: int | 0 <= x < 256

  const HEADER: byte := 0x78
  /** The constant third byte of every frame. */
  const MARKER: byte := 0x01
  const PACKET_LENGTH: nat := 5

  const POWER_PREFIX: byte := 0x81
  const BRIGHTNESS_PREFIX: byte := 0x82
  const TEMPERATURE_PREFIX: byte := 0x83

  const POWER_ON: byte := 0x01
  const POWER_OFF: byte := 0x02

  /** One frame's payload: which dimension it sets, and to what. */
  datatype Command = Command(prefix: byte, value: byte)

  /**
   * Low byte of the sum of the four leading bytes. In the C expression the
   * operands are promoted to int before the addition, so the sum (at most 1020)
   * never wraps and the mask `& 0xFF` is the remainder modulo 256.
   */
  function Checksum(b0: byte, b1: byte, b2: byte, b3: byte): byte {
    (b0 as int + b1 as int + b2 as int + b3 as int) % 256
  }

  /** The checksum law every frame obeys. */
  predicate ChecksumValid(p: seq<byte>) {
    |p| == PACKET_LENGTH && p[4] == Checksum(p[0], p[1], p[2], p[3])
  }

  /** Reference decoder: the frame a command must have come from, if any. */
  function Decode(p: seq<byte>): Option<Command> {
    if |p| == PACKET_LENGTH && p[0] == HEADER && p[2] == MARKER && ChecksumValid(p)
    then Some(Command(p[1], p[3]))
    else None
  }

  /** The frame the driver builds for a command. */
  function Encode(c: Command): (p: seq<byte>)
    ensures |p| == PACKET_LENGTH
    ensures p[0] == HEADER && p[1] == c.prefix && p[2] == MARKER && p[3] == c.value
    ensures p[4] == (p[0] as int + p[1] as int + p[2] as int + p[3] as int) % 256
  {
    [HEADER, c.prefix, MARKER, c.value, Checksum(HEADER, c.prefix, MARKER, c.value)]
  }

  /** Decoding an encoded frame gives back the command. */
  lemma DecodeEncode(c: Command)
    ensures Decode(Encode(c)) == Some(c)
  {
  }

  /** Every frame the decoder accepts is the encoding of what it returns. */
  lemma EncodeDecode(p: seq<byte>, c: Command)
    requires Decode(p) == Some(c)
    ensures Encode(c) == p
  {
  }

  /** Distinct commands give distinct frames. */
  lemma EncodeInjective(c1: Command, c2: Command)
    requires Encode(c1) == Encode(c2)
    ensures c1 == c2
  {
  }

  /** The frames for power on/off, brightness 73 and colour-temperature code 40. */
  lemma KnownFrames()
    ensures Encode(Command(POWER_PREFIX, POWER_ON)) == [0x78, 0x81, 0x01, 0x01, 0xFB]
    ensures Encode(Command(POWER_PREFIX, POWER_OFF)) == [0x78, 0x81, 0x01, 0x02, 0xFC]
    ensures Encode(Command(BRIGHTNESS_PREFIX, 73)) == [0x78, 0x82, 0x01, 0x49, 0x44]
    ensures Encode(Command(TEMPERATURE_PREFIX, 40)) == [0x78, 0x83, 0x01, 0x28, 0x24]
  {
  }
}
