/**
 * Little- and big-endian packing of 16- and 32-bit values into byte
 * buffers.  The setters write into the caller's buffer in place and touch
 * only the bytes of the value; the getters are pure.  Bodies use the shifts
 * and masks of the C code; contracts state the arithmetic they amount to.
 */
module EndianUtils {
  /** The two bytes of `val`, least significant first. */
  function Le16(val: bv16): seq<bv8>
  {
    [(val % 0x100) as bv8, (val / 0x100) as bv8]
  }

  /** The four bytes of `val`, least significant first. */
  function Le32(val: bv32): seq<bv8>
  {
    [(val % 0x100) as bv8, ((val / 0x100) % 0x100) as bv8,
     ((val / 0x1_0000) % 0x100) as bv8, (val / 0x100_0000) as bv8]
  }

  /** `set_u16_to_le`: low byte at `buf[0]`, high byte at `buf[1]`. */
  method SetU16ToLe(buf: array<bv8>, val: bv16)
    requires buf.Length >= 2
    modifies buf
    ensures buf[..2] == Le16(val)
    ensures buf[2..] == old(buf[2..])
  {
    buf[1] := ((val >> 8) & 0xff) as bv8;
    buf[0] := ((val >> 0) & 0xff) as bv8;
  }

  /** `set_u16_to_be`: high byte at `buf[0]`, low byte at `buf[1]`. */
  method SetU16ToBe(buf: array<bv8>, val: bv16)
    requires buf.Length >= 2
    modifies buf
    ensures buf[..2] == [Le16(val)[1], Le16(val)[0]]
    ensures buf[2..] == old(buf[2..])
  {
    buf[0] := ((val >> 8) & 0xff) as bv8;
    buf[1] := ((val >> 0) & 0xff) as bv8;
  }

  /** `set_u32_to_le`: bytes 0..3 of the buffer, least significant first. */
  method SetU32ToLe(buf: array<bv8>, val: bv32)
    requires buf.Length >= 4
    modifies buf
    ensures buf[..4] == Le32(val)
    ensures buf[4..] == old(buf[4..])
  {
    buf[3] := ((val >> 24) & 0xff) as bv8;
    buf[2] := ((val >> 16) & 0xff) as bv8;
    buf[1] := ((val >> 8) & 0xff) as bv8;
    buf[0] := ((val >> 0) & 0xff) as bv8;
  }

  /** `get_le_to_u16`: the first two bytes, least significant first. */
  function GetLeToU16(buf: seq<bv8>): (v: bv16)
    requires |buf| >= 2
    ensures v == buf[0] as bv16 + 0x100 * buf[1] as bv16
  {
    (buf[0] as bv16) | ((buf[1] as bv16) << 8)
  }

  /** `get_le_to_u32`: the first four bytes, least significant first. */
  function GetLeToU32(buf: seq<bv8>): (v: bv32)
    requires |buf| >= 4
    ensures v == buf[0] as bv32 + 0x100 * buf[1] as bv32 + 0x1_0000 * buf[2] as bv32 + 0x100_0000 * buf[3] as bv32
  {
    (buf[0] as bv32) | ((buf[1] as bv32) << 8) | ((buf[2] as bv32) << 16) | ((buf[3] as bv32) << 24)
  }

  /** Reading back what `set_u16_to_le` wrote gives the value. */
  lemma U16RoundTrip(val: bv16)
    ensures GetLeToU16(Le16(val)) == val
  {
  }

  /** Writing back what `get_le_to_u16` read gives the bytes. */
  lemma U16BytesRoundTrip(buf: seq<bv8>)
    requires |buf| >= 2
    ensures Le16(GetLeToU16(buf)) == buf[..2]
  {
  }

  /** Reading back what `set_u32_to_le` wrote gives the value. */
  lemma U32RoundTrip(val: bv32)
    ensures GetLeToU32(Le32(val)) == val
  {
  }

  /** Writing back what `get_le_to_u32` read gives the bytes. */
  lemma U32BytesRoundTrip(buf: seq<bv8>)
    requires |buf| >= 4
    ensures Le32(GetLeToU32(buf)) == buf[..4]
  {
  }
}
