/**
 * Addressed-register access built on the I2C read and write primitives
 * (src/ft260-register.c): the payloads the helpers send and what each
 * helper does to the device.
 */
module Ft260Register {
  import opened Wrappers
  import opened Ft260Frames
  import opened Ft260Chip
  import opened Ft260Driver

  /** The payload of write_reg_n: the register number, then n bytes of the caller's buffer. */
  function RegisterPayload(reg: bv8, buf: Option<seq<bv8>>, n: nat): (p: seq<bv8>)
    requires buf.Some? ==> n <= |buf.value|
    requires buf.None? ==> n == 0
    ensures |p| == n + 1 && p[0] == reg && p[1..] == Payload(buf, n)
  {
    [reg] + Payload(buf, n)
  }

  /** The payload of write_reg_w: the register number, then the value big-endian. */
  function WordPayload(reg: bv8, value: bv16): (p: seq<bv8>)
    ensures |p| == 3 && p[0] == reg
  {
    [reg, (value >> 8) as bv8, (value & 0xFF) as bv8]
  }

  /** Decoding bytes 1 and 2 of a word payload gives the value back. */
  lemma WordRoundTrip(reg: bv8, value: bv16)
    ensures var p := WordPayload(reg, value); Join(p[1], p[2]) == value
  {
  }

  /** Every register number and pair of bytes is the word payload of the value they decode to. */
  lemma WordPayloadOfBytes(reg: bv8, hi: bv8, lo: bv8)
    ensures WordPayload(reg, Join(hi, lo)) == [reg, hi, lo]
  {
  }

  /**
   * read_reg_n: a 1-byte write of the register number without STOP, then a
   * read of n bytes with STOP; the read is not issued when the write fails.
   */
  function ReadRegN(d: Dev, addr: bv16, reg: bv8, n: nat, hasBuf: bool): (r: Outcome)
    ensures !r.ok
    ensures !I2cWrite(d, addr, Some([reg]), 1, false).ok ==> r == I2cWrite(d, addr, Some([reg]), 1, false)
  {
    var w := I2cWrite(d, addr, Some([reg]), 1, false);
    if !w.ok then w else I2cRead(w.dev, addr, hasBuf, n, true)
  }

  /**
   * write_reg_n: one write, with STOP, of the register number followed by n
   * bytes of the caller's buffer; false when the temporary buffer cannot be
   * allocated.
   */
  function WriteRegN(d: Dev, addr: bv16, reg: bv8, n: nat, buf: Option<seq<bv8>>, allocOk: bool): (r: Outcome)
    requires buf.Some? ==> n <= |buf.value|
    requires buf.None? ==> n == 0
    ensures !allocOk ==> r == Outcome(false, d)
  {
    if !allocOk then Outcome(false, d)
    else I2cWrite(d, addr, Some(RegisterPayload(reg, buf, n)), n + 1, true)
  }

  /** read_reg_b: false without bus traffic for a null value pointer, else a 1-byte register read. */
  function ReadRegB(d: Dev, addr: bv16, reg: bv8, hasValue: bool): (r: Outcome)
    ensures !r.ok
    ensures !hasValue ==> r == Outcome(false, d)
  {
    if !hasValue then Outcome(false, d) else ReadRegN(d, addr, reg, 1, true)
  }

  /** write_reg_b: a write, with STOP, of the register number and the value. */
  function WriteRegB(d: Dev, addr: bv16, reg: bv8, value: bv8): (r: Outcome)
    ensures d.fd < 0 ==> r == Outcome(false, d)
  {
    I2cWrite(d, addr, Some([reg, value]), 2, true)
  }

  /** read_reg_w: false without bus traffic for a null value pointer, else a 2-byte register read. */
  function ReadRegW(d: Dev, addr: bv16, reg: bv8, hasValue: bool): (r: Outcome)
    ensures !r.ok
    ensures !hasValue ==> r == Outcome(false, d)
  {
    if !hasValue then Outcome(false, d) else ReadRegN(d, addr, reg, 2, true)
  }

  /** write_reg_w: a write, with STOP, of the register number and the value big-endian. */
  function WriteRegW(d: Dev, addr: bv16, reg: bv8, value: bv16): (r: Outcome)
    ensures d.fd < 0 ==> r == Outcome(false, d)
  {
    I2cWrite(d, addr, Some(WordPayload(reg, value)), 3, true)
  }

  /**
   * A register write of more than 59 bytes fails before any wait, status
   * request or write: register number and data exceed one write report.
   */
  lemma WriteRegNTooLong(d: Dev, addr: bv16, reg: bv8, n: nat, buf: Option<seq<bv8>>, allocOk: bool)
    requires buf.Some? ==> n <= |buf.value|
    requires buf.None? ==> n == 0
    requires n > MaxWrite - 1
    ensures WriteRegN(d, addr, reg, n, buf, allocOk) == Outcome(false, d)
  {
  }

  /**
   * A successful register write sent exactly one write report, with STOP,
   * of the register number followed by the caller's n bytes.
   */
  lemma WriteRegNSends(d: Dev, addr: bv16, reg: bv8, n: nat, buf: Option<seq<bv8>>, allocOk: bool)
    requires buf.Some? ==> n <= |buf.value|
    requires buf.None? ==> n == 0
    requires WriteRegN(d, addr, reg, n, buf, allocOk).ok
    ensures allocOk && n + 1 <= MaxWrite
    ensures var p := RegisterPayload(reg, buf, n);
      var frame := WriteFrame(addr, p, true);
      && ParseWriteFrame(frame) == Some(WriteRequest(Target(addr), true, p))
      && WriteRegN(d, addr, reg, n, buf, allocOk).dev.chip.traffic
         == d.chip.traffic + Polls(Stop(d.chip.replies)) + [GetFeature(StatusRequest)] + [Written(frame)]
            + Polls(Stop(AfterFirstWait(d.chip.replies))) + [GetFeature(StatusRequest)] + [GetFeature(StatusRequest)]
  {
    var p := RegisterPayload(reg, buf, n);
    assert WriteRegN(d, addr, reg, n, buf, allocOk) == I2cWrite(d, addr, Some(p), |p|, true);
    WritePayloadTraffic(d, addr, p, true);
  }

  /** A successful byte write sent the register number and the value, with STOP. */
  lemma WriteRegBSends(d: Dev, addr: bv16, reg: bv8, value: bv8)
    requires WriteRegB(d, addr, reg, value).ok
    ensures var frame := WriteFrame(addr, [reg, value], true);
      && ParseWriteFrame(frame) == Some(WriteRequest(Target(addr), true, [reg, value]))
      && WriteRegB(d, addr, reg, value).dev.chip.traffic
         == d.chip.traffic + Polls(Stop(d.chip.replies)) + [GetFeature(StatusRequest)] + [Written(frame)]
            + Polls(Stop(AfterFirstWait(d.chip.replies))) + [GetFeature(StatusRequest)] + [GetFeature(StatusRequest)]
  {
    WritePayloadTraffic(d, addr, [reg, value], true);
  }

  /**
   * A successful word write sent one write report, with STOP, of the word
   * payload; by WordRoundTrip its bytes 1 and 2 decode to the value.
   */
  lemma WriteRegWSends(d: Dev, addr: bv16, reg: bv8, value: bv16)
    requires WriteRegW(d, addr, reg, value).ok
    ensures var frame := WriteFrame(addr, WordPayload(reg, value), true);
      && ParseWriteFrame(frame) == Some(WriteRequest(Target(addr), true, WordPayload(reg, value)))
      && WriteRegW(d, addr, reg, value).dev.chip.traffic
         == d.chip.traffic + Polls(Stop(d.chip.replies)) + [GetFeature(StatusRequest)] + [Written(frame)]
            + Polls(Stop(AfterFirstWait(d.chip.replies))) + [GetFeature(StatusRequest)] + [GetFeature(StatusRequest)]
  {
    WritePayloadTraffic(d, addr, WordPayload(reg, value), true);
  }

  /**
   * read_reg_n through an open handle: when its register write succeeds, the
   * read request that follows asks for n bytes (cut to 16 bits) from the same
   * target with STOP.
   */
  lemma ReadRegNAfterWrite(d: Dev, addr: bv16, reg: bv8, n: nat, hasBuf: bool)
    requires d.fd >= 0 && (hasBuf || n == 0)
    requires I2cWrite(d, addr, Some([reg]), 1, false).ok
    ensures var w := I2cWrite(d, addr, Some([reg]), 1, false).dev;
      var frame := ReadFrame(addr, Low16(n), true);
      && ReadRegN(d, addr, reg, n, hasBuf).dev.chip.traffic
         == w.chip.traffic + [Written(frame), ReadUpTo(64), GetFeature(StatusRequest)]
      && ParseReadFrame(frame) == Some(ReadRequest(Target(addr), true, Low16(n)))
  {
    var w := I2cWrite(d, addr, Some([reg]), 1, false).dev;
    ReadTraffic(w, addr, hasBuf, n, true);
  }
}
