/**
 * The byte layouts of the HID reports the driver exchanges with the FT260
 * (src/ft260.c): feature requests, the I2C read request and the I2C write
 * report, with parsers that recover what a frame asks the chip to do.
 */
module Ft260Frames {
  import opened Wrappers
  import opened Ft260Bytes

  /** Longest payload one I2C write report carries. */
  const MaxWrite: nat := 60

  /** Address value meaning "no START": (uint16_t)-1. */
  const NoAddress: bv16 := 0xFFFF

  /** Flag bits of the I2C read and write reports. */
  const StartBit: bv8 := 0x02
  const StopBit: bv8 := 0x04

  const ReadReportId: bv8 := 0xC2
  const FirstWriteReportId: bv8 := 0xD0

  /** Feature requests and settings with a fixed layout. */
  const StatusRequest: seq<bv8> := [0xC0, 0, 0, 0, 0]
  const ResetReport: seq<bv8> := [0xA1, 0x20]
  const I2cModeReport: seq<bv8> := [0xA1, 0x02, 0x01]
  const ChipIdRequest: seq<bv8> := [0xA0, 0, 0, 0, 0, 0, 0, 0, 0, 0, 0, 0, 0]
  const SystemStatusRequest: seq<bv8> :=
    [0xA1, 0, 0, 0, 0, 0, 0, 0, 0, 0, 0, 0, 0, 0, 0, 0, 0, 0, 0, 0, 0, 0, 0, 0, 0, 0]

  /** The speed setting report: selector, speed selector, clock big-endian. */
  function SpeedReport(khz: bv16): (r: seq<bv8>)
    ensures |r| == 4 && r[..2] == [0xA1, 0x22]
  {
    [0xA1, 0x22, (khz >> 8) as bv8, (khz & 0xFF) as bv8]
  }

  /** The clock field (bytes 2 and 3, big-endian) of a status reply or speed report. */
  function ClockField(buf: seq<bv8>): bv16
    requires |buf| >= 4
  {
    Join(buf[2], buf[3])
  }

  /** The flags field (byte 1) of a status reply. */
  function FlagsField(buf: seq<bv8>): bv8
    requires |buf| >= 2
  {
    buf[1]
  }

  /** The speed report carries the clock in the layout the status reply is read with. */
  lemma SpeedReportClock(khz: bv16)
    ensures ClockField(SpeedReport(khz)) == khz
  {
  }

  /** The address byte: 0 for the no-START value, else the low byte of the address. */
  function AddrByte(addr: bv16): (r: bv8)
    ensures addr == NoAddress ==> r == 0
    ensures addr != NoAddress ==> r as bv16 == addr & 0xFF
  {
    if addr == NoAddress then 0 else (addr & 0xFF) as bv8
  }

  /** The flags byte of the read and write reports. */
  function FlagsByte(addr: bv16, stop: bool): (r: bv8)
    ensures r & StartBit != 0 <==> addr != NoAddress
    ensures r & StopBit != 0 <==> stop
    ensures r & !(StartBit | StopBit) == 0
  {
    (if addr != NoAddress then StartBit else 0) | (if stop then StopBit else 0)
  }

  /**
   * The write report ID: 0xD0 announces a 4-byte slot, each next ID four
   * bytes more, up to 0xDE for 60 bytes. The slot announced is the smallest
   * multiple of four holding the payload (at least one byte's worth).
   */
  function WriteReportId(len: nat): (r: bv8)
    requires len <= MaxWrite
    ensures FirstWriteReportId <= r <= 0xDE
    ensures len <= SlotSize(r)
    ensures SlotSize(r) - 4 < (if len == 0 then 1 else len)
  {
    var q := Bucket(len);
    LengthByte(0xD0 + q);
    (0xD0 + q) as bv8
  }

  /** How many 4-byte steps past the first write report ID a payload of len bytes needs. */
  function Bucket(len: nat): (q: nat)
    requires len <= MaxWrite
    ensures q <= 14
    ensures len <= 4 * (q + 1) && 4 * q < (if len == 0 then 1 else len)
  {
    if len <= 4 then 0 else (len - 1) / 4
  }

  /** Payload bytes the write report with this ID has room for. */
  function SlotSize(id: bv8): int {
    4 * ((id as int) - 0xD0 + 1)
  }

  /** The I2C write report: ID, address, flags, length, then the payload. */
  function WriteFrame(addr: bv16, payload: seq<bv8>, stop: bool): (r: seq<bv8>)
    requires |payload| <= MaxWrite
    ensures |r| == |payload| + 4
  {
    [WriteReportId(|payload|), AddrByte(addr), FlagsByte(addr, stop), |payload| as bv8] + payload
  }

  /** The I2C read request: 0xC2, address, flags, then the 16-bit length big-endian. */
  function ReadFrame(addr: bv16, len: bv16, stop: bool): (r: seq<bv8>)
    ensures |r| == 5
  {
    [ReadReportId, AddrByte(addr), FlagsByte(addr, stop), (len >> 8) as bv8, (len & 0xFF) as bv8]
  }

  /** A size_t length masked to its low 16 bits (len &= 0xffff). */
  function Low16(len: nat): bv16 {
    (len % 0x1_0000) as bv16
  }

  /** A 16-bit value from its high and low bytes. */
  function Join(hi: bv8, lo: bv8): bv16 {
    ((hi as bv16) << 8) | lo as bv16
  }

  /** The I2C target a frame names: None when START is suppressed. */
  function Target(addr: bv16): Option<bv8> {
    if addr == NoAddress then None else Some((addr & 0xFF) as bv8)
  }

  /** An address that names the given target. */
  function AddressOf(target: Option<bv8>): bv16 {
    match target
    case None => NoAddress
    case Some(b) => b as bv16
  }

  /** What an I2C write report asks the chip to do. */
  datatype WriteRequest = WriteRequest(target: Option<bv8>, stop: bool, payload: seq<bv8>)

  /** What an I2C read request asks the chip to do. */
  datatype ReadRequest = ReadRequest(target: Option<bv8>, stop: bool, length: bv16)

  datatype Header = Header(target: Option<bv8>, stop: bool)

  /** Header fields common to both I2C reports; None when they are inconsistent. */
  function ParseHeader(a: bv8, f: bv8): Option<Header> {
    if f & !(StartBit | StopBit) != 0 then None
    else if f & StartBit == 0 && a != 0 then None
    else Some(Header(if f & StartBit != 0 then Some(a) else None, f & StopBit != 0))
  }

  function ParseWriteFrame(r: seq<bv8>): Option<WriteRequest> {
    if |r| < 4 || r[3] as int > MaxWrite || |r| != r[3] as int + 4 then None
    else if r[0] != WriteReportId(r[3] as int) then None
    else match ParseHeader(r[1], r[2])
      case None => None
      case Some(h) => Some(WriteRequest(h.target, h.stop, r[4..]))
  }

  function ParseReadFrame(r: seq<bv8>): Option<ReadRequest> {
    if |r| != 5 || r[0] != ReadReportId then None
    else match ParseHeader(r[1], r[2])
      case None => None
      case Some(h) => Some(ReadRequest(h.target, h.stop, Join(r[3], r[4])))
  }

  lemma HeaderRoundTrip(addr: bv16, stop: bool)
    ensures ParseHeader(AddrByte(addr), FlagsByte(addr, stop)) == Some(Header(Target(addr), stop))
  {
  }

  lemma HeaderFromParse(a: bv8, f: bv8)
    requires ParseHeader(a, f).Some?
    ensures var h := ParseHeader(a, f).value;
      AddrByte(AddressOf(h.target)) == a && FlagsByte(AddressOf(h.target), h.stop) == f
  {
    var target := ParseHeader(a, f).value.target;
    if target.Some? {
      assert AddressOf(target) != NoAddress;
      assert (AddressOf(target) & 0xFF) as bv8 == a;
    }
  }

  /** Parsing a write report gives back the target, stop flag and payload it was built from. */
  lemma {:induction false} WriteFrameRoundTrip(addr: bv16, payload: seq<bv8>, stop: bool)
    requires |payload| <= MaxWrite
    ensures ParseWriteFrame(WriteFrame(addr, payload, stop))
         == Some(WriteRequest(Target(addr), stop, payload))
  {
    var r := WriteFrame(addr, payload, stop);
    LengthByte(|payload|);
    assert r[3] as int == |payload|;
    assert r[0] == WriteReportId(r[3] as int);
    assert r[4..] == payload;
    HeaderRoundTrip(addr, stop);
  }

  /** Every well-formed write report is the one built from what it parses to. */
  lemma {:induction false} WriteFrameFromParse(r: seq<bv8>)
    requires ParseWriteFrame(r).Some?
    ensures var w := ParseWriteFrame(r).value;
      |w.payload| <= MaxWrite && r == WriteFrame(AddressOf(w.target), w.payload, w.stop)
  {
    var w := ParseWriteFrame(r).value;
    var n := r[3] as int;
    assert |w.payload| == n;
    ByteRoundTrip(r[3]);
    HeaderFromParse(r[1], r[2]);
    assert r == [r[0], r[1], r[2], r[3]] + w.payload;
  }

  /** Parsing a read request gives back the target, stop flag and length. */
  lemma ReadFrameRoundTrip(addr: bv16, len: bv16, stop: bool)
    ensures ParseReadFrame(ReadFrame(addr, len, stop)) == Some(ReadRequest(Target(addr), stop, len))
  {
    HeaderRoundTrip(addr, stop);
  }

  /** Every well-formed read request is the one built from what it parses to. */
  lemma ReadFrameFromParse(r: seq<bv8>)
    requires ParseReadFrame(r).Some?
    ensures var q := ParseReadFrame(r).value;
      r == ReadFrame(AddressOf(q.target), q.length, q.stop)
  {
    HeaderFromParse(r[1], r[2]);
  }
}
