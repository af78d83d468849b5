/**
 * The FT260 I2C master status byte (include/ft260.h): seven flag bits and
 * a reserved bit 7. When the master-busy bit is set the other bits are not
 * valid, so the decoded view exposes nothing else in that case.
 */
module Ft260Status {

  const MasterBusy: bv8 := 0x01      // controller busy; all other bits invalid
  const Error: bv8 := 0x02           // error condition
  const ErrorSlaveAck: bv8 := 0x04   // slave address not acknowledged
  const ErrorDataAck: bv8 := 0x08    // data not acknowledged
  const ErrorLost: bv8 := 0x10       // arbitration lost
  const Idle: bv8 := 0x20            // controller idle
  const BusBusy: bv8 := 0x40         // bus busy
  const Reserved: bv8 := 0x80        // bit 7

  /** The flag constants in bit order. */
  const Flags: seq<bv8> := [MasterBusy, Error, ErrorSlaveAck, ErrorDataAck, ErrorLost, Idle, BusBusy]

  /** What a status byte says about the controller. */
  datatype BusStatus =
    | Busy
    | Ready(error: bool, slaveNack: bool, dataNack: bool, arbitrationLost: bool,
            idle: bool, busBusy: bool)

  function Bit(b: bv8, flag: bv8): bool {
    b & flag != 0
  }

  function Decode(b: bv8): BusStatus {
    if Bit(b, MasterBusy) then Busy
    else Ready(Bit(b, Error), Bit(b, ErrorSlaveAck), Bit(b, ErrorDataAck), Bit(b, ErrorLost),
               Bit(b, Idle), Bit(b, BusBusy))
  }

  function Encode(s: BusStatus): bv8 {
    match s
    case Busy => MasterBusy
    case Ready(e, sn, dn, lost, idle, bb) =>
      (if e then Error else 0) | (if sn then ErrorSlaveAck else 0) | (if dn then ErrorDataAck else 0)
      | (if lost then ErrorLost else 0) | (if idle then Idle else 0) | (if bb then BusBusy else 0)
  }

  /**
   * The final check of an I2C write (src/ft260.c:404-414): the transfer is
   * good when neither the master-busy nor the error bit is set.
   */
  function Accepts(b: bv8): bool {
    !Bit(b, MasterBusy) && !Bit(b, Error)
  }

  /** The seven flags are distinct single bits below the reserved bit 7. */
  lemma FlagsAreSingleBits()
    ensures |Flags| == 7
    ensures forall i :: 0 <= i < |Flags| ==> Flags[i] == (1 as bv8) << i
    ensures forall i, j :: 0 <= i < j < |Flags| ==> Flags[i] & Flags[j] == 0
    ensures forall i :: 0 <= i < |Flags| ==> Flags[i] & Reserved == 0
  {
  }

  /** Encoding a decoded view and decoding it again gives the view back. */
  lemma DecodeEncode(s: BusStatus)
    ensures Decode(Encode(s)) == s
  {
  }

  /**
   * A byte without the master-busy bit is determined by its decoded view,
   * except for the reserved bit 7, which nothing interprets.
   */
  lemma EncodeDecode(b: bv8)
    requires !Bit(b, MasterBusy)
    ensures Encode(Decode(b)) == b & !Reserved
  {
  }

  /** With master busy set, no other bit changes what the byte means. */
  lemma BusyHidesOtherBits(b: bv8, c: bv8)
    requires Bit(b, MasterBusy) && Bit(c, MasterBusy)
    ensures Decode(b) == Decode(c) == Busy
  {
  }

  /** The write check accepts exactly the valid, error-free statuses. */
  lemma AcceptsMeansReadyWithoutError(b: bv8)
    ensures Accepts(b) <==> Decode(b).Ready? && !Decode(b).error
  {
  }

  /**
   * Bus busy, the error detail bits, idle and the reserved bit never decide
   * the write check on their own.
   */
  lemma OnlyBusyAndErrorDecide(b: bv8, c: bv8)
    requires b & (MasterBusy | Error) == c & (MasterBusy | Error)
    ensures Accepts(b) == Accepts(c)
  {
  }
}
