/**
 * The FT260 handle (struct ft260_dev) as an object whose fields the driver
 * calls update in place: the descriptor, the device path, the cached bus
 * clock, and the chip the descriptor reaches. Every method is proved to do
 * what its specification in Ft260Driver or Ft260Register says.
 */
module Ft260Device {
  import opened Wrappers
  import opened Ft260Status
  import opened Ft260Frames
  import opened Ft260Chip
  import D = Ft260Driver
  import R = Ft260Register

  /** The bytes behind a caller's buffer pointer; None for a null pointer. */
  function Bytes(a: array?<bv8>): (r: Option<seq<bv8>>)
    reads a
    ensures r.Some? <==> a != null
    ensures a != null ==> r.value == a[..]
  {
    if a == null then None else Some(a[..])
  }

  class Device {
    var fd: int
    var devpath: string
    var freqKhz: bv16
    var chip: Chip

    function State(): D.Dev
      reads this
    {
      D.Dev(fd, devpath, freqKhz, chip)
    }

    /** A freshly allocated handle: zeroed (calloc), then given its descriptor and path. */
    constructor (fd: int, devpath: string, chip: Chip)
      ensures State() == D.Dev(fd, devpath, 0, chip)
    {
      this.fd := fd;
      this.devpath := devpath;
      this.freqKhz := 0;
      this.chip := chip;
    }

    /** ft260_hid_io: one feature report through the descriptor. */
    method HidIo(dir: D.Direction, buf: seq<bv8>) returns (ok: bool, out: seq<bv8>)
      modifies this
      ensures D.Io(ok, out, State()) == D.HidIo(old(State()), dir, buf)
    {
      if fd < 0 {
        return false, buf;
      }
      if dir == D.Output {
        var answer := chip.SetFeatureReport(buf);
        chip := answer.chip;
        ok, out := answer.ok, buf;
      } else {
        var answer := chip.GetFeatureReport(buf);
        chip := answer.chip;
        ok, out := answer.ok, answer.buf;
      }
    }

    /**
     * ft260_i2c_get_status. On failure `status` is unspecified, as the
     * header says; on success it is the reply's flags byte.
     */
    method GetStatus() returns (ok: bool, status: bv8)
      modifies this
      ensures var q := D.GetStatus(old(State()));
        State() == q.dev && ok == q.status.Some? && (ok ==> status == q.status.value)
    {
      status := 0; // an arbitrary value: the contract says nothing of it on failure
      var buf;
      ok, buf := HidIo(D.Input, StatusRequest);
      if !ok {
        return;
      }
      freqKhz := (buf[2] as bv16) << 8;
      freqKhz := freqKhz + buf[3] as bv16;
      status := buf[1];
    }

    /** ft260_i2c_get_speed. On failure `khz` is unspecified, as the header says. */
    method GetSpeed() returns (ok: bool, khz: bv16)
      modifies this
      ensures var s := D.GetSpeed(old(State()));
        State() == s.dev && ok == s.freq.Some? && (ok ==> khz == s.freq.value)
    {
      khz := 0; // an arbitrary value: the contract says nothing of it on failure
      var status;
      ok, status := GetStatus();
      if !ok {
        return;
      }
      khz := freqKhz;
    }

    /** ft260_i2c_set_speed. */
    method SetSpeed(khz: bv16) returns (ok: bool)
      modifies this
      ensures D.Outcome(ok, State()) == D.SetSpeed(old(State()), khz)
    {
      var sent;
      ok, sent := HidIo(D.Output, SpeedReport(khz));
      if !ok {
        return;
      }
      var status;
      ok, status := GetStatus();
      if !ok {
        return;
      }
      ok := khz == freqKhz;
    }

    /** ft260_i2c_reset. */
    method Reset() returns (ok: bool)
      modifies this
      ensures D.Outcome(ok, State()) == D.Reset(old(State()))
    {
      var sent;
      ok, sent := HidIo(D.Output, ResetReport);
    }

    /**
     * ft260_i2c_wait: poll the status until the idle bit shows, failing as
     * soon as a status request fails.
     */
    method Wait() returns (ok: bool)
      modifies this
      ensures D.Outcome(ok, State()) == D.Wait(old(State()))
    {
      ghost var s0 := State();
      ghost var rs := chip.replies;
      ghost var polls: nat := 0;
      assert s0.chip.traffic + D.Polls(0) == s0.chip.traffic;
      var status: bv8 := 0;
      while status & Idle == 0
        invariant fd == s0.fd && devpath == s0.devpath
        invariant status & Idle == 0 ==> polls <= D.Stop(rs)
        invariant status & Idle == 0 && s0.fd < 0 ==> State() == s0
        invariant status & Idle == 0 && s0.fd >= 0 ==> State() == D.AfterPolls(s0, polls)
        invariant status & Idle != 0 ==> D.Wait(s0) == D.Outcome(true, State())
        decreases |chip.replies|
      {
        var got;
        if s0.fd >= 0 {
          D.WaitStep(s0, polls);
        }
        got, status := GetStatus();
        if !got {
          return false;
        }
        if status & Idle == 0 {
          polls := polls + 1;
        }
      }
      ok := status & Idle != 0;
    }

    /** write(2) on the descriptor. */
    method SysWrite(bytes: seq<bv8>) returns (n: int)
      modifies this
      ensures D.Sys(n, State()) == D.SysWrite(old(State()), bytes)
    {
      if fd < 0 {
        return -1;
      }
      var s := chip.Write(bytes);
      chip := s.chip;
      n := s.result;
    }

    /** read(2) on the descriptor. */
    method SysRead(max: nat) returns (n: int)
      modifies this
      ensures D.Sys(n, State()) == D.SysRead(old(State()), max)
    {
      if fd < 0 {
        return -1;
      }
      var s := chip.Read(max);
      chip := s.chip;
      n := s.result;
    }

    /** close(2) on the descriptor. */
    method Close()
      modifies this
      ensures State() == D.Close(old(State()))
    {
      if fd >= 0 {
        chip := chip.Close();
      }
    }

    /**
     * ft260_i2c_read: sends the read request, reads, polls the status once
     * and reports failure; the caller's buffer is never written.
     */
    method Read(addr: bv16, data: array?<bv8>, len: nat, stop: bool) returns (ok: bool)
      modifies this
      ensures D.Outcome(ok, State()) == D.I2cRead(old(State()), addr, data != null, len, stop)
      ensures data != null ==> data[..] == old(data[..])
    {
      if fd == -1 {
        return false;
      }
      if data == null && len > 0 {
        return false;
      }
      var res := SysWrite(ReadFrame(addr, Low16(len), stop));
      res := SysRead(64);
      var got, status := GetStatus();
      return false;
    }

    /**
     * ft260_i2c_write: argument checks, a wait, the write report, a second
     * wait and the final status check.
     */
    method Write(addr: bv16, data: array?<bv8>, len: nat, stop: bool) returns (ok: bool)
      requires data != null ==> len <= data.Length
      modifies this
      ensures D.Outcome(ok, State()) == D.I2cWrite(old(State()), addr, Bytes(data), len, stop)
    {
      if fd == -1 {
        return false;
      }
      if data == null && len > 0 {
        return false;
      }
      if len > MaxWrite {
        return false;
      }
      var frame := WriteFrame(addr, if data == null then [] else data[..len], stop);
      assert frame == WriteFrame(addr, D.Payload(Bytes(data), len), stop);
      ok := Transfer(frame, len);
    }

    /** The transfer part of ft260_i2c_write: a wait, the write report, the final check. */
    method Transfer(frame: seq<bv8>, len: nat) returns (ok: bool)
      modifies this
      ensures D.Outcome(ok, State()) == D.Transfer(old(State()), frame, len)
    {
      ok := Wait();
      if !ok {
        return;
      }
      var written := SysWrite(frame);
      if written != len + 4 {
        return false;
      }
      ok := FinalCheck();
    }

    /** The end of ft260_i2c_write: a second wait and the status verdict. */
    method FinalCheck() returns (ok: bool)
      modifies this
      ensures D.Outcome(ok, State()) == D.FinalCheck(old(State()))
    {
      ok := Wait();
      if !ok {
        return;
      }
      var status;
      ok, status := GetStatus();
      if !ok {
        return;
      }
      if status & MasterBusy != 0 {
        return false;
      }
      if status & Error != 0 {
        return false;
      }
      ok := true;
    }

    /** ft260_i2c_read_reg_n: the register number written without STOP, then a read with STOP. */
    method ReadRegN(addr: bv16, reg: bv8, n: nat, buf: array?<bv8>) returns (ok: bool)
      modifies this
      ensures D.Outcome(ok, State()) == R.ReadRegN(old(State()), addr, reg, n, buf != null)
      ensures buf != null ==> buf[..] == old(buf[..])
    {
      var regByte := new bv8[1];
      regByte[0] := reg;
      assert regByte[..] == [reg];
      ok := Write(addr, regByte, 1, false);
      if ok {
        ok := Read(addr, buf, n, true);
      }
    }

    /** ft260_i2c_write_reg_n: one write with STOP of the register number and n bytes of buf. */
    method WriteRegN(addr: bv16, reg: bv8, n: nat, buf: array?<bv8>, allocOk: bool) returns (ok: bool)
      requires buf != null ==> n <= buf.Length
      requires buf == null ==> n == 0
      modifies this
      ensures D.Outcome(ok, State()) == R.WriteRegN(old(State()), addr, reg, n, Bytes(buf), allocOk)
    {
      ok := false;
      if allocOk {
        var tmp := new bv8[n + 1];
        tmp[0] := reg;
        forall i | 0 <= i < n {
          tmp[i + 1] := buf[i];
        }
        ghost var spec := R.WriteRegN(State(), addr, reg, n, Bytes(buf), allocOk);
        assert tmp[..] == R.RegisterPayload(reg, Bytes(buf), n);
        assert spec == D.I2cWrite(State(), addr, Bytes(tmp), n + 1, true);
        ok := Write(addr, tmp, n + 1, true);
        assert D.Outcome(ok, State()) == spec;
      }
    }

    /** ft260_i2c_read_reg_b: a 1-byte register read into *value. */
    method ReadRegB(addr: bv16, reg: bv8, value: array?<bv8>) returns (ok: bool)
      modifies this
      ensures D.Outcome(ok, State()) == R.ReadRegB(old(State()), addr, reg, value != null)
      ensures value != null ==> value[..] == old(value[..])
    {
      if value == null {
        return false;
      }
      ok := ReadRegN(addr, reg, 1, value);
    }

    /** ft260_i2c_write_reg_b: a write with STOP of the register number and the value. */
    method WriteRegB(addr: bv16, reg: bv8, value: bv8) returns (ok: bool)
      modifies this
      ensures D.Outcome(ok, State()) == R.WriteRegB(old(State()), addr, reg, value)
    {
      var tmp := new bv8[2];
      tmp[0], tmp[1] := reg, value;
      assert tmp[..] == [reg, value];
      ok := Write(addr, tmp, 2, true);
    }

    /**
     * ft260_i2c_read_reg_w: a 2-byte register read, decoded high byte first
     * into *value on success. `value` is the pointee (None for a null
     * pointer) and `result` what it holds afterwards.
     */
    method ReadRegW(addr: bv16, reg: bv8, value: Option<bv16>) returns (ok: bool, result: Option<bv16>)
      modifies this
      ensures D.Outcome(ok, State()) == R.ReadRegW(old(State()), addr, reg, value.Some?)
      ensures result == value
    {
      result := value;
      if value.None? {
        return false, value;
      }
      var tmp := new bv8[2];
      ok := ReadRegN(addr, reg, 2, tmp);
      var hi, lo := tmp[0], tmp[1];
      if ok {
        result := Some(Join(hi, lo));
      }
    }

    /** ft260_i2c_write_reg_w: a write with STOP of the register number and the value big-endian. */
    method WriteRegW(addr: bv16, reg: bv8, value: bv16) returns (ok: bool)
      modifies this
      ensures D.Outcome(ok, State()) == R.WriteRegW(old(State()), addr, reg, value)
    {
      var tmp := new bv8[3];
      tmp[0] := reg;
      tmp[1] := (value >> 8) as bv8;
      tmp[2] := (value & 0xFF) as bv8;
      assert tmp[..] == R.WordPayload(reg, value);
      ok := Write(addr, tmp, 3, true);
    }

    /**
     * ft260_i2c_create: the bring-up steps in order, closing the descriptor
     * and returning null at the first failure after the open. `after` is the
     * chip once the call is over, whether or not a handle is returned.
     */
    static method Create(devpath: Option<string>, located: Option<string>, allocOk: bool, openFd: int,
                         nameOk: bool, infoOk: bool, chip: Chip) returns (d: Device?, after: Chip)
      ensures var b := D.Create(devpath, located, allocOk, openFd, nameOk, infoOk, chip);
        && (d == null <==> b.dev.None?)
        && after == b.chip
        && (d != null ==> fresh(d) && d.State() == b.dev.value)
    {
      var hidpath := devpath;
      if hidpath.None? {
        hidpath := located;
        if hidpath.None? {
          return null, chip;
        }
      }
      if !allocOk {
        return null, chip;
      }
      if openFd < 0 {
        return null, chip;
      }
      d := new Device(openFd, hidpath.value, chip.(open := true, traffic := chip.traffic + [Opened]));
      d.chip := d.chip.(traffic := d.chip.traffic + [RawNameQuery]);
      if !nameOk {
        d.Close();
        return null, d.chip;
      }
      d.chip := d.chip.(traffic := d.chip.traffic + [RawInfoQuery]);
      if !infoOk {
        d.Close();
        return null, d.chip;
      }
      assert D.Create(devpath, located, allocOk, openFd, nameOk, infoOk, chip) == D.SetUp(d.State());
      var ok, reply := d.HidIo(D.Input, ChipIdRequest);
      if !ok {
        d.Close();
        return null, d.chip;
      }
      ok, reply := d.HidIo(D.Input, SystemStatusRequest);
      if !ok {
        d.Close();
        return null, d.chip;
      }
      ok := d.Reset();
      if !ok {
        d.Close();
        return null, d.chip;
      }
      ok, reply := d.HidIo(D.Output, I2cModeReport);
      if !ok {
        d.Close();
        return null, d.chip;
      }
      var freq;
      ok, freq := d.GetSpeed();
      if !ok {
        d.Close();
        return null, d.chip;
      }
      after := d.chip;
    }
  }

  /** The caller's `struct ft260_dev *` variable that ft260_i2c_destroy nulls. */
  class Handle {
    var dev: Device?

    constructor (dev: Device?)
      ensures this.dev == dev
    {
      this.dev := dev;
    }

    /**
     * ft260_i2c_destroy: false for a null handle; otherwise close the
     * descriptor unless it is -1, null the handle and report success.
     */
    method Destroy() returns (ok: bool)
      modifies this, dev
      ensures ok == (old(dev) != null)
      ensures dev == null
      ensures old(dev) != null ==> old(dev).State() == D.Close(old(dev.State()))
    {
      if dev == null {
        return false;
      }
      if dev.fd != -1 {
        dev.Close();
      }
      dev := null;
      return true;
    }
  }

  /** Destroying a handle twice: the second call finds it null and reports failure. */
  method DestroyTwice(h: Handle) returns (first: bool, second: bool)
    modifies h, h.dev
    ensures first == (old(h.dev) != null)
    ensures !second && h.dev == null
  {
    first := h.Destroy();
    second := h.Destroy();
  }
}
