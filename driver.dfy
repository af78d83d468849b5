/**
 * The FT260 I2C driver (src/ft260.c) as functions from a device value to the
 * outcome of each call and the device afterwards. These are the
 * specifications the `Device` class methods are proved against; the lemmas
 * here state what each call does in terms of the chip's script alone.
 */
module Ft260Driver {
  import opened Wrappers
  import opened Ft260Status
  import opened Ft260Frames
  import opened Ft260Chip

  /** The two feature report directions of ft260_hid_io. */
  datatype Direction = Output | Input

  /** The fields of struct ft260_dev the driver calls use, with the chip behind `fd`. */
  datatype Dev = Dev(fd: int, devpath: string, freqKhz: bv16, chip: Chip)

  datatype Io = Io(ok: bool, buf: seq<bv8>, dev: Dev)
  datatype Query = Query(status: Option<bv8>, dev: Dev)
  datatype Speed = Speed(freq: Option<bv16>, dev: Dev)
  datatype Outcome = Outcome(ok: bool, dev: Dev)
  datatype Sys = Sys(result: int, dev: Dev)

  /** The status byte the driver reads from a status reply. */
  function StatusOf(reply: seq<bv8>): bv8 {
    FlagsField(Fill(StatusRequest, reply))
  }

  /** The bus clock the driver reads from a status reply. */
  function ClockOf(reply: seq<bv8>): bv16 {
    ClockField(Fill(StatusRequest, reply))
  }

  /** The chip after answering (or failing) one status request. */
  function Polled(c: Chip): Chip {
    c.(replies := Rest(c.replies), traffic := c.traffic + [GetFeature(StatusRequest)])
  }

  /** k status requests in a row. */
  function Polls(k: nat): (r: seq<Event>)
    ensures |r| == k && forall i :: 0 <= i < k ==> r[i] == GetFeature(StatusRequest)
  {
    seq(k, _ => GetFeature(StatusRequest))
  }

  /** A script with its first k entries used up. */
  function Drop<T>(s: seq<T>, k: nat): (r: seq<T>)
    ensures k <= |s| ==> r == s[k..]
    ensures k >= |s| ==> r == []
  {
    if k >= |s| then [] else s[k..]
  }

  /**
   * ft260_hid_io: a feature report in either direction; nothing reaches the
   * chip through a negative descriptor.
   */
  function HidIo(d: Dev, dir: Direction, buf: seq<bv8>): (r: Io)
    ensures |r.buf| == |buf|
    ensures r.dev.fd == d.fd && r.dev.devpath == d.devpath && r.dev.freqKhz == d.freqKhz
    ensures d.fd < 0 ==> r == Io(false, buf, d)
    ensures d.fd >= 0 && dir == Output ==>
      r.ok == (d.chip.settings != [] && d.chip.settings[0]) && r.buf == buf
    ensures d.fd >= 0 && dir == Input ==>
      && r.ok == (d.chip.replies != [] && d.chip.replies[0].Some?)
      && (r.ok ==> r.buf == Fill(buf, d.chip.replies[0].value))
  {
    if d.fd < 0 then Io(false, buf, d)
    else if dir == Output then
      var a := d.chip.SetFeatureReport(buf);
      Io(a.ok, buf, d.(chip := a.chip))
    else
      var a := d.chip.GetFeatureReport(buf);
      Io(a.ok, a.buf, d.(chip := a.chip))
  }

  /**
   * ft260_i2c_get_status: a status request; on success the status byte is
   * returned and the clock it reports is cached in freqKhz.
   */
  function GetStatus(d: Dev): (r: Query)
    ensures r.status.Some? <==> d.fd >= 0 && d.chip.replies != [] && d.chip.replies[0].Some?
    ensures r.status.Some? ==>
      && r.status.value == StatusOf(d.chip.replies[0].value)
      && r.dev.freqKhz == ClockOf(d.chip.replies[0].value)
    ensures r.status.None? ==> r.dev.freqKhz == d.freqKhz
    ensures d.fd < 0 ==> r.dev == d
    ensures d.fd >= 0 ==> r.dev.chip == Polled(d.chip)
    ensures r.dev.fd == d.fd && r.dev.devpath == d.devpath
  {
    var io := HidIo(d, Input, StatusRequest);
    if !io.ok then Query(None, io.dev)
    else Query(Some(FlagsField(io.buf)), io.dev.(freqKhz := ClockField(io.buf)))
  }

  /** ft260_i2c_get_speed: a status request, then the cached clock. */
  function GetSpeed(d: Dev): (r: Speed)
    ensures r.freq.Some? <==> d.fd >= 0 && d.chip.replies != [] && d.chip.replies[0].Some?
    ensures r.freq.Some? ==> r.freq.value == ClockOf(d.chip.replies[0].value) == r.dev.freqKhz
    ensures r.dev == GetStatus(d).dev
  {
    var q := GetStatus(d);
    if q.status.None? then Speed(None, q.dev) else Speed(Some(q.dev.freqKhz), q.dev)
  }

  /**
   * ft260_i2c_set_speed: the speed setting, then a status request; success
   * only when the clock the chip reports back is the one asked for.
   */
  function SetSpeed(d: Dev, khz: bv16): (r: Outcome)
    ensures r.dev.fd == d.fd && r.dev.devpath == d.devpath
  {
    var io := HidIo(d, Output, SpeedReport(khz));
    if !io.ok then Outcome(false, io.dev)
    else
      var q := GetStatus(io.dev);
      if q.status.None? then Outcome(false, q.dev)
      else Outcome(khz == q.dev.freqKhz, q.dev)
  }

  /** ft260_i2c_reset: the I2C reset setting. */
  function Reset(d: Dev): (r: Outcome)
    ensures r.ok <==> d.fd >= 0 && d.chip.settings != [] && d.chip.settings[0]
    ensures d.fd < 0 ==> r.dev == d
    ensures d.fd >= 0 ==> r.dev == d.(chip := d.chip.SetFeatureReport(ResetReport).chip)
  {
    var io := HidIo(d, Output, ResetReport);
    Outcome(io.ok, io.dev)
  }

  /** A reply the wait loop polls past: answered, without the idle bit. */
  predicate StillBusy(reply: Option<seq<bv8>>) {
    reply.Some? && StatusOf(reply.value) & Idle == 0
  }

  /** Index of the reply that ends a wait: the first one not StillBusy, or the end of the script. */
  function Stop(rs: seq<Option<seq<bv8>>>): (n: nat)
    ensures n <= |rs|
    ensures forall j :: 0 <= j < n ==> StillBusy(rs[j])
    ensures n < |rs| ==> !StillBusy(rs[n])
  {
    if rs == [] || !StillBusy(rs[0]) then 0 else 1 + Stop(rs[1..])
  }

  /** The clock cached after k answered status requests. */
  function LastClock(f: bv16, rs: seq<Option<seq<bv8>>>, k: nat): bv16
    requires k <= |rs|
    requires forall j :: 0 <= j < k ==> rs[j].Some?
  {
    if k == 0 then f else ClockOf(rs[k - 1].value)
  }

  /** The device after its first k status requests were answered. */
  function AfterPolls(d: Dev, k: nat): Dev
    requires k <= |d.chip.replies|
    requires forall j :: 0 <= j < k ==> d.chip.replies[j].Some?
  {
    d.(freqKhz := LastClock(d.freqKhz, d.chip.replies, k),
       chip := d.chip.(replies := d.chip.replies[k..], traffic := d.chip.traffic + Polls(k)))
  }

  /** One more answered status request. */
  lemma AfterPollsStep(d: Dev, k: nat)
    requires d.fd >= 0 && k < |d.chip.replies|
    requires forall j :: 0 <= j <= k ==> d.chip.replies[j].Some?
    ensures GetStatus(AfterPolls(d, k)).dev == AfterPolls(d, k + 1)
  {
    assert d.chip.traffic + Polls(k) + [GetFeature(StatusRequest)] == d.chip.traffic + Polls(k + 1);
    assert d.chip.replies[k..][1..] == d.chip.replies[k + 1..];
  }

  /**
   * A script on which the wait loop sees answers without the idle bit, then
   * one with it.
   */
  predicate IdleAfterBusy(rs: seq<Option<seq<bv8>>>) {
    var n := Stop(rs);
    && n < |rs| && rs[n].Some? && StatusOf(rs[n].value) & Idle != 0
    && forall j :: 0 <= j < n ==> rs[j].Some? && StatusOf(rs[j].value) & Idle == 0
  }

  /**
   * ft260_i2c_wait: status requests until one reports the idle bit, failing
   * as soon as one fails. Read off the script: the answers without the idle
   * bit, Stop of them, are polled past, and one more status request decides.
   */
  function Wait(d: Dev): (r: Outcome)
    ensures r.ok <==> d.fd >= 0 && IdleAfterBusy(d.chip.replies)
    ensures d.fd < 0 ==> r == Outcome(false, d)
    ensures r.dev.fd == d.fd && r.dev.devpath == d.devpath
  {
    if d.fd < 0 then Outcome(false, d)
    else
      var q := GetStatus(AfterPolls(d, Stop(d.chip.replies)));
      Outcome(q.status.Some?, q.dev)
  }

  /**
   * One round of the wait loop after k busy answers: a failed status
   * request ends the wait in failure, an idle one in success, and a busy
   * one leaves the device as after k + 1 polls.
   */
  lemma {:induction false} WaitStep(d: Dev, k: nat)
    requires d.fd >= 0 && k <= Stop(d.chip.replies)
    ensures var q := GetStatus(AfterPolls(d, k));
      && (q.status.None? ==> Wait(d) == Outcome(false, q.dev))
      && (q.status.Some? && q.status.value & Idle != 0 ==> Wait(d) == Outcome(true, q.dev))
      && (q.status.Some? && q.status.value & Idle == 0 ==>
            k + 1 <= Stop(d.chip.replies) && q.dev == AfterPolls(d, k + 1))
  {
    var rs := d.chip.replies;
    var q := GetStatus(AfterPolls(d, k));
    if k < |rs| {
      assert AfterPolls(d, k).chip.replies[0] == rs[k];
    }
    if q.status.Some? && q.status.value & Idle == 0 {
      assert StillBusy(rs[k]);
      AfterPollsStep(d, k);
    } else {
      assert k == Stop(rs);
    }
  }

  /**
   * The chip after a wait through an open handle: one status request for
   * each busy answer and one for the reply that ended the wait.
   */
  lemma WaitTraffic(d: Dev)
    requires d.fd >= 0
    ensures var n := Stop(d.chip.replies);
      Wait(d).dev.chip == d.chip.(replies := Drop(d.chip.replies, n + 1),
                                  traffic := d.chip.traffic + Polls(n) + [GetFeature(StatusRequest)])
  {
  }

  /** write(2) on the descriptor; a negative one fails with EBADF before the chip. */
  function SysWrite(d: Dev, bytes: seq<bv8>): (r: Sys)
    ensures d.fd < 0 ==> r == Sys(-1, d)
    ensures d.fd >= 0 ==> r == Sys(d.chip.Write(bytes).result, d.(chip := d.chip.Write(bytes).chip))
  {
    if d.fd < 0 then Sys(-1, d)
    else
      var s := d.chip.Write(bytes);
      Sys(s.result, d.(chip := s.chip))
  }

  /** read(2) of up to max bytes; a negative descriptor fails with EBADF before the chip. */
  function SysRead(d: Dev, max: nat): (r: Sys)
    ensures d.fd < 0 ==> r == Sys(-1, d)
    ensures d.fd >= 0 ==> r == Sys(d.chip.Read(max).result, d.(chip := d.chip.Read(max).chip))
  {
    if d.fd < 0 then Sys(-1, d)
    else
      var s := d.chip.Read(max);
      Sys(s.result, d.(chip := s.chip))
  }

  /** The bytes memcpy takes from the caller's buffer (none from a null one). */
  function Payload(data: Option<seq<bv8>>, len: nat): (p: seq<bv8>)
    requires data.Some? ==> len <= |data.value|
    requires data.None? ==> len == 0
    ensures |p| == len
  {
    if data.Some? then data.value[..len] else []
  }

  /** The argument checks ft260_i2c_write makes before touching the device. */
  predicate WriteArgsOk(d: Dev, data: Option<seq<bv8>>, len: nat) {
    d.fd != -1 && (data.Some? || len == 0) && len <= MaxWrite
  }

  /**
   * ft260_i2c_write: argument checks, then the transfer of the write report
   * built from the caller's bytes.
   */
  function I2cWrite(d: Dev, addr: bv16, data: Option<seq<bv8>>, len: nat, stop: bool): (r: Outcome)
    requires data.Some? ==> len <= |data.value|
    ensures r.dev.fd == d.fd && r.dev.devpath == d.devpath
    ensures !WriteArgsOk(d, data, len) ==> r == Outcome(false, d)
  {
    if d.fd == -1 then Outcome(false, d)
    else if data.None? && len > 0 then Outcome(false, d)
    else if len > MaxWrite then Outcome(false, d)
    else Transfer(d, WriteFrame(addr, Payload(data, len), stop), len)
  }

  /**
   * The transfer part of ft260_i2c_write: a wait, then the write report,
   * which write(2) must take whole (len+4 bytes), then the final check.
   */
  function Transfer(d: Dev, frame: seq<bv8>, len: nat): (r: Outcome)
    ensures r.dev.fd == d.fd && r.dev.devpath == d.devpath
  {
    var pre := Wait(d);
    if !pre.ok then Outcome(false, pre.dev)
    else
      var w := SysWrite(pre.dev, frame);
      if w.result != len + 4 then Outcome(false, w.dev)
      else FinalCheck(w.dev)
  }

  /**
   * The end of ft260_i2c_write: a second wait, a status request, and a
   * verdict of failure on master busy or on error; bus busy is only logged.
   */
  function FinalCheck(d: Dev): (r: Outcome)
    ensures r.dev.fd == d.fd && r.dev.devpath == d.devpath
  {
    var post := Wait(d);
    if !post.ok then Outcome(false, post.dev)
    else
      var q := GetStatus(post.dev);
      if q.status.None? then Outcome(false, q.dev)
      else if Bit(q.status.value, MasterBusy) then Outcome(false, q.dev)
      else if Bit(q.status.value, Error) then Outcome(false, q.dev)
      else Outcome(true, q.dev)
  }

  /** The replies left for the second wait of a write, after the first stopped at Stop(rs). */
  function AfterFirstWait(rs: seq<Option<seq<bv8>>>): seq<Option<seq<bv8>>> {
    Drop(rs, Stop(rs) + 1)
  }

  /**
   * The replies on which the end of a write succeeds: an idle reply after
   * busy ones, then a status that the final check accepts.
   */
  predicate FinalAccepts(rs: seq<Option<seq<bv8>>>) {
    var n := Stop(rs);
    && IdleAfterBusy(rs)
    && n + 1 < |rs| && rs[n + 1].Some? && Accepts(StatusOf(rs[n + 1].value))
  }

  /**
   * The script that makes a write of len bytes succeed: an idle reply after
   * busy ones, a write(2) that takes len+4 bytes, and replies on which the
   * final check succeeds.
   */
  predicate WriteScriptAccepts(c: Chip, len: nat) {
    && IdleAfterBusy(c.replies)
    && c.writeResults != [] && c.writeResults[0] == len + 4
    && FinalAccepts(AfterFirstWait(c.replies))
  }

  /** The final check of a write succeeds exactly on the replies FinalAccepts describes. */
  lemma FinalCheckOkIff(e: Dev)
    requires e.fd >= 0
    ensures FinalCheck(e).ok <==> FinalAccepts(e.chip.replies)
  {
    WaitTraffic(e);
  }

  /** The transfer succeeds exactly on the script WriteScriptAccepts describes. */
  lemma TransferOkIff(d: Dev, frame: seq<bv8>, len: nat)
    requires d.fd >= 0
    ensures Transfer(d, frame, len).ok <==> WriteScriptAccepts(d.chip, len)
  {
    var pre := Wait(d);
    if pre.ok {
      WaitTraffic(d);
      var w := SysWrite(pre.dev, frame);
      assert w.dev.chip.replies == AfterFirstWait(d.chip.replies);
      assert w.result == (if d.chip.writeResults == [] then -1 else d.chip.writeResults[0]);
      FinalCheckOkIff(w.dev);
    }
  }

  /**
   * A write through an open handle that passes the argument checks succeeds
   * exactly on the script WriteScriptAccepts describes.
   */
  lemma WriteOkIff(d: Dev, addr: bv16, data: Option<seq<bv8>>, len: nat, stop: bool)
    requires data.Some? ==> len <= |data.value|
    requires WriteArgsOk(d, data, len) && d.fd >= 0
    ensures I2cWrite(d, addr, data, len, stop).ok <==> WriteScriptAccepts(d.chip, len)
  {
    TransferOkIff(d, WriteFrame(addr, Payload(data, len), stop), len);
  }

  /** Nothing is sent through a negative descriptor, and the write fails. */
  lemma WriteNeedsOpenHandle(d: Dev, addr: bv16, data: Option<seq<bv8>>, len: nat, stop: bool)
    requires data.Some? ==> len <= |data.value|
    requires d.fd < 0
    ensures I2cWrite(d, addr, data, len, stop) == Outcome(false, d)
  {
  }

  /**
   * A successful final check made only status requests: one per busy reply
   * of its wait, one for the idle reply, and the final one.
   */
  lemma FinalCheckTraffic(e: Dev)
    requires FinalCheck(e).ok
    ensures e.fd >= 0
    ensures FinalCheck(e).dev.chip.traffic
         == e.chip.traffic + Polls(Stop(e.chip.replies)) + [GetFeature(StatusRequest)] + [GetFeature(StatusRequest)]
  {
    WaitTraffic(e);
  }

  /**
   * A successful transfer sent the frame once, surrounded only by status
   * requests: before it, one per busy reply of the first wait and one for its
   * idle reply; after it, the same for the second wait, then the final one.
   */
  lemma TransferTraffic(d: Dev, frame: seq<bv8>, len: nat)
    requires Transfer(d, frame, len).ok
    ensures d.fd >= 0
    ensures Transfer(d, frame, len).dev.chip.traffic
         == d.chip.traffic + Polls(Stop(d.chip.replies)) + [GetFeature(StatusRequest)] + [Written(frame)]
            + Polls(Stop(AfterFirstWait(d.chip.replies))) + [GetFeature(StatusRequest)] + [GetFeature(StatusRequest)]
  {
    var pre := Wait(d);
    WaitTraffic(d);
    var w := SysWrite(pre.dev, frame);
    assert Transfer(d, frame, len) == FinalCheck(w.dev);
    assert w.dev.chip.replies == AfterFirstWait(d.chip.replies);
    assert w.dev.chip.traffic
        == d.chip.traffic + Polls(Stop(d.chip.replies)) + [GetFeature(StatusRequest)] + [Written(frame)];
    FinalCheckTraffic(w.dev);
  }

  /**
   * A successful write sent the chip one write report, which is len+4 bytes
   * long and parses back to the target, stop flag and payload asked for,
   * surrounded only by the status requests of the two waits and the final
   * status request.
   */
  lemma WriteTraffic(d: Dev, addr: bv16, data: Option<seq<bv8>>, len: nat, stop: bool)
    requires data.Some? ==> len <= |data.value|
    requires I2cWrite(d, addr, data, len, stop).ok
    ensures var frame := WriteFrame(addr, Payload(data, len), stop);
      && |frame| == len + 4
      && ParseWriteFrame(frame) == Some(WriteRequest(Target(addr), stop, Payload(data, len)))
      && I2cWrite(d, addr, data, len, stop).dev.chip.traffic
         == d.chip.traffic + Polls(Stop(d.chip.replies)) + [GetFeature(StatusRequest)] + [Written(frame)]
            + Polls(Stop(AfterFirstWait(d.chip.replies))) + [GetFeature(StatusRequest)] + [GetFeature(StatusRequest)]
  {
    var frame := WriteFrame(addr, Payload(data, len), stop);
    WriteFrameRoundTrip(addr, Payload(data, len), stop);
    TransferTraffic(d, frame, len);
  }

  /** WriteTraffic for a caller's buffer that holds exactly the payload. */
  lemma WritePayloadTraffic(d: Dev, addr: bv16, p: seq<bv8>, stop: bool)
    requires I2cWrite(d, addr, Some(p), |p|, stop).ok
    ensures |p| <= MaxWrite
    ensures var frame := WriteFrame(addr, p, stop);
      && ParseWriteFrame(frame) == Some(WriteRequest(Target(addr), stop, p))
      && I2cWrite(d, addr, Some(p), |p|, stop).dev.chip.traffic
         == d.chip.traffic + Polls(Stop(d.chip.replies)) + [GetFeature(StatusRequest)] + [Written(frame)]
            + Polls(Stop(AfterFirstWait(d.chip.replies))) + [GetFeature(StatusRequest)] + [GetFeature(StatusRequest)]
  {
    assert Payload(Some(p), |p|) == p;
    WriteTraffic(d, addr, Some(p), |p|, stop);
  }

  /** The argument checks ft260_i2c_read makes before touching the device. */
  predicate ReadArgsOk(d: Dev, hasData: bool, len: nat) {
    d.fd != -1 && (hasData || len == 0)
  }

  /**
   * ft260_i2c_read: argument checks, the 5-byte read request, a read(2) of
   * up to 64 bytes and a status request, then false on every path. The
   * caller's buffer plays no part beyond being null or not.
   */
  function I2cRead(d: Dev, addr: bv16, hasData: bool, len: nat, stop: bool): (r: Outcome)
    ensures !r.ok
    ensures r.dev.fd == d.fd && r.dev.devpath == d.devpath
    ensures !ReadArgsOk(d, hasData, len) ==> r.dev == d
  {
    if d.fd == -1 then Outcome(false, d)
    else if !hasData && len > 0 then Outcome(false, d)
    else
      var w := SysWrite(d, ReadFrame(addr, Low16(len), stop));
      var rd := SysRead(w.dev, 64);
      var q := GetStatus(rd.dev);
      Outcome(false, q.dev)
  }

  /**
   * A read through an open handle sends one read request, which parses back
   * to the target, stop flag and the length cut to 16 bits, then reads and
   * polls the status once.
   */
  lemma ReadTraffic(d: Dev, addr: bv16, hasData: bool, len: nat, stop: bool)
    requires ReadArgsOk(d, hasData, len) && d.fd >= 0
    ensures var frame := ReadFrame(addr, Low16(len), stop);
      var r := I2cRead(d, addr, hasData, len, stop);
      && ParseReadFrame(frame) == Some(ReadRequest(Target(addr), stop, Low16(len)))
      && r.dev.chip.traffic == d.chip.traffic + [Written(frame), ReadUpTo(64), GetFeature(StatusRequest)]
      && r.dev.chip.writeResults == Rest(d.chip.writeResults)
      && r.dev.chip.readResults == Rest(d.chip.readResults)
      && r.dev.chip.replies == Rest(d.chip.replies)
  {
    ReadFrameRoundTrip(addr, Low16(len), stop);
  }

  /** set_speed succeeds exactly when the setting is taken and the chip then reports that clock. */
  lemma SetSpeedOkIff(d: Dev, khz: bv16)
    ensures var c := d.chip;
      SetSpeed(d, khz).ok <==>
        && d.fd >= 0 && c.settings != [] && c.settings[0]
        && c.replies != [] && c.replies[0].Some? && ClockOf(c.replies[0].value) == khz
  {
  }

  /**
   * What the chip is sent by set_speed: the speed report, whose clock field
   * is the speed asked for, then a status request; and the clock cached is
   * whatever the chip reported, even when it differs.
   */
  lemma SetSpeedTraffic(d: Dev, khz: bv16)
    requires d.fd >= 0 && d.chip.settings != [] && d.chip.settings[0]
    ensures var r := SetSpeed(d, khz);
      && r.dev.chip.traffic == d.chip.traffic + [SetFeature(SpeedReport(khz)), GetFeature(StatusRequest)]
      && ClockField(SpeedReport(khz)) == khz
      && (d.chip.replies != [] && d.chip.replies[0].Some? ==> r.dev.freqKhz == ClockOf(d.chip.replies[0].value))
      && (r.ok ==> r.dev.freqKhz == khz)
  {
    SpeedReportClock(khz);
  }

  /** close(2) of the descriptor; a negative one fails with EBADF before the chip. */
  function Close(d: Dev): (r: Dev)
    ensures d.fd < 0 ==> r == d
    ensures d.fd >= 0 ==> r == d.(chip := d.chip.Close())
  {
    if d.fd < 0 then d else d.(chip := d.chip.Close())
  }

  /** What ft260_i2c_create leaves behind: the handle, if any, and the chip. */
  datatype Bringup = Bringup(dev: Option<Dev>, chip: Chip)

  /** A failed bring-up step after the open: the descriptor is closed and no handle is returned. */
  function Abandon(d: Dev): Bringup {
    Bringup(None, Close(d).chip)
  }

  /**
   * The steps of ft260_i2c_create in order: find the device path (the
   * caller's, else the one udev enumeration found), allocate, open, then
   * the raw queries and the chip set-up of Configure. The outcomes that come
   * from outside the chip script are parameters: the udev result `located`,
   * whether allocation succeeds, the descriptor open(2) returns and whether
   * the raw name and raw info queries succeed.
   */
  function Create(devpath: Option<string>, located: Option<string>, allocOk: bool, openFd: int,
                  nameOk: bool, infoOk: bool, chip: Chip): (r: Bringup)
    ensures r.dev.Some? ==> r.dev.value.chip == r.chip && r.dev.value.fd == openFd && openFd >= 0
    ensures r.dev.Some? && devpath.Some? ==> r.dev.value.devpath == devpath.value
    ensures r.dev.Some? && devpath.None? ==> located.Some? && r.dev.value.devpath == located.value
    ensures devpath.None? && located.None? ==> r == Bringup(None, chip)
    ensures !allocOk ==> r == Bringup(None, chip)
    ensures openFd < 0 ==> r == Bringup(None, chip)
  {
    var hidpath := if devpath.Some? then devpath else located;
    if hidpath.None? || !allocOk || openFd < 0 then Bringup(None, chip)
    else Configure(Dev(openFd, hidpath.value, 0, chip.(open := true, traffic := chip.traffic + [Opened])),
                   nameOk, infoOk)
  }

  /** The raw name and raw info queries (HIDIOCGRAWNAME, HIDIOCGRAWINFO), then SetUp. */
  function Configure(d: Dev, nameOk: bool, infoOk: bool): (r: Bringup)
    ensures r.dev.Some? ==> r.dev.value.chip == r.chip && r.dev.value.fd == d.fd && r.dev.value.devpath == d.devpath
  {
    var named := d.(chip := d.chip.(traffic := d.chip.traffic + [RawNameQuery]));
    if !nameOk then Abandon(named)
    else
      var informed := named.(chip := named.chip.(traffic := named.chip.traffic + [RawInfoQuery]));
      if !infoOk then Abandon(informed)
      else SetUp(informed)
  }

  /**
   * The chip set-up of ft260_i2c_create: chip ID and system status
   * requests, the I2C reset, I2C mode and a speed query, abandoning the
   * handle at the first failure.
   */
  function SetUp(d: Dev): (r: Bringup)
    ensures r.dev.Some? ==> r.dev.value.chip == r.chip && r.dev.value.fd == d.fd && r.dev.value.devpath == d.devpath
  {
    var chipId := HidIo(d, Input, ChipIdRequest);
    if !chipId.ok then Abandon(chipId.dev)
    else
      var system := HidIo(chipId.dev, Input, SystemStatusRequest);
      if !system.ok then Abandon(system.dev)
      else
        var cleared := Reset(system.dev);
        if !cleared.ok then Abandon(cleared.dev)
        else
          var moded := HidIo(cleared.dev, Output, I2cModeReport);
          if !moded.ok then Abandon(moded.dev)
          else
            var clock := GetSpeed(moded.dev);
            if clock.freq.None? then Abandon(clock.dev)
            else Bringup(Some(clock.dev), clock.dev.chip)
  }

  /** The requests a successful bring-up makes, in order. */
  const BringupTraffic: seq<Event> := [
    Opened, RawNameQuery, RawInfoQuery,
    GetFeature(ChipIdRequest), GetFeature(SystemStatusRequest),
    SetFeature(ResetReport), SetFeature(I2cModeReport),
    GetFeature(StatusRequest)]

  /** A successful chip set-up made its five requests in order and cached the clock of the last reply. */
  lemma SetUpSucceeds(d: Dev)
    requires SetUp(d).dev.Some?
    ensures var e := SetUp(d).dev.value;
      && d.fd >= 0
      && e.chip.traffic == d.chip.traffic + BringupTraffic[3..]
      && e.chip.open == d.chip.open
      && |d.chip.replies| >= 3 && d.chip.replies[2].Some? && e.freqKhz == ClockOf(d.chip.replies[2].value)
  {
    var chipId := HidIo(d, Input, ChipIdRequest);
    var system := HidIo(chipId.dev, Input, SystemStatusRequest);
    var cleared := Reset(system.dev);
    var moded := HidIo(cleared.dev, Output, I2cModeReport);
    var clock := GetSpeed(moded.dev);
    assert SetUp(d).dev.value == clock.dev;
    assert d.chip.replies[1..][1..][0] == d.chip.replies[2];
    assert clock.dev.chip.traffic == d.chip.traffic
      + [GetFeature(ChipIdRequest)] + [GetFeature(SystemStatusRequest)]
      + [SetFeature(ResetReport)] + [SetFeature(I2cModeReport)] + [GetFeature(StatusRequest)];
  }

  /**
   * A successful bring-up made every step's request in order, left the
   * device open, and cached the clock from the final status reply.
   */
  lemma CreateSucceeds(devpath: Option<string>, located: Option<string>, allocOk: bool, openFd: int,
                       nameOk: bool, infoOk: bool, chip: Chip)
    requires Create(devpath, located, allocOk, openFd, nameOk, infoOk, chip).dev.Some?
    ensures var d := Create(devpath, located, allocOk, openFd, nameOk, infoOk, chip).dev.value;
      && d.chip.traffic == chip.traffic + BringupTraffic
      && d.chip.open
      && |chip.replies| >= 3 && chip.replies[2].Some? && d.freqKhz == ClockOf(chip.replies[2].value)
  {
    var hidpath := if devpath.Some? then devpath else located;
    var started := Dev(openFd, hidpath.value, 0, chip.(open := true, traffic := chip.traffic + [Opened]));
    var named := started.(chip := started.chip.(traffic := started.chip.traffic + [RawNameQuery]));
    var informed := named.(chip := named.chip.(traffic := named.chip.traffic + [RawInfoQuery]));
    SetUpSucceeds(informed);
    assert chip.traffic + [Opened] + [RawNameQuery] + [RawInfoQuery] + BringupTraffic[3..]
        == chip.traffic + BringupTraffic;
  }

  /** A failed chip set-up closed the device as its last act and kept what came before. */
  lemma SetUpCleansUp(d: Dev)
    requires d.fd >= 0 && SetUp(d).dev.None?
    ensures var c := SetUp(d).chip;
      && |c.traffic| > |d.chip.traffic| && c.traffic[..|d.chip.traffic|] == d.chip.traffic
      && c.traffic[|c.traffic| - 1] == Closed && !c.open
  {
    var chipId := HidIo(d, Input, ChipIdRequest);
    var system := HidIo(chipId.dev, Input, SystemStatusRequest);
    var cleared := Reset(system.dev);
    var moded := HidIo(cleared.dev, Output, I2cModeReport);
    var clock := GetSpeed(moded.dev);
    var last :=
      if !chipId.ok then chipId.dev
      else if !system.ok then system.dev
      else if !cleared.ok then cleared.dev
      else if !moded.ok then moded.dev
      else clock.dev;
    assert SetUp(d) == Abandon(last);
    assert |last.chip.traffic| >= |d.chip.traffic| && last.chip.traffic[..|d.chip.traffic|] == d.chip.traffic;
  }

  /**
   * A failed bring-up either never opened the device, leaving the chip as it
   * was, or closed it again as its last act.
   */
  lemma CreateCleansUp(devpath: Option<string>, located: Option<string>, allocOk: bool, openFd: int,
                       nameOk: bool, infoOk: bool, chip: Chip)
    requires Create(devpath, located, allocOk, openFd, nameOk, infoOk, chip).dev.None?
    ensures var c := Create(devpath, located, allocOk, openFd, nameOk, infoOk, chip).chip;
      || c == chip
      || (&& |c.traffic| > |chip.traffic| && c.traffic[|chip.traffic|] == Opened
          && c.traffic[|c.traffic| - 1] == Closed && !c.open)
  {
    var hidpath := if devpath.Some? then devpath else located;
    if hidpath.Some? && allocOk && openFd >= 0 {
      var started := Dev(openFd, hidpath.value, 0, chip.(open := true, traffic := chip.traffic + [Opened]));
      var named := started.(chip := started.chip.(traffic := started.chip.traffic + [RawNameQuery]));
      var informed := named.(chip := named.chip.(traffic := named.chip.traffic + [RawInfoQuery]));
      if nameOk && infoOk {
        SetUpCleansUp(informed);
        var c := SetUp(informed).chip;
        assert c.traffic[|chip.traffic|] == c.traffic[..|informed.chip.traffic|][|chip.traffic|];
      }
    }
  }
}
