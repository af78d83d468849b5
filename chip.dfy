/**
 * A scripted stand-in for the hidraw character device and the FT260 behind
 * it. The driver reaches the chip through four calls: the HIDIOCGFEATURE and
 * HIDIOCSFEATURE ioctls (ft260_hid_io, src/ft260.c:100-118) and the write(2)
 * and read(2) system calls on the same descriptor. Each call takes the next
 * scripted outcome; once a script runs out every further call of that kind
 * fails. Every request that reaches the chip is appended to `traffic`.
 */
module Ft260Chip {
  import opened Wrappers

  datatype Event =
    | Opened                        // open(2) of the device node
    | RawNameQuery                  // HIDIOCGRAWNAME
    | RawInfoQuery                  // HIDIOCGRAWINFO
    | GetFeature(request: seq<bv8>) // HIDIOCGFEATURE with this request buffer
    | SetFeature(report: seq<bv8>)  // HIDIOCSFEATURE of this report
    | Written(bytes: seq<bv8>)      // write(2) of an output report
    | ReadUpTo(max: nat)            // read(2) of at most max bytes
    | Closed                        // close(2)

  datatype Chip = Chip(
    replies: seq<Option<seq<bv8>>>, // answers to successive HIDIOCGFEATURE calls; None: the ioctl fails
    settings: seq<bool>,            // results of successive HIDIOCSFEATURE calls
    writeResults: seq<int>,         // return values of successive write(2) calls
    readResults: seq<int>,          // return values of successive read(2) calls
    traffic: seq<Event>,
    open: bool)
  {
    /**
     * HIDIOCGFEATURE: the chip's answer overwrites the front of the request
     * buffer; the buffer keeps its length.
     */
    function GetFeatureReport(buf: seq<bv8>): (r: Answer)
      ensures |r.buf| == |buf|
      ensures r.ok == (replies != [] && replies[0].Some?)
      ensures !r.ok ==> r.buf == buf
      ensures r.chip == this.(replies := Rest(replies), traffic := traffic + [GetFeature(buf)])
    {
      var next := this.(replies := Rest(replies), traffic := traffic + [GetFeature(buf)]);
      if replies != [] && replies[0].Some? then Answer(true, Fill(buf, replies[0].value), next)
      else Answer(false, buf, next)
    }

    /** HIDIOCSFEATURE: the report is sent; the script says whether the ioctl succeeds. */
    function SetFeatureReport(report: seq<bv8>): (r: Answer)
      ensures r.ok == (settings != [] && settings[0])
      ensures r.chip == this.(settings := Rest(settings), traffic := traffic + [SetFeature(report)])
    {
      Answer(settings != [] && settings[0], report,
             this.(settings := Rest(settings), traffic := traffic + [SetFeature(report)]))
    }

    /** write(2): returns the scripted byte count, -1 once the script is exhausted. */
    function Write(bytes: seq<bv8>): (r: Syscall)
      ensures r.result == (if writeResults == [] then -1 else writeResults[0])
      ensures r.chip == this.(writeResults := Rest(writeResults), traffic := traffic + [Written(bytes)])
    {
      Syscall(if writeResults == [] then -1 else writeResults[0],
              this.(writeResults := Rest(writeResults), traffic := traffic + [Written(bytes)]))
    }

    /** read(2): returns the scripted byte count, -1 once the script is exhausted. */
    function Read(max: nat): (r: Syscall)
      ensures r.result == (if readResults == [] then -1 else readResults[0])
      ensures r.chip == this.(readResults := Rest(readResults), traffic := traffic + [ReadUpTo(max)])
    {
      Syscall(if readResults == [] then -1 else readResults[0],
              this.(readResults := Rest(readResults), traffic := traffic + [ReadUpTo(max)]))
    }

    /** close(2): the device node is released. */
    function Close(): (c: Chip)
      ensures !c.open && c.traffic == traffic + [Closed]
    {
      this.(open := false, traffic := traffic + [Closed])
    }
  }

  datatype Answer = Answer(ok: bool, buf: seq<bv8>, chip: Chip)

  datatype Syscall = Syscall(result: int, chip: Chip)

  /** A script with its first entry used up. */
  function Rest<T>(s: seq<T>): (r: seq<T>)
    ensures s == [] ==> r == []
    ensures s != [] ==> r == s[1..]
  {
    if s == [] then [] else s[1..]
  }

  /** `reply` copied over the front of `buf`, cut to the buffer's length. */
  function Fill(buf: seq<bv8>, reply: seq<bv8>): (r: seq<bv8>)
    ensures |r| == |buf|
    ensures forall i :: 0 <= i < |buf| ==> r[i] == (if i < |reply| then reply[i] else buf[i])
  {
    if |reply| >= |buf| then reply[..|buf|] else reply + buf[|reply|..]
  }
}
