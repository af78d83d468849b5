# FT260 I2C driver, modelled in Dafny

This project models the protocol layer of a user-space driver for the FTDI
FT260 USB-HID-to-I2C bridge. The driver talks to the chip through a Linux
hidraw descriptor. It uses feature reports (HIDIOCGFEATURE, HIDIOCSFEATURE)
for status and settings, and `write(2)`/`read(2)` for I2C transfers.

The model has these parts:

- **Ft260Status** (`status.dfy`): the status byte. It holds seven flag bits
  and reserved bit 7. When master busy is set, the other bits are invalid.
- **Ft260Frames** (`frames.dfy`): the byte layouts the driver sends.
  - Status and set-up feature requests.
  - The speed report.
  - The 5-byte I2C read request.
  - The I2C write report, whose report ID grows in 4-byte slots.
  - Parsers that recover the target, the STOP flag and the payload or
    length. The round-trip lemmas are proved in both directions.
- **Ft260Chip** (`chip.dfy`): the hidraw descriptor and the chip behind it,
  as a scripted transport.
  - Each feature request, `write(2)` and `read(2)` takes its next scripted
    outcome.
  - Every request that reaches the chip is logged in `traffic`.
- **Ft260Driver** (`driver.dfy`): each driver call as a function from the
  device value `Dev` to an outcome and the device afterwards. The calls are
  `ft260_hid_io`, get/set speed, get status, reset, wait, read, write, close
  and the bring-up steps of `ft260_i2c_create`.
  - The lemmas state each call's success condition and its traffic in terms
    of the script alone.
  - Wait is given in closed form: the loop polls past the busy replies to
    the first reply that is not busy (`Stop`), and that reply decides.
- **Ft260Register** (`register.dfy`): the register helpers built on the I2C
  write and read. It gives their payloads and the 16-bit big-endian packing.
- **Ft260Device** (`device.dfy`): the `struct ft260_dev` handle.
  - It is a class with fields `fd`, `devpath`, `freqKhz` and the `chip`.
  - Its methods carry out each call step by step, with the polling loop of
    `ft260_i2c_wait` as a `while` loop.
  - Each method is proved to produce exactly the outcome and the new state
    that its Ft260Driver or Ft260Register function specifies.
  - The `Handle` class is the caller's pointer variable, which
    `ft260_i2c_destroy` sets to null.

Two behaviours of the source are modelled as written:

- `ft260_i2c_read` returns false on every path and never writes the caller's
  buffer. So every register read (`read_reg_n`, `_b`, `_w`) returns false,
  and a register value cannot be written and then read back through the
  driver. The word round trip is stated on the payload bytes instead
  (`WordRoundTrip`).
- The handle checks differ between calls:
  - `ft260_hid_io` rejects any negative descriptor.
  - Read and write reject only -1.
  - Destroy closes any descriptor other than -1.

  In the model, a system call on any other negative descriptor fails
  without reaching the chip.

## Model

| member | source | states |
|---|---|---|
| Ft260Status.FlagsAreSingleBits | include/ft260.h:34-40 | the seven status flags are bits 0 to 6, pairwise distinct, and none of them is the reserved bit 7 |
| Ft260Status.BusyHidesOtherBits | include/ft260.h:34 | two status bytes with master busy set mean the same, whatever their other bits |
| Ft260Status.EncodeDecode | include/ft260.h:67-76 | a status byte without master busy is determined by its six meaningful flags; only the reserved bit 7 is lost |
| Ft260Status.DecodeEncode | include/ft260.h:67-76 | every decoded status view is encoded by a byte that decodes back to it |
| Ft260Status.AcceptsMeansReadyWithoutError | src/ft260.c:404-414 | the write's final check accepts exactly the statuses that are valid (not master busy) and carry no error |
| Ft260Status.OnlyBusyAndErrorDecide | src/ft260.c:404-418 | bus busy, idle, the NACK and arbitration bits and bit 7 never change the write's verdict |
| Ft260Chip.Chip.GetFeatureReport | src/ft260.c:108-109 | HIDIOCGFEATURE: succeeds iff the next scripted reply exists, which then overwrites the request buffer at its length; the request is logged |
| Ft260Chip.Chip.SetFeatureReport | src/ft260.c:106-107 | HIDIOCSFEATURE: succeeds iff the next setting result says so; the report is logged |
| Ft260Chip.Chip.Write | src/ft260.c:388 | write(2): returns the next scripted count, -1 once the script is used up; the bytes are logged |
| Ft260Chip.Chip.Read | src/ft260.c:330 | read(2): returns the next scripted count, -1 once the script is used up; the request is logged |
| Ft260Chip.Chip.Close | src/ft260.c:425-427 | close(2): the device is released and the close is logged |
| Ft260Frames.SpeedReport | src/ft260.c:152-156 | the speed report is 4 bytes starting 0xA1 0x22 |
| Ft260Frames.SpeedReportClock | src/ft260.c:141-156 | the speed report carries the clock big-endian in the same bytes the status reply reports it in |
| Ft260Frames.AddrByte | src/ft260.c:370-375 | the address byte is 0 for address 0xFFFF and the low byte of the address otherwise |
| Ft260Frames.FlagsByte | src/ft260.c:371-378 | the START bit 0x02 is set iff the address is not 0xFFFF, the STOP bit 0x04 iff `stop`, and no other bit |
| Ft260Frames.Bucket | src/ft260.c:369 | the number of 4-byte steps is at most 14 and the smallest one whose slot holds the payload |
| Ft260Frames.WriteReportId | src/ft260.c:369 | the report ID lies in 0xD0..0xDE and announces the smallest 4-byte slot holding max(len, 1) bytes |
| Ft260Frames.WriteFrame | src/ft260.c:369-380 | the write report is 4 header bytes plus the payload, len+4 bytes in all |
| Ft260Frames.ReadFrame | src/ft260.c:302-315 | the read request is 5 bytes long |
| Ft260Frames.HeaderRoundTrip | src/ft260.c:370-378 | the address and flags bytes parse back to the target (none for 0xFFFF, so no START) and the STOP flag |
| Ft260Frames.HeaderFromParse | src/ft260.c:302-312 | every consistent address/flags pair is the one built from what it parses to |
| Ft260Frames.WriteFrameRoundTrip | src/ft260.c:369-380 | a write report parses back to the target, STOP flag and payload it was built from |
| Ft260Frames.WriteFrameFromParse | src/ft260.c:369-380 | every well-formed write report is the one built from what it parses to |
| Ft260Frames.ReadFrameRoundTrip | src/ft260.c:302-315 | a read request parses back to the target, STOP flag and 16-bit length it was built from |
| Ft260Frames.ReadFrameFromParse | src/ft260.c:302-315 | every well-formed read request is the one built from what it parses to |
| Ft260Driver.HidIo | src/ft260.c:100-118 | nothing reaches the chip through a negative descriptor; an output succeeds iff the setting is taken; an input succeeds iff the chip answers, and then the buffer holds the answer |
| Ft260Driver.GetStatus | src/ft260.c:132-147 | succeeds iff the descriptor is non-negative and the chip answers; then the status is reply byte 1 and the cached clock is bytes 2-3; on failure the clock is unchanged |
| Ft260Driver.GetSpeed | src/ft260.c:120-130 | succeeds exactly when the status request does, and then gives the clock just cached |
| Ft260Driver.SetSpeed | src/ft260.c:149-166 | keeps the descriptor and path; its verdict is stated by SetSpeedOkIff |
| Ft260Driver.SetSpeedOkIff | src/ft260.c:149-166 | set_speed succeeds iff the speed report is taken, the status request is answered and the clock reported back equals the one asked for |
| Ft260Driver.SetSpeedTraffic | src/ft260.c:149-166 | set_speed sends the speed report and then one status request, and caches the reported clock even when it differs |
| Ft260Driver.Reset | src/ft260.c:262-269 | succeeds iff the descriptor is non-negative and the reset setting is taken; only the setting script and log change |
| Ft260Driver.Stop | src/ft260.c:275-281 | the wait loop polls past exactly the replies before Stop, all answered without idle; the reply at Stop ends the loop |
| Ft260Driver.AfterPollsStep | src/ft260.c:275-281 | one more answered status request takes the device from k polls to k+1 polls |
| Ft260Driver.Wait | src/ft260.c:271-286 | wait succeeds iff the descriptor is open and the chip answers busy replies and then one with idle set; a negative descriptor fails with nothing sent |
| Ft260Driver.WaitStep | src/ft260.c:275-281 | one loop round: a failed status ends the wait in failure, an idle one in success, a busy one continues from k+1 polls |
| Ft260Driver.WaitTraffic | src/ft260.c:271-286 | a wait sends only status requests, one per busy reply and one for the reply that ends it |
| Ft260Driver.SysWrite | src/ft260.c:388 | write(2) on a negative descriptor fails without reaching the chip; otherwise the chip's result |
| Ft260Driver.SysRead | src/ft260.c:330 | read(2) on a negative descriptor fails without reaching the chip; otherwise the chip's result |
| Ft260Driver.Payload | src/ft260.c:380 | the bytes copied from the caller's buffer are exactly len long |
| Ft260Driver.I2cWrite | src/ft260.c:353-381 | a write through descriptor -1, with a null buffer and len > 0, or with len > 60 fails before any wait, status request or write |
| Ft260Driver.Transfer | src/ft260.c:383-392 | the transfer keeps the descriptor and path; its verdict is stated by TransferOkIff |
| Ft260Driver.FinalCheck | src/ft260.c:394-418 | the final check keeps the descriptor and path; its verdict is stated by FinalCheckOkIff |
| Ft260Driver.FinalCheckOkIff | src/ft260.c:394-418 | the final check succeeds iff the replies show idle after busy ones (its wait) and the next status has neither master busy nor error set (FinalAccepts) |
| Ft260Driver.TransferOkIff | src/ft260.c:383-418 | the transfer succeeds iff the first wait ends idle, write(2) takes exactly len+4 bytes, and the final check succeeds |
| Ft260Driver.WriteOkIff | src/ft260.c:353-419 | a write through an open handle that passes the argument checks succeeds iff the script makes both waits end idle, takes len+4 bytes and gives an accepted status |
| Ft260Driver.WriteNeedsOpenHandle | src/ft260.c:358-360 | a write through a negative descriptor fails and leaves the device unchanged |
| Ft260Driver.FinalCheckTraffic | src/ft260.c:394-401 | a successful final check sent only status requests: one per busy reply of its wait, one for the idle reply, then the final one |
| Ft260Driver.TransferTraffic | src/ft260.c:383-401 | a successful transfer sent the frame once. Before it went one status request per busy reply of the first wait and one for its idle reply. After it went the same for the second wait, then the final status request |
| Ft260Driver.WriteTraffic | src/ft260.c:369-401 | a successful write sent one report of len+4 bytes that parses back to the target, STOP flag and payload. The status requests of the two waits and the final status request surround it, exactly as in TransferTraffic |
| Ft260Driver.WritePayloadTraffic | src/ft260.c:369-401 | the same for a caller's buffer of exactly len bytes: the payload is at most 60 bytes, and the report sent parses back to it |
| Ft260Driver.I2cRead | src/ft260.c:288-344 | read returns false on every path; a read that fails its argument checks leaves the device unchanged |
| Ft260Driver.ReadTraffic | src/ft260.c:302-341 | a read sends the read request, which parses back to the target, STOP flag and length cut to 16 bits, then one read(2) of 64 bytes and one status request |
| Ft260Driver.Close | src/ft260.c:425-427 | closing a negative descriptor changes nothing; otherwise the chip is released |
| Ft260Driver.Create | src/ft260.c:168-193 | bring-up opens the caller's path, or the discovered one when the caller gives none; without a path, when the handle cannot be allocated, or when open fails, it returns no handle and leaves the chip untouched; a handle it returns holds the opened descriptor |
| Ft260Driver.Configure | src/ft260.c:195-207 | the raw name and raw info queries come next; a handle it returns keeps the descriptor and path |
| Ft260Driver.SetUp | src/ft260.c:209-259 | chip ID, system status, reset, I2C mode and speed query follow; a handle it returns keeps the descriptor and path |
| Ft260Driver.SetUpSucceeds | src/ft260.c:209-259 | a successful set-up made its five requests in order, left the device open and cached the clock of the third reply |
| Ft260Driver.CreateSucceeds | src/ft260.c:168-260 | a successful bring-up made all eight requests in source order and cached the clock from the final status reply |
| Ft260Driver.SetUpCleansUp | src/ft260.c:209-255 | a failed set-up step closes the descriptor as its last act, after the requests made so far |
| Ft260Driver.CreateCleansUp | src/ft260.c:168-255 | a failed bring-up either never opened the device, leaving the chip untouched, or opened it and closed it again as its last act |
| Ft260Register.RegisterPayload | src/ft260-register.c:12-16 | the register write payload is n+1 bytes: the register number, then the caller's n bytes |
| Ft260Register.WordPayload | src/ft260-register.c:56 | the word write payload is 3 bytes starting with the register number |
| Ft260Register.WordRoundTrip | src/ft260-register.c:51-56 | decoding bytes 1 and 2 of the word payload high byte first gives the value back |
| Ft260Register.WordPayloadOfBytes | src/ft260-register.c:51-56 | every pair of bytes is the encoding of the word it decodes to |
| Ft260Register.ReadRegN | src/ft260-register.c:5-8 | read_reg_n always fails; when its 1-byte register write fails, no read is issued |
| Ft260Register.ReadRegNAfterWrite | src/ft260-register.c:5-8 | after a successful register write, read_reg_n sends one read request for n bytes (cut to 16 bits) from the same target, with STOP |
| Ft260Register.WriteRegN | src/ft260-register.c:10-21 | write_reg_n fails with nothing sent when the temporary buffer cannot be allocated |
| Ft260Register.WriteRegNTooLong | src/ft260-register.c:10-21 | a register write of more than 59 bytes fails with nothing sent |
| Ft260Register.WriteRegNSends | src/ft260-register.c:10-21 | a successful write_reg_n sent one write report, with STOP, of the register number followed by the caller's n bytes |
| Ft260Register.ReadRegB | src/ft260-register.c:24-33 | read_reg_b always fails; with a null value pointer nothing is sent |
| Ft260Register.WriteRegB | src/ft260-register.c:35-39 | write_reg_b through a negative descriptor fails with nothing sent |
| Ft260Register.WriteRegBSends | src/ft260-register.c:35-39 | a successful write_reg_b sent exactly [reg, value] with STOP |
| Ft260Register.ReadRegW | src/ft260-register.c:41-53 | read_reg_w always fails; with a null value pointer nothing is sent |
| Ft260Register.WriteRegW | src/ft260-register.c:55-59 | write_reg_w through a negative descriptor fails with nothing sent |
| Ft260Register.WriteRegWSends | src/ft260-register.c:55-59 | a successful write_reg_w sent [reg, value >> 8, value & 0xFF] with STOP |
| Ft260Device.Device.constructor | src/ft260.c:185-193 | a new handle is zeroed (clock 0) and holds the opened descriptor and the path |
| Ft260Device.Device.HidIo | src/ft260.c:100-118 | the method yields the outcome, buffer and device state Ft260Driver.HidIo specifies |
| Ft260Device.Device.GetStatus | src/ft260.c:132-147 | the method succeeds, returns the status and updates the cached clock as Ft260Driver.GetStatus specifies |
| Ft260Device.Device.GetSpeed | src/ft260.c:120-130 | the method succeeds and returns the clock as Ft260Driver.GetSpeed specifies |
| Ft260Device.Device.SetSpeed | src/ft260.c:149-166 | the method's verdict and new state are those of Ft260Driver.SetSpeed |
| Ft260Device.Device.Reset | src/ft260.c:262-269 | the method's verdict and new state are those of Ft260Driver.Reset |
| Ft260Device.Device.Wait | src/ft260.c:271-286 | the polling loop ends with the verdict and state of the closed form Ft260Driver.Wait |
| Ft260Device.Device.SysWrite | src/ft260.c:388 | the method's result and new state are those of Ft260Driver.SysWrite |
| Ft260Device.Device.SysRead | src/ft260.c:330 | the method's result and new state are those of Ft260Driver.SysRead |
| Ft260Device.Device.Close | src/ft260.c:425-427 | the new state is that of Ft260Driver.Close |
| Ft260Device.Device.Read | src/ft260.c:288-344 | the method's verdict (always false) and new state are those of Ft260Driver.I2cRead, and the caller's buffer is unchanged |
| Ft260Device.Device.Write | src/ft260.c:353-381 | the method's verdict and new state are those of Ft260Driver.I2cWrite on the caller's buffer |
| Ft260Device.Device.Transfer | src/ft260.c:383-392 | the method's verdict and new state are those of Ft260Driver.Transfer |
| Ft260Device.Device.FinalCheck | src/ft260.c:394-418 | the method's verdict and new state are those of Ft260Driver.FinalCheck |
| Ft260Device.Device.ReadRegN | src/ft260-register.c:5-8 | the method's verdict and new state are those of Ft260Register.ReadRegN, and the caller's buffer is unchanged |
| Ft260Device.Device.WriteRegN | src/ft260-register.c:10-21 | the method's verdict and new state are those of Ft260Register.WriteRegN on the caller's buffer |
| Ft260Device.Device.ReadRegB | src/ft260-register.c:24-33 | the method's verdict and new state are those of Ft260Register.ReadRegB, and *value is unchanged |
| Ft260Device.Device.WriteRegB | src/ft260-register.c:35-39 | the method's verdict and new state are those of Ft260Register.WriteRegB |
| Ft260Device.Device.ReadRegW | src/ft260-register.c:41-53 | the method's verdict and new state are those of Ft260Register.ReadRegW, and *value is left as it was |
| Ft260Device.Device.WriteRegW | src/ft260-register.c:55-59 | the method's verdict and new state are those of Ft260Register.WriteRegW |
| Ft260Device.Device.Create | src/ft260.c:168-260 | the method returns a fresh handle exactly when Ft260Driver.Create does, in the same state, and leaves the chip as it does |
| Ft260Device.Handle.Destroy | src/ft260.c:421-434 | destroy returns false for a null handle; otherwise it closes the descriptor, nulls the handle and returns true |
| Ft260Device.DestroyTwice | src/ft260.c:421-434 | a second destroy of the same handle returns false |

## Left out

- Null `struct ft260_dev *` arguments: Dafny method receivers are never null, so the `!d` checks are modelled only in destroy (`Handle.dev` may be null).
- `ft260_get_hidpath` (udev enumeration) is a foreign library. Its result is the `located` parameter of `Create`.
- The `ioctl`, `open`, `write`, `read` and `close` system calls are replaced by the scripted `Chip`. `open`'s result, `calloc`'s success and the results of HIDIOCGRAWNAME/HIDIOCGRAWINFO are parameters of `Create`. The raw name and device info contents are not kept.
- `usleep` in the wait loop, and all `LOG`, `LOG_HEXDUMP` and `printf` output, including `ft260_bus_type_str`.
- `src/main.c`, `src/log.c` and `include/mgos_mock.h` are not part of this model.
- The memory `ft260_i2c_create` leaks on its early returns, and `free` of the handle and path.
- The third branch of `ft260_hid_io` (a direction that is neither input nor output) cannot be reached: `Direction` has only two values.
- Ft260Device.Device.Wait: the source's loop is unbounded. The model's loop ends because each round uses up a scripted reply, so a chip that stays busy forever is not modelled.
- Ft260Device.Device.GetStatus: on failure the header leaves `*status` unspecified. The method returns 0 there, and its contract says nothing about that value.
- Ft260Device.Device.GetSpeed: on failure the header leaves `*freq_khz` unspecified. The method returns 0 there, and its contract says nothing about that value.
- Ft260Device.Device.Write: requires the caller's buffer to hold at least `len` bytes, which the C code assumes without checking.
- Ft260Device.Device.WriteRegN: requires the caller's buffer to hold at least `n` bytes, and `n` to be 0 for a null buffer; the C `memcpy` assumes both. The overflow of `n + 1` in `calloc` for the largest `size_t` is not modelled.
- Ft260Device.Device.ReadRegW: `*value` is the `value` parameter (None for a null pointer) and its contents afterwards are `result`.
- The `status` that `ft260_i2c_read` logs after a failed status request is uninitialised in C; it is only logged, so it is not modelled.
