# dslink: a verified model of the DualSense report codec

`dslink` is a Pure Data external that talks to a DualSense game controller
over hidapi. This project models its core, from `dslink.c`, in Dafny:

- **CRC-32** (`crc32.dfy`). The reflected CRC-32 authenticates Bluetooth
  output reports: polynomial 0xEDB88320, register starting at 0xFFFFFFFF,
  complemented at the end. The driver's table generator and its table-driven
  loop are proved to compute the bit-at-a-time definition.
- **Input decoding** (`input_report.dfy`). Each input report becomes a fixed
  sequence of `output_value` calls. The decoder reads:
  - button bits;
  - the d-pad nibble;
  - big-endian 16-bit sensor words, sign-extended;
  - 12-bit touch coordinates split across nibbles;
  - battery nibbles and headset bits.
- **The change filter** (`change_filter.dfy`). `output_value` stores a value
  and sends it when it differs from the stored one or when filtering is off.
  The outlets become one log of messages.
- **The output buffer** (`output_report.dfy`). `write_buf` is a class over a
  79-byte array. It covers:
  - priming by `do_open` after the link type is classified;
  - the fixed indices the effect setters write;
  - the CRC trailer, and the Bluetooth and USB frames `do_write` sends.
- **The object** (`session.dfy`). `t_dslink` is a class holding:
  - the device handle and the link type;
  - the pending-write size `write_size`;
  - both buffers, the decoded state and the frames sent.
  Its methods are the message handlers and `do_open`, `do_write` and
  `parse_input_report`.

`bits.dfy` holds the machine-word arithmetic:
- bytes and the 32-bit CRC register are bounded naturals;
- `>>` is division by a power of two, and `&` with a low mask is a remainder;
- `~` on 32 bits is `0xFFFFFFFF - x`;
- exclusive or is a recursive function on naturals;
- `|` of operands whose bits do not overlap is `+`.

The driver's float values are modelled as exact rationals, in the driver's
scaling:
- sticks divided by 128;
- triggers by 255;
- sensors by 8192;
- touch positions by 1920 and 1080.

No two of these values round to the same single-precision float unless they
are equal. For sensors and sticks the division is by a power of two on at
most 16 bits, so it is exact. For triggers and touch positions, any two
different values differ by far more than a float's spacing below 4. So the
filter's exact float comparison is modelled by rational equality, also where
the driver compares values of different scales in one state member.

Two behaviours of the code that the model keeps:
- When the probe read returns a length other than 78, 10 or 64, `do_open`
  still returns 1, and the link type stays what it was (dslink.c:354-375).
- Index 2 of `write_buf` is zeroed by the `memset` in `do_open` and never
  written again, so every Bluetooth frame carries 0 in that byte.

## Model

| member | source | states |
|---|---|---|
| Crc32.GenerateCrc32Table | dslink.c:405-413 | fills all 256 entries with the byte value shifted through eight reflected steps of polynomial 0xEDB88320 |
| Crc32.TableByteIsBitwise | dslink.c:415-421 | one table step `(crc >> 8) ^ table[(crc & 0xFF) ^ b]` equals feeding byte `b` one bit at a time |
| Crc32.BitStep | dslink.c:409 | a register with a clear low bit is only shifted right by one |
| Crc32.TableByte | dslink.c:418 | one table step keeps a 32-bit register a 32-bit value |
| Crc32.Crc32Of | dslink.c:415-421 | the complemented register is a 32-bit value |
| Crc32.Crc32 | dslink.c:415-421 | the table-driven CRC of the first `len` bytes equals the bit-at-a-time reflected CRC-32 with initial register 0xFFFFFFFF and final complement |
| Crc32.Register | dslink.c:415-421 | the bit-at-a-time register stays a 32-bit value after every byte |
| Crc32.EmptyMessage | dslink.c:415-421 | the CRC of no bytes is 0 |
| Crc32.StepsLinear | dslink.c:405-413 | the bit steps distribute over exclusive or, which is why a per-byte table suffices |
| ChangeFilter.OutputValue | dslink.c:393-403 | afterwards the member holds the new value and no other member changes; exactly one message is sent iff the stored value differs or filtering is off, and it is the new value with its path |
| ChangeFilter.RepeatIsSilent | dslink.c:393-403 | with filtering on, sending the same value again sends nothing and changes nothing |
| ChangeFilter.Publish | dslink.c:423-553 | after a run of `output_value` calls each member holds the last value given to it, the log only grows, by at most one message per call, and with filtering off it grows by every call's message in order |
| ChangeFilter.PublishAppend | dslink.c:423-553 | running two sequences of calls one after the other is running their concatenation |
| ChangeFilter.RepublishIsSilent | dslink.c:393-403 | when every call writes its own member, running the same calls again with filtering on sends nothing and changes nothing |
| ChangeFilter.SharedSlotRepeats | dslink.c:512-517 | when several calls of a run share a member and the first and last give it different values, running it again with filtering on sends messages again |
| InputReport.ReportOffset | dslink.c:424 | fields start at offset 2 over Bluetooth and 1 over USB |
| InputReport.Flag | dslink.c:439-453 | a button is 1 exactly when its bit is set, else 0 |
| InputReport.FaceButtonsRoundTrip | dslink.c:439-442 | any d-pad nibble and four face buttons packed into byte 7 decode to themselves from bits 4-7 and the low nibble |
| InputReport.ShoulderButtonsRoundTrip | dslink.c:443-450 | any eight buttons packed into a byte decode to themselves bit by bit |
| InputReport.TopBit | dslink.c:439 | testing `& 0x80` is testing that the byte is at least 128 |
| InputReport.DPad | dslink.c:456-467 | both axes lie in {-1,0,1}, and the d-pad reads centred exactly for nibbles 8-15 |
| InputReport.DPadIsClockwise | dslink.c:456-467 | nibbles 0-7 are the eight directions from up, each an eighth of a turn clockwise from the last, 7 wrapping to 0 |
| InputReport.Word16 | dslink.c:472 | the byte at the lower index is the high byte of the sensor word |
| InputReport.SignExtend16 | dslink.c:476 | the sign extension lies in [-32768, 32767] and agrees with the raw word modulo 65536 |
| InputReport.SensorRoundTrip | dslink.c:472-478 | every signed 16-bit reading sent high byte first decodes to itself |
| InputReport.SensorBytesRoundTrip | dslink.c:472-478 | every two sensor bytes are the encoding of the reading they decode to |
| InputReport.SensorInjective | dslink.c:472-491 | two sensor byte pairs give equal scaled readings exactly when they are equal |
| InputReport.Sensor | dslink.c:476-478 | a scaled sensor reading lies in [-4, 4) |
| InputReport.StickAxis | dslink.c:427-432 | a scaled stick axis lies in [-1, 1) |
| InputReport.TouchActive | dslink.c:504 | a touch point is active exactly when the first byte is below 128, that is bit 7 is clear |
| InputReport.TouchPoint | dslink.c:497-522 | each touch point sends its active flag first, 1 or 0; only an active point then sends x and y, into the members it is given, with values in [0, 4) |
| InputReport.TouchX | dslink.c:509 | a touch x coordinate is below 4096 |
| InputReport.TouchY | dslink.c:510 | a touch y coordinate is below 4096 |
| InputReport.TouchRoundTrip | dslink.c:509-510 | any 12-bit x and y packed into the three touch bytes decode to themselves |
| InputReport.TouchBytesRoundTrip | dslink.c:509-510 | every three touch bytes are the packing of the coordinates they decode to |
| InputReport.BatteryLevelOf | dslink.c:525-526 | the battery level is the low nibble, in 0..15 |
| InputReport.BatteryStatusOf | dslink.c:533-540 | a known status is the one whose nibble is the high nibble of the battery byte |
| InputReport.BatteryRoundTrip | dslink.c:525-540 | any level with a known status packed into the battery byte decodes to both |
| InputReport.UnknownStatus | dslink.c:533-540 | the status is unknown exactly when the high nibble is not 0, 1, 2, 0xA or 0xB |
| InputReport.StatusCodesDistinct | dslink.c:100-107 | the six statuses are sent as distinct codes 0..5 |
| InputReport.InputFields | dslink.c:423-553 | the corrected decoder: the first touch point's active flag is written only by its `active` message |
| InputReport.InputFieldsAsWritten | dslink.c:423-553 | the decoder as written: no call writes the first touch point's x or y member |
| InputReport.TouchOneActiveOnlyFromFlag | dslink.c:497-522 | with touch point 1 storing into its own members, only the `active` message writes its active flag |
| InputReport.TouchOnePositionNeverStored | dslink.c:512-517 | as written, touch point 1's x and y messages store into the active flag, never into `touch1.x` or `touch1.y` |
| InputReport.InputFieldsDistinct | dslink.c:423-553 | the corrected decoder writes every state member at most once per report |
| InputReport.RereadIsSilent | dslink.c:497-522 | decoding the same report again with filtering on sends nothing and changes nothing |
| InputReport.AsWrittenRereadRepeats | dslink.c:512-517 | as written, while touch point 1 is active anywhere but at y = 1080, decoding the same report again with filtering on sends messages again |
| OutputReport.LinkOf | dslink.c:354-363 | a probe length of 78 or 10 means Bluetooth, 64 means USB, anything else is undetermined |
| OutputReport.PrimedContents | dslink.c:350-368 | the primed buffer holds salt 0xA2, report id 0x31, the link byte at 3, 0xFF at 4, 5 and 9, 1 at 42, and zero everywhere else |
| OutputReport.LittleEndianRoundTrip | dslink.c:314-317 | an n-byte value written little-endian reads back as itself |
| OutputReport.ChecksumRoundTrip | dslink.c:314-317 | the four trailer bytes read back as the CRC |
| OutputReport.Checksummed | dslink.c:312-317 | appending the CRC keeps indices 0..74 |
| OutputReport.BluetoothFrame | dslink.c:319-320 | the Bluetooth frame is 78 bytes |
| OutputReport.UsbFrame | dslink.c:322-323 | the USB frame is 48 bytes |
| OutputReport.SentFrame | dslink.c:311-324 | `do_write` sends 78 bytes over Bluetooth and 48 over USB; the Bluetooth frame carries buffer indices 1..74 unchanged before its CRC, and the USB frame is indices 3..50 |
| OutputReport.BluetoothFrameChecks | dslink.c:310-320 | the last four bytes of a Bluetooth frame are, little-endian, the CRC-32 of the salt followed by the rest of the frame |
| OutputReport.PrimedFramesStartWithReportId | dslink.c:350-360 | a primed Bluetooth frame starts with 0x31 and carries the flags 0x10, and a primed USB frame starts with report id 0x02 |
| OutputReport.EffectBytesAreSent | dslink.c:80-96 | every index an effect setter writes lies in the USB window and the CRC-covered range, and its byte appears in both frames |
| OutputReport.MotorOffset | dslink.c:221 | `right` selects index 6, every other symbol index 7 |
| OutputReport.TriggerOffset | dslink.c:281 | `left` selects the block at 13, every other symbol the block at 24 |
| OutputReport.RegisteredTriggerIsRight | dslink.c:276-287 | with the message name as the symbol, the left trigger block is never selected |
| OutputReport.LowByte | dslink.c:245-247 | an integer argument stored as a byte is its value modulo 256 |
| OutputReport.BrightnessByte | dslink.c:250-252 | player LED brightness is 1 exactly when the byte is zero, else 0 |
| OutputReport.PlayerMask | dslink.c:255-257 | the player mask is the low five bits of the argument |
| OutputReport.ColorBytes | dslink.c:262-268 | red defaults to 0, and a missing green or blue repeats red |
| OutputReport.LedEffect | dslink.c:233-274 | an `led` message sets the byte or bytes its command selects to what the command computes, and changes no other index; an unknown command changes nothing |
| OutputReport.WriteBuffer.constructor | dslink.c:137 | a new buffer is 79 zero bytes |
| OutputReport.WriteBuffer.Put | dslink.c:222 | storing one byte changes that index and no other |
| OutputReport.WriteBuffer.PutRange | dslink.c:283-285 | copying values byte by byte replaces exactly that range |
| OutputReport.WriteBuffer.Prime | dslink.c:350-368 | clearing and priming leaves exactly the primed contents for the link |
| OutputReport.WriteBuffer.AppendChecksum | dslink.c:312-317 | the trailer becomes the little-endian CRC of indices 0..74, and nothing else changes |
| Session.ArmedSize | dslink.c:202 | a write is armed with 78 bytes over Bluetooth and 48 over USB |
| Session.Arm | dslink.c:198-204 | arming leaves a pending write as it is and otherwise arms a whole report |
| Session.ArmAbsorbs | dslink.c:198-204 | a second request while a write is pending is absorbed |
| Session.ArmedSizeIsFrameLength | dslink.c:318-324 | the armed size is the length of the frame `do_write` sends |
| Session.Received | dslink.c:178 | a read overwrites the front of the read buffer with the delivered bytes and keeps the rest |
| Session.Dslink.constructor | dslink.c:580-598 | a new object has no device, no pending write, a zeroed state and nothing sent |
| Session.Dslink.Close | dslink.c:206-214 | the device handle is dropped; the link type, the pending write, the decoded state and the frames sent are kept |
| Session.Dslink.Write | dslink.c:198-204 | `write_size` becomes the armed size unless a write is pending |
| Session.Dslink.DoWrite | dslink.c:302-330 | with no device or no pending write nothing happens; otherwise the link's frame is sent (checksummed over Bluetooth) and the pending write is cleared, whatever the send returns |
| Session.Dslink.SetMotor | dslink.c:216-224 | with a device, only the chosen motor byte changes and a write is armed |
| Session.Dslink.Configure | dslink.c:226-231 | only index 42 changes, with or without a device, and no write is armed |
| Session.Dslink.SetLed | dslink.c:233-274 | with a device, the buffer becomes the LED effect of the command and a write is armed, also for an unknown command |
| Session.Dslink.SetTrigger | dslink.c:276-287 | with a device and 11 values, exactly the chosen 11-byte trigger block is replaced and a write is armed; more values are refused |
| Session.Dslink.Receive | dslink.c:178 | the read buffer becomes the delivered bytes over the old contents |
| Session.Dslink.ParseInputReport | dslink.c:423-554 | the decoded state and log are those of the report's run of `output_value` calls, with touch point 1 decoded into its own members (the corrected decoder) |
| Session.Dslink.Read | dslink.c:172-189 | without a device or on a failed read nothing changes; otherwise the buffer is decoded by the corrected decoder with filtering on, also when no new report arrived |
| Session.Dslink.State | dslink.c:289-297 | a read, then the whole buffer decoded again by the corrected decoder with filtering off, even after a failed read |
| Session.Dslink.DoOpen | dslink.c:332-376 | reports success exactly when a device is found; classifies the link (an undetermined probe keeps the previous type), primes the buffer, sends it at once, clears the pending write and then sets index 5 to 0xF7 |

## Left out

- hidapi calls are foreign I/O and are not modelled. Their results are parameters instead: whether `hid_open` found a device, the length a read returned and its bytes. This covers `hid_open`, `hid_read`, `hid_read_timeout`, `hid_send_output_report`, `hid_set_nonblocking`, `hid_close` and `hid_exit`.
- A send's result is not modelled: every frame handed to `hid_send_output_report` is logged, and `do_write` clears the pending write either way.
- A failed read (negative result) is taken to leave the read buffer as it was.
- The calibration feature report is requested but never decoded (dslink.c:339-345). It is not modelled.
- The Pd clocks belong to the host scheduler: `dslink_poll`, `poll_tick`, `open_tick`, the 200 ms open retry, `dslink_open` and scheduling the write clock. `Write` only arms `write_size`, and `DoWrite` is what the write clock runs.
- Outlet, atom and `gensym` construction inside `output_value` belongs to the host messaging. Each message is a log entry of outlet, path and value, and a symbol comparison is string equality.
- Session.Dslink.ParseInputReport: decodes with the corrected `InputFields` of the first Findings row, not with `InputFieldsAsWritten`. In the driver, touch point 1's x and y are compared with and stored into `touch1.active` (dslink.c:515, 517). The model does not reproduce the messages that follow from this; `InputReport.AsWrittenRereadRepeats` states their effect on a reread.
- Session.Dslink.Read: decodes with the corrected `InputFields`, for the same reason as `ParseInputReport`.
- Session.Dslink.State: decodes with the corrected `InputFields` both times, for the same reason as `ParseInputReport`.
- Session.Dslink.SetMotor: takes the motor byte; the float conversion `(unsigned char)(value * 255)` is not modelled.
- Session.Dslink.Configure: takes the byte; the float conversion `(unsigned char)f` is not modelled.
- Session.Dslink.SetTrigger: takes the 11 values as bytes (the float conversion is not modelled), and requires at least 11 of them. With fewer, the driver reads past its argument list, which has no defined result.
- Session.Dslink.SetLed: the colour channels are given as bytes. The fifth argument, the brightness the driver multiplies each byte by (dslink.c:266-271), is not modelled. The model is the driver with brightness 1, its default.
- Session.Dslink.SetLed: the integer arguments are taken after the driver's float-to-int conversion.
- Decoded values are exact rationals standing for single-precision floats. The introduction argues that equality is unaffected; the rounding itself is not modelled.
- Crc32.Crc32: the check value 0xCBF43926 for the nine bytes "123456789" is not stated. Evaluating the bit-at-a-time definition on a nine-byte literal needs more unfolding than the verifier performs. The CRC is proved equal to that definition for all inputs, and the empty message is shown to give 0.
- `dslink_free`, `dslink_setup`, `post`, `pd_error` and version printing are lifecycle and logging glue. The table `dslink_setup` generates is `GenerateCrc32Table`'s, and the object's constructor takes it.

## Findings

| source | as written | input that shows it | evidently intended | confidence | as-written member | corrected member |
|---|---|---|---|---|---|---|
| dslink.c:512-517 | for touch point 1, the x and y messages are compared with and stored into `touch1.active` | touch point 1 active at any y but 1080, the same report decoded twice with filtering on: the second pass sends the touch messages again, because the stored flag holds y/1080 and the active message carries 1 | x and y compared with and stored into `touch1.x` and `touch1.y`, as for touch point 2 | high, not executed | InputReport.AsWrittenRereadRepeats | InputReport.RereadIsSilent |
| dslink.c:276-287 | `dslink_set_trigger` picks the left block when its symbol parameter is `left`, but it is registered as a `trigger` method taking a list (dslink.c:622), so that parameter is always the message name `trigger` | the message `trigger left` followed by 11 values: with 12 arguments it is refused, and without the side only the right block is ever written | the side taken from the message, `trigger left` or `trigger right` followed by 11 values | medium, not executed | OutputReport.RegisteredTriggerIsRight | Session.Dslink.SetTrigger |
