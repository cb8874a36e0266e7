/**
 * The external object `t_dslink`: its device handle, the connection type,
 * the pending-write size, the input and output report buffers, and the
 * decoded state with everything sent to the outlets.
 *
 * The HID calls are parameters: whether opening found a device, how many
 * bytes a read returned and which bytes they were. What is handed to the
 * device is recorded in `sent`, one frame per send, whether or not the
 * send succeeds. The Pd clocks are left to the caller: `Write` arms a
 * write and `DoWrite` is what the write clock runs.
 */
module Session {
  import opened Bits
  import opened Crc32
  import opened ChangeFilter
  import opened InputReport
  import opened OutputReport

  /** The `write_size` a write is armed with: one whole report for the link. */
  function ArmedSize(isBluetooth: bool): (n: nat)
    ensures isBluetooth <==> n == BluetoothReportSize
    ensures n == BluetoothReportSize || n == UsbReportSize
  {
    if isBluetooth then BluetoothReportSize else UsbReportSize
  }

  /** `dslink_write`: arm a write unless one is already pending. */
  function Arm(writeSize: int, isBluetooth: bool): (w: int)
    ensures w != 0
    ensures writeSize != 0 ==> w == writeSize
    ensures writeSize == 0 ==> w == ArmedSize(isBluetooth)
  {
    if writeSize != 0 then writeSize else ArmedSize(isBluetooth)
  }

  /** At most one write is pending: arming again is absorbed. */
  lemma ArmAbsorbs(writeSize: int, isBluetooth: bool)
    ensures Arm(Arm(writeSize, isBluetooth), isBluetooth) == Arm(writeSize, isBluetooth)
  {
  }

  /** The armed size is the length of the frame `do_write` sends. */
  lemma ArmedSizeIsFrameLength(isBluetooth: bool, contents: seq<Byte>)
    requires |contents| == BufferSize
    ensures |SentFrame(isBluetooth, contents)| == ArmedSize(isBluetooth)
  {
  }

  /** The read buffer after a read that returned `incoming`: the report's
      bytes over the front, the rest as it was. */
  function Received(readBuf: seq<Byte>, incoming: seq<Byte>): (r: seq<Byte>)
    requires |incoming| <= |readBuf|
    ensures |r| == |readBuf|
    ensures r[..|incoming|] == incoming && r[|incoming|..] == readBuf[|incoming|..]
  {
    incoming + readBuf[|incoming|..]
  }

  /** The bytes a read that returned `res` delivered: none when it failed or
      found no report. */
  predicate Delivered(res: int, incoming: seq<Byte>) {
    res <= InputReportSize && |incoming| == (if res > 0 then res else 0)
  }

  class Dslink {
    var hasHandle: bool
    var isBluetooth: bool
    var writeSize: int
    var outputs: Outputs
    var sent: seq<seq<Byte>>
    const writeBuf: WriteBuffer
    const readBuf: array<Byte>
    const table: array<nat>

    ghost predicate Valid()
      reads this, writeBuf, readBuf, table
    {
      writeBuf.Valid() && readBuf.Length == InputReportSize && readBuf != writeBuf.bytes
      && IsCrcTable(table) && table as object != writeBuf.bytes && table as object != readBuf
      && (writeSize == 0 || writeSize == ArmedSize(isBluetooth))
    }

    /** The connection and what was sent or emitted are as they were. */
    twostate predicate SessionKept()
      reads this
    {
      hasHandle == old(hasHandle) && isBluetooth == old(isBluetooth)
      && outputs == old(outputs) && sent == old(sent)
    }

    /** `dslink_new`: no device, nothing pending, the state zeroed. The CRC
        table is the one `dslink_setup` generated. */
    constructor (table: array<nat>)
      requires IsCrcTable(table)
      ensures Valid() && fresh(writeBuf) && fresh(writeBuf.bytes) && fresh(readBuf)
      ensures this.table == table
      ensures !hasHandle && !isBluetooth && writeSize == 0
      ensures outputs == Initial && sent == []
      ensures writeBuf.Contents() == seq(BufferSize, i => 0)
      ensures readBuf[..] == seq(InputReportSize, i => 0)
    {
      this.table := table;
      writeBuf := new WriteBuffer();
      readBuf := new Byte[InputReportSize](i => 0);
      hasHandle := false;
      isBluetooth := false;
      writeSize := 0;
      outputs := Initial;
      sent := [];
    }

    /** `dslink_close`. */
    method Close()
      requires Valid()
      modifies this
      ensures Valid() && !hasHandle
      ensures isBluetooth == old(isBluetooth) && writeSize == old(writeSize)
      ensures outputs == old(outputs) && sent == old(sent)
    {
      hasHandle := false;
    }

    /** `dslink_write`. */
    method Write()
      requires Valid()
      modifies this
      ensures Valid() && SessionKept()
      ensures writeSize == Arm(old(writeSize), isBluetooth)
    {
      if writeSize != 0 {
        return;
      }
      writeSize := ArmedSize(isBluetooth);
    }

    /** `do_write`: refuse without a device or a pending write; otherwise
        checksum the Bluetooth report, send the link's frame and clear the
        pending write, whatever the send returns. */
    method DoWrite()
      requires Valid()
      modifies this, writeBuf.bytes
      ensures Valid()
      ensures hasHandle == old(hasHandle) && isBluetooth == old(isBluetooth) && outputs == old(outputs)
      ensures old(!hasHandle || writeSize == 0) ==>
        writeSize == old(writeSize) && sent == old(sent) && writeBuf.Contents() == old(writeBuf.Contents())
      ensures old(hasHandle && writeSize != 0) ==>
        writeSize == 0 && sent == old(sent) + [SentFrame(isBluetooth, old(writeBuf.Contents()))]
        && writeBuf.Contents() == if isBluetooth then Checksummed(old(writeBuf.Contents())) else old(writeBuf.Contents())
    {
      if !hasHandle || writeSize == 0 {
        return;
      }
      var frame;
      if isBluetooth {
        writeBuf.AppendChecksum(table);
        frame := writeBuf.bytes[BluetoothFrameStart..];
      } else {
        frame := writeBuf.bytes[UsbFrameStart..UsbFrameStart + UsbReportSize];
      }
      sent := sent + [frame];
      writeSize := 0;
    }

    /** `dslink_set_motor`: one motor byte, then arm a write. */
    method SetMotor(side: string, v: Byte)
      requires Valid()
      modifies this, writeBuf.bytes
      ensures Valid() && SessionKept()
      ensures !old(hasHandle) ==> writeSize == old(writeSize) && writeBuf.Contents() == old(writeBuf.Contents())
      ensures old(hasHandle) ==>
        writeSize == Arm(old(writeSize), isBluetooth)
        && writeBuf.Contents() == old(writeBuf.Contents())[MotorOffset(side) := v]
    {
      if !hasHandle {
        return;
      }
      writeBuf.Put(MotorOffset(side), v);
      Write();
    }

    /** `dslink_configure`: writes the configure byte whether or not a device
        is open, and arms no write. */
    method Configure(v: Byte)
      requires Valid()
      modifies writeBuf.bytes
      ensures Valid()
      ensures writeBuf.Contents() == old(writeBuf.Contents())[ConfigureLedMotors := v]
    {
      writeBuf.Put(ConfigureLedMotors, v);
    }

    /** `dslink_set_led`: the LED bytes the command selects, then arm a
        write, also for a command it does not know. */
    method SetLed(cmd: LedCommand)
      requires Valid()
      modifies this, writeBuf.bytes
      ensures Valid() && SessionKept()
      ensures !old(hasHandle) ==> writeSize == old(writeSize) && writeBuf.Contents() == old(writeBuf.Contents())
      ensures old(hasHandle) ==>
        writeSize == Arm(old(writeSize), isBluetooth)
        && writeBuf.Contents() == LedEffect(old(writeBuf.Contents()), cmd)
    {
      if !hasHandle {
        return;
      }
      match cmd {
        case MuteCommand(v) =>
          writeBuf.Put(MuteLed, LowByte(v));
        case BrightnessCommand(v) =>
          writeBuf.Put(PlayerLedsBrightness, BrightnessByte(v));
        case PlayersCommand(v) =>
          writeBuf.Put(PlayerLeds, PlayerMask(v));
        case ColorCommand(channels) =>
          var rgb := ColorBytes(channels);
          writeBuf.Put(LedRed, rgb.0);
          writeBuf.Put(LedGreen, rgb.1);
          writeBuf.Put(LedBlue, rgb.2);
        case OtherCommand =>
      }
      Write();
    }

    /** `dslink_set_trigger`: refuse without a device or with more than 11
        values; otherwise copy the 11 values into the chosen trigger's block
        and arm a write. The side is given by the caller. */
    method SetTrigger(side: string, values: seq<Byte>)
      requires Valid() && |values| >= TriggerLength
      modifies this, writeBuf.bytes
      ensures Valid() && SessionKept()
      ensures !(old(hasHandle) && |values| == TriggerLength) ==>
        writeSize == old(writeSize) && writeBuf.Contents() == old(writeBuf.Contents())
      ensures old(hasHandle) && |values| == TriggerLength ==>
        var at := TriggerOffset(side);
        writeSize == Arm(old(writeSize), isBluetooth)
        && writeBuf.Contents() == old(writeBuf.Contents())[..at] + values + old(writeBuf.Contents())[at + TriggerLength..]
    {
      if !hasHandle || |values| > TriggerLength {
        return;
      }
      writeBuf.PutRange(TriggerOffset(side), values);
      Write();
    }

    /** The read part of `hid_read`: the delivered bytes over the front of
        the read buffer. */
    method Receive(incoming: seq<Byte>)
      requires Valid() && |incoming| <= InputReportSize
      modifies readBuf
      ensures readBuf[..] == Received(old(readBuf[..]), incoming)
    {
      forall i | 0 <= i < |incoming| {
        readBuf[i] := incoming[i];
      }
    }

    /** `parse_input_report`: one `output_value` per field of the report in
        the read buffer, decoded with the first touch point's values in its
        own members (`InputFields`, not `InputFieldsAsWritten`). */
    method ParseInputReport(filter: bool)
      requires Valid()
      modifies this
      ensures Valid() && hasHandle == old(hasHandle) && isBluetooth == old(isBluetooth)
      ensures writeSize == old(writeSize) && sent == old(sent)
      ensures outputs == Publish(old(outputs), InputFields(readBuf[..], isBluetooth), filter)
    {
      outputs := Publish(outputs, InputFields(readBuf[..], isBluetooth), filter);
    }

    /** `dslink_read`: refuse without a device or when the read fails;
        otherwise decode the buffer with filtering on, also when the read
        found no new report. */
    method Read(res: int, incoming: seq<Byte>) returns (ok: bool)
      requires Valid() && Delivered(res, incoming)
      modifies this, readBuf
      ensures Valid() && hasHandle == old(hasHandle) && isBluetooth == old(isBluetooth)
      ensures writeSize == old(writeSize) && sent == old(sent)
      ensures ok <==> old(hasHandle) && res >= 0
      ensures !ok ==> outputs == old(outputs) && readBuf[..] == old(readBuf[..])
      ensures ok ==>
        readBuf[..] == Received(old(readBuf[..]), incoming)
        && outputs == Publish(old(outputs), InputFields(readBuf[..], isBluetooth), true)
    {
      if !hasHandle || res < 0 {
        return false;
      }
      Receive(incoming);
      ParseInputReport(true);
      ok := true;
    }

    /** `dslink_state`: a read, then the whole buffer once more with
        filtering off, even when the read failed. */
    method State(res: int, incoming: seq<Byte>)
      requires Valid() && Delivered(res, incoming)
      modifies this, readBuf
      ensures Valid() && hasHandle == old(hasHandle) && isBluetooth == old(isBluetooth)
      ensures writeSize == old(writeSize) && sent == old(sent)
      ensures !old(hasHandle) ==> outputs == old(outputs) && readBuf[..] == old(readBuf[..])
      ensures old(hasHandle) ==>
        var fields := InputFields(readBuf[..], isBluetooth);
        readBuf[..] == (if res >= 0 then Received(old(readBuf[..]), incoming) else old(readBuf[..]))
        && outputs == Publish(if res >= 0 then Publish(old(outputs), fields, true) else old(outputs), fields, false)
    {
      if !hasHandle {
        return;
      }
      var _ := Read(res, incoming);
      ParseInputReport(false);
    }

    /** `do_open`: find the device, probe the connection type, prime the
        output buffer, send it at once, and release the LED for the next
        report. Reports success whenever a device was found, also when the
        connection type could not be determined; then the previous type is
        kept. */
    method DoOpen(found: bool, probeRes: int, incoming: seq<Byte>) returns (ok: bool)
      requires Valid() && Delivered(probeRes, incoming)
      modifies this, readBuf, writeBuf.bytes
      ensures Valid()
      ensures ok == found && hasHandle == found && outputs == old(outputs)
      ensures !found ==>
        isBluetooth == old(isBluetooth) && writeSize == old(writeSize) && sent == old(sent)
        && readBuf[..] == old(readBuf[..]) && writeBuf.Contents() == old(writeBuf.Contents())
      ensures found ==>
        var link := LinkOf(probeRes);
        var primed := PrimedContents(link);
        isBluetooth == (if link == UnknownLink then old(isBluetooth) else link == BluetoothLink)
        && readBuf[..] == Received(old(readBuf[..]), incoming)
        && writeSize == 0
        && sent == old(sent) + [SentFrame(isBluetooth, primed)]
        && writeBuf.Contents() == (if isBluetooth then Checksummed(primed) else primed)[5 := Configure2LedReleased]
    {
      hasHandle := found;
      if !found {
        return false;
      }
      Receive(incoming);
      var link := LinkOf(probeRes);
      if link == BluetoothLink {
        isBluetooth := true;
      } else if link == UsbLink {
        isBluetooth := false;
      }
      writeBuf.Prime(link);
      writeSize := ArmedSize(isBluetooth);
      DoWrite();
      writeBuf.Put(5, Configure2LedReleased);
      ok := true;
    }
  }
}
