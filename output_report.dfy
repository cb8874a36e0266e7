/**
 * The output report buffer (`write_buf`) and the frames sent from it.
 *
 * The buffer holds the Bluetooth output report with the CRC salt byte
 * prepended: index 0 is the salt 0xA2, index 1 the Bluetooth report id,
 * index 2 a sequence byte that is never advanced, and indices 75..78 the
 * CRC-32 trailer. Over USB only indices 3..50 are sent, index 3 then
 * holding the USB report id. The effect setters write fixed indices.
 */
module OutputReport {
  import opened Bits
  import opened Crc32

  const BufferSize := 79           // Bluetooth report plus the salt byte
  const BluetoothReportSize := 78
  const UsbReportSize := 48
  const CheckedSize := 75          // salt and report, without the CRC
  const BluetoothFrameStart := 1   // skip the salt
  const UsbFrameStart := 3         // skip salt, Bluetooth id and sequence byte

  const Salt: Byte := 0xA2
  const BluetoothReportId: Byte := 0x31
  const UsbReportId: Byte := 0x02
  const BluetoothFlags: Byte := 0x10
  const Configure1: Byte := 0xFF
  const Configure2: Byte := 0xFF
  const Configure2LedReleased: Byte := 0xF7
  const Configure3: Byte := 0xFF

  const MotorRight := 6
  const MotorLeft := 7
  const MuteLed := 12
  const LeftTrigger := 13
  const RightTrigger := 24
  const TriggerLength := 11
  const ConfigureLedMotors := 42
  const PlayerLedsBrightness := 46
  const PlayerLeds := 47
  const LedRed := 48
  const LedGreen := 49
  const LedBlue := 50

  /** How the controller is connected, as the length of a probe read tells. */
  datatype Link = BluetoothLink | UsbLink | UnknownLink

  /** A full (78) or short (10) Bluetooth input report means Bluetooth, a
      64-byte report means USB; anything else, including a failed read,
      leaves the connection undetermined. */
  function LinkOf(probeLength: int): (l: Link)
    ensures l == BluetoothLink <==> probeLength == 78 || probeLength == 10
    ensures l == UsbLink <==> probeLength == 64
  {
    if probeLength == 78 || probeLength == 10 then BluetoothLink
    else if probeLength == 64 then UsbLink
    else UnknownLink
  }

  /** What index 3 holds for each link: Bluetooth flags, the USB report id,
      or nothing. */
  function LinkByte(l: Link): Byte {
    match l
    case BluetoothLink => BluetoothFlags
    case UsbLink => UsbReportId
    case UnknownLink => 0
  }

  /** The buffer as `do_open` prepares it before the priming write. */
  function PrimedContents(l: Link): (c: seq<Byte>)
    ensures |c| == BufferSize
    ensures c[0] == Salt && c[1] == BluetoothReportId && c[3] == LinkByte(l)
    ensures c[4] == Configure1 && c[5] == Configure2 && c[9] == Configure3 && c[ConfigureLedMotors] == 1
    ensures forall i :: 0 <= i < BufferSize && i !in {0, 1, 3, 4, 5, 9, ConfigureLedMotors} ==> c[i] == 0
  {
    seq(BufferSize, i =>
      if i == 0 then Salt
      else if i == 1 then BluetoothReportId
      else if i == 3 then LinkByte(l)
      else if i == 4 then Configure1
      else if i == 5 then Configure2
      else if i == 9 then Configure3
      else if i == ConfigureLedMotors then 1
      else 0)
  }

  /** Bytes `(c >> 8k) & 0xFF` for k below `n`: `c` little-endian. */
  function LittleEndian(c: nat, n: nat): (r: seq<Byte>)
    ensures |r| == n
    decreases n
  {
    if n == 0 then [] else [c % 256] + LittleEndian(c / 256, n - 1)
  }

  /** The value of little-endian bytes. */
  function FromLittleEndian(bytes: seq<Byte>): nat
    decreases |bytes|
  {
    if |bytes| == 0 then 0 else bytes[0] + 256 * FromLittleEndian(bytes[1..])
  }

  /** An `n`-byte value survives being written little-endian and read back. */
  lemma {:induction false} LittleEndianRoundTrip(c: nat, n: nat)
    requires c < Pow2(8 * n)
    ensures FromLittleEndian(LittleEndian(c, n)) == c
    decreases n
  {
    if n > 0 {
      Pow2Add(8, 8 * (n - 1));
      Pow2Byte();
      LittleEndianRoundTrip(c / 256, n - 1);
      assert LittleEndian(c, n)[1..] == LittleEndian(c / 256, n - 1);
    }
  }

  lemma ChecksumRoundTrip(crc: nat)
    requires crc < Word32
    ensures FromLittleEndian(LittleEndian(crc, 4)) == crc
  {
    Pow2Word();
    LittleEndianRoundTrip(crc, 4);
  }

  /** The buffer after `do_write` appends the CRC of indices 0..74 to it. */
  function Checksummed(contents: seq<Byte>): (r: seq<Byte>)
    requires |contents| == BufferSize
    ensures |r| == BufferSize && r[..CheckedSize] == contents[..CheckedSize]
  {
    contents[..CheckedSize] + LittleEndian(Crc32Of(contents[..CheckedSize]), 4)
  }

  /** The Bluetooth report: everything after the salt. */
  function BluetoothFrame(contents: seq<Byte>): (f: seq<Byte>)
    requires |contents| == BufferSize
    ensures |f| == BluetoothReportSize
  {
    contents[BluetoothFrameStart..]
  }

  /** The USB report: indices 3..50. */
  function UsbFrame(contents: seq<Byte>): (f: seq<Byte>)
    requires |contents| == BufferSize
    ensures |f| == UsbReportSize
  {
    contents[UsbFrameStart..UsbFrameStart + UsbReportSize]
  }

  /** What `do_write` sends for a buffer. */
  function SentFrame(isBluetooth: bool, contents: seq<Byte>): (f: seq<Byte>)
    requires |contents| == BufferSize
    ensures |f| == if isBluetooth then BluetoothReportSize else UsbReportSize
    ensures isBluetooth ==> f[..CheckedSize - BluetoothFrameStart] == contents[BluetoothFrameStart..CheckedSize]
    ensures !isBluetooth ==> f == contents[UsbFrameStart..UsbFrameStart + UsbReportSize]
  {
    if isBluetooth then BluetoothFrame(Checksummed(contents)) else UsbFrame(contents)
  }

  /** A Bluetooth frame authenticates itself: its last four bytes are, little
      endian, the CRC-32 of the salt followed by the rest of the frame. */
  lemma BluetoothFrameChecks(contents: seq<Byte>)
    requires |contents| == BufferSize
    ensures var f := SentFrame(true, contents);
      |f| == BluetoothReportSize &&
      FromLittleEndian(f[74..]) == Crc32Of([contents[0]] + f[..74])
  {
    var c := Checksummed(contents);
    var f := BluetoothFrame(c);
    assert [contents[0]] + f[..74] == contents[..CheckedSize];
    assert f[74..] == LittleEndian(Crc32Of(contents[..CheckedSize]), 4);
    ChecksumRoundTrip(Crc32Of(contents[..CheckedSize]));
  }

  /** Each frame starts with its report id: the Bluetooth id over Bluetooth,
      and over USB the byte that classification set to the USB id. */
  lemma PrimedFramesStartWithReportId()
    ensures SentFrame(true, PrimedContents(BluetoothLink))[0] == BluetoothReportId
    ensures SentFrame(true, PrimedContents(BluetoothLink))[2] == BluetoothFlags
    ensures SentFrame(false, PrimedContents(UsbLink))[0] == UsbReportId
  {
    var b := PrimedContents(BluetoothLink);
    assert Checksummed(b)[1] == b[1] && Checksummed(b)[3] == b[3];
  }

  /** The LED indices `dslink_set_led` writes. */
  predicate LedIndex(i: int) {
    i == MuteLed || i == PlayerLedsBrightness || i == PlayerLeds || LedRed <= i <= LedBlue
  }

  /** The indices the effect setters write: motors, LEDs, the two
      11-byte trigger blocks and the configure byte. */
  predicate EffectIndex(i: int) {
    i == MotorRight || i == MotorLeft || LedIndex(i) || i == ConfigureLedMotors
    || LeftTrigger <= i < RightTrigger + TriggerLength
  }

  /** Every effect byte is sent on both links, and covered by the CRC. */
  lemma EffectBytesAreSent(contents: seq<Byte>, i: int, v: Byte)
    requires |contents| == BufferSize && EffectIndex(i)
    ensures UsbFrameStart <= i < CheckedSize
    ensures UsbFrame(contents[i := v])[i - UsbFrameStart] == v
    ensures BluetoothFrame(Checksummed(contents[i := v]))[i - BluetoothFrameStart] == v
  {
  }

  /** `dslink_set_motor`: the symbol `right` selects the right motor, any
      other symbol the left one. */
  function MotorOffset(side: string): (at: int)
    ensures at == MotorRight <==> side == "right"
    ensures at == MotorRight || at == MotorLeft
  {
    if side == "right" then MotorRight else MotorLeft
  }

  /** `dslink_set_trigger`: the symbol `left` selects the left trigger's
      block, any other symbol the right one's. */
  function TriggerOffset(side: string): (at: int)
    ensures at == LeftTrigger <==> side == "left"
    ensures at == LeftTrigger || at == RightTrigger
  {
    if side == "left" then LeftTrigger else RightTrigger
  }

  /** The message name `dslink_set_trigger` is registered under. A method
      taking its arguments as a list receives the message name as its
      symbol parameter. */
  const TriggerSelector := "trigger"

  /** So the symbol `dslink_set_trigger` compares with `left` is always
      `trigger`, and the left trigger's block is never written. */
  lemma RegisteredTriggerIsRight()
    ensures TriggerOffset(TriggerSelector) == RightTrigger
    ensures TriggerOffset(TriggerSelector) != LeftTrigger
  {
  }

  /** An integer argument stored in an `unsigned char`: the value modulo 256. */
  function LowByte(v: int): (b: Byte)
    ensures (v - b) % 256 == 0
  {
    v % 256
  }

  /** Player LED brightness: 0 for any non-zero byte, 1 for a zero byte. */
  function BrightnessByte(v: int): (b: Byte)
    ensures b == 0 || b == 1
    ensures b == 1 <==> v % 256 == 0
  {
    if LowByte(v) > 0 then 0 else 1
  }

  /** The five player LEDs: `& 0x1F` on the stored byte keeps the low five
      bits of the argument. */
  function PlayerMask(v: int): (b: Byte)
    ensures b == v % 32
  {
    LowBitsOfLowByte(v);
    LowByte(v) % 32
  }

  lemma LowBitsOfLowByte(v: int)
    ensures (v % 256) % 32 == v % 32
  {
    var low := v % 256;
    assert v == 32 * (8 * (v / 256) + low / 32) + low % 32;
    DivMod32(8 * (v / 256) + low / 32, low % 32);
  }

  /** Red, green and blue from the numbers after `color`: a missing red is
      0, a missing green or blue repeats red. */
  function ColorBytes(channels: seq<Byte>): (rgb: (Byte, Byte, Byte))
    ensures |channels| >= 3 ==> rgb == (channels[0], channels[1], channels[2])
    ensures |channels| == 2 ==> rgb == (channels[0], channels[1], channels[0])
    ensures |channels| <= 1 ==> rgb.1 == rgb.0 && rgb.2 == rgb.0
    ensures |channels| == 0 ==> rgb.0 == 0
  {
    var r := if |channels| > 0 then channels[0] else 0;
    var g := if |channels| > 1 then channels[1] else r;
    var b := if |channels| > 2 then channels[2] else r;
    (r, g, b)
  }

  /** The `led` message: its first argument selects what is set, the rest
      are the values. */
  datatype LedCommand =
    | MuteCommand(value: int)
    | BrightnessCommand(value: int)
    | PlayersCommand(value: int)
    | ColorCommand(channels: seq<Byte>)
    | OtherCommand

  /** The buffer after an `led` message. */
  function LedEffect(c: seq<Byte>, cmd: LedCommand): (r: seq<Byte>)
    requires |c| == BufferSize
    ensures |r| == BufferSize
    ensures forall i :: 0 <= i < BufferSize && !LedIndex(i) ==> r[i] == c[i]
    ensures cmd.MuteCommand? ==> forall i :: 0 <= i < BufferSize && i != MuteLed ==> r[i] == c[i]
    ensures cmd.BrightnessCommand? ==> forall i :: 0 <= i < BufferSize && i != PlayerLedsBrightness ==> r[i] == c[i]
    ensures cmd.PlayersCommand? ==> forall i :: 0 <= i < BufferSize && i != PlayerLeds ==> r[i] == c[i]
    ensures cmd.ColorCommand? ==> forall i :: 0 <= i < BufferSize && !(LedRed <= i <= LedBlue) ==> r[i] == c[i]
    ensures cmd.MuteCommand? ==> r[MuteLed] == LowByte(cmd.value)
    ensures cmd.BrightnessCommand? ==> r[PlayerLedsBrightness] == BrightnessByte(cmd.value)
    ensures cmd.PlayersCommand? ==> r[PlayerLeds] == PlayerMask(cmd.value)
    ensures cmd.ColorCommand? ==> (r[LedRed], r[LedGreen], r[LedBlue]) == ColorBytes(cmd.channels)
    ensures cmd.OtherCommand? ==> r == c
  {
    match cmd
    case MuteCommand(v) => c[MuteLed := LowByte(v)]
    case BrightnessCommand(v) => c[PlayerLedsBrightness := BrightnessByte(v)]
    case PlayersCommand(v) => c[PlayerLeds := PlayerMask(v)]
    case ColorCommand(channels) =>
      var rgb := ColorBytes(channels);
      c[LedRed := rgb.0][LedGreen := rgb.1][LedBlue := rgb.2]
    case OtherCommand => c
  }

  /** The buffer, updated in place by the setters and by `do_write`. */
  class WriteBuffer {
    const bytes: array<Byte>

    ghost predicate Valid()
      reads this
    {
      bytes.Length == BufferSize
    }

    function Contents(): seq<Byte>
      reads this, bytes
    {
      bytes[..]
    }

    /** A zeroed buffer, as the object is allocated. */
    constructor ()
      ensures Valid() && fresh(bytes)
      ensures Contents() == seq(BufferSize, i => 0)
    {
      bytes := new Byte[BufferSize](i => 0);
    }

    method Put(i: nat, v: Byte)
      requires Valid() && i < BufferSize
      modifies bytes
      ensures Contents() == old(Contents())[i := v]
    {
      bytes[i] := v;
    }

    /** Copies `values` to the indices from `at` on, one at a time. */
    method PutRange(at: nat, values: seq<Byte>)
      requires Valid() && at + |values| <= BufferSize
      modifies bytes
      ensures Contents() == old(Contents())[..at] + values + old(Contents())[at + |values|..]
    {
      for k := 0 to |values|
        invariant bytes[..] == old(bytes[..])[..at] + values[..k] + old(bytes[..])[at + k..]
      {
        bytes[at + k] := values[k];
      }
    }

    /** `memset` and the header and configuration bytes of `do_open`. */
    method Prime(l: Link)
      requires Valid()
      modifies bytes
      ensures Contents() == PrimedContents(l)
    {
      forall i | 0 <= i < bytes.Length {
        bytes[i] := 0;
      }
      bytes[0] := Salt;
      bytes[1] := BluetoothReportId;
      bytes[3] := LinkByte(l);
      bytes[4] := Configure1;
      bytes[5] := Configure2;
      bytes[9] := Configure3;
      bytes[ConfigureLedMotors] := 1;
    }

    /** The CRC-32 of indices 0..74, written little-endian to 75..78. */
    method AppendChecksum(table: array<nat>)
      requires Valid() && IsCrcTable(table)
      modifies bytes
      ensures Contents() == Checksummed(old(Contents()))
    {
      var crc := Crc32.Crc32(table, bytes, CheckedSize);
      assert crc == Crc32Of(bytes[..CheckedSize]);
      bytes[75] := crc % 256;
      bytes[76] := (crc / 256) % 256;
      bytes[77] := (crc / 256 / 256) % 256;
      bytes[78] := (crc / 256 / 256 / 256) % 256;
      assert bytes[CheckedSize..] == LittleEndian(crc, 4);
    }
  }
}
