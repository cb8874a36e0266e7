/**
 * Decoding an input report (`parse_input_report`).
 *
 * The controller's input report is read into a 78-byte buffer. Bluetooth
 * reports carry one more header byte than USB ones, so every field sits at
 * `offset + k` with offset 2 over Bluetooth and 1 over USB. Each decoded
 * quantity becomes one `output_value` call (a `Field`).
 *
 * Values are the driver's floats taken as exact rationals: stick
 * deflections around 128 divided by 128 (the y axes negated), trigger travel
 * divided by 255, sensor words divided by 8192, touch positions divided by
 * 1920 and 1080, and flags, d-pad axes and battery codes as they are. Single
 * precision rounding keeps all of these apart: two of them, in the same
 * scale or not, round to equal floats exactly when they are equal.
 */
module InputReport {
  import opened Bits
  import opened ChangeFilter

  /** Size of the read buffer: the longest (Bluetooth) input report. */
  const InputReportSize := 78

  /** Where the fields start: after the Bluetooth header, or the USB report id. */
  function ReportOffset(isBluetooth: bool): (o: nat)
    ensures o == 1 || o == 2
    ensures isBluetooth <==> o == 2
  {
    if isBluetooth then 2 else 1
  }

  // ---------------------------------------------------------------------
  // Buttons and flags

  /** `(b & (1 << k)) != 0`, as the 0 or 1 the driver sends. */
  function Flag(b: Byte, k: nat): (r: int)
    ensures r == 0 || r == 1
    ensures r == 1 <==> BitSet(b, k)
  {
    if BitSet(b, k) then 1 else 0
  }

  /** Byte 7 holds the face buttons in its upper nibble (square, cross,
      circle, triangle from bit 4 up) and the d-pad in its lower nibble. A
      byte built from any d-pad value and any four buttons decodes to them. */
  lemma FaceButtonsRoundTrip(dpad: nat, square: bool, cross: bool, circle: bool, triangle: bool)
    requires dpad < 16
    ensures var b := Shl(PackBits([square, cross, circle, triangle]), 4) + dpad;
      b < 256 && b % 16 == dpad &&
      BitSet(b, 4) == square && BitSet(b, 5) == cross &&
      BitSet(b, 6) == circle && BitSet(b, 7) == triangle
  {
    var bits := [square, cross, circle, triangle];
    var h := PackBits(bits);
    Pow2Add(2, 2);
    Pow2Byte();
    PackBitsBound(bits);
    ShlIsScaling(h, 4);
    BitSetConcat(h, dpad, 4, 4);
    BitSetConcat(h, dpad, 4, 5);
    BitSetConcat(h, dpad, 4, 6);
    BitSetConcat(h, dpad, 4, 7);
    BitSetPackBits(bits, 0);
    BitSetPackBits(bits, 1);
    BitSetPackBits(bits, 2);
    BitSetPackBits(bits, 3);
  }

  /** Byte 8 holds eight buttons, one per bit (l1, r1, l2, r2, create,
      options, l3, r3 from bit 0 up); any eight buttons packed into a byte
      decode to themselves. */
  lemma ShoulderButtonsRoundTrip(buttons: seq<bool>, k: nat)
    requires |buttons| == 8 && k < 8
    ensures PackBits(buttons) < 256
    ensures BitSet(PackBits(buttons), k) == buttons[k]
  {
    PackBitsBound(buttons);
    Pow2Byte();
    BitSetPackBits(buttons, k);
  }

  /** The bit tests read bit 7 as the top of the byte. */
  lemma TopBit(b: Byte)
    ensures BitSet(b, 7) <==> b >= 128
  {
    var h := b / 128;
    var l := b % 128;
    Pow2Add(3, 4);
    Pow2Byte();
    Pow2Add(4, 3);
    ShlIsScaling(h, 7);
    BitSetConcat(h, l, 7, 7);
    if h == 1 {
      assert BitSet(1, 0);
    } else {
      ZeroHasNoBits(0);
    }
  }

  // ---------------------------------------------------------------------
  // D-pad

  /** Turning one of the eight directions an eighth of a turn clockwise. */
  function Clockwise(d: (int, int)): (int, int) {
    (Sign(d.0 + d.1), Sign(d.1 - d.0))
  }

  function Sign(x: int): int {
    if x > 0 then 1 else if x < 0 then -1 else 0
  }

  /** The direction `n` eighths of a turn clockwise from up. */
  function Octant(n: nat): (int, int)
    decreases n
  {
    if n == 0 then (0, 1) else Clockwise(Octant(n - 1))
  }

  /** The d-pad nibble as two axes: 0 is up, each step an eighth of a turn
      clockwise; 8 and above (released) is the centre. */
  function DPad(n: int): (r: (int, int))
    requires 0 <= n < 16
    ensures -1 <= r.0 <= 1 && -1 <= r.1 <= 1
    ensures r == (0, 0) <==> n >= 8
  {
    match n
    case 0 => (0, 1)
    case 1 => (1, 1)
    case 2 => (1, 0)
    case 3 => (1, -1)
    case 4 => (0, -1)
    case 5 => (-1, -1)
    case 6 => (-1, 0)
    case 7 => (-1, 1)
    case _ => (0, 0)
  }

  /** The pressed directions are the eight octants in clockwise order. */
  lemma DPadIsClockwise(n: nat)
    requires n < 8
    ensures DPad(n) == Octant(n)
    ensures n < 7 ==> DPad(n + 1) == Clockwise(DPad(n))
    ensures n == 7 ==> Clockwise(DPad(n)) == DPad(0)
  {
    assert Octant(1) == (1, 1);
    assert Octant(3) == (1, -1);
    assert Octant(5) == (-1, -1);
  }

  // ---------------------------------------------------------------------
  // Motion sensors

  /** A sensor word: the byte at the lower index is the HIGH byte. */
  function Word16(hi: Byte, lo: Byte): (w: nat)
    ensures w < 0x1_0000
    ensures w / 256 == hi && w % 256 == lo
  {
    hi * 256 + lo
  }

  /** `raw > 32767 ? raw - 65536 : raw`: the word read as two's complement. */
  function SignExtend16(raw: nat): (v: int)
    requires raw < 0x1_0000
    ensures -0x8000 <= v < 0x8000
    ensures (v - raw) % 0x1_0000 == 0
  {
    if raw > 32767 then raw - 65536 else raw
  }

  /** The two bytes a signed reading is sent as, high byte first. */
  function SensorBytes(v: int): (int, int)
    requires -0x8000 <= v < 0x8000
  {
    var w := v % 0x1_0000;
    (w / 256, w % 256)
  }

  /** Any signed 16-bit reading survives being sent high byte first and
      decoded. */
  lemma SensorRoundTrip(v: int)
    requires -0x8000 <= v < 0x8000
    ensures var (hi, lo) := SensorBytes(v);
      0 <= hi < 256 && 0 <= lo < 256 && SignExtend16(Word16(hi, lo)) == v
  {
  }

  /** Any two bytes decode to a reading that is sent as those bytes again. */
  lemma SensorBytesRoundTrip(hi: Byte, lo: Byte)
    ensures SensorBytes(SignExtend16(Word16(hi, lo))) == (hi, lo)
  {
  }

  // ---------------------------------------------------------------------
  // Touch points

  /** A touch point is active when bit 7 of its first byte is clear. */
  function TouchActive(b1: Byte): (active: bool)
    ensures active <==> b1 < 128
  {
    TopBit(b1);
    !BitSet(b1, 7)
  }

  /** `((b3 & 0x0F) << 8) | b2`: the low nibble of the third byte above the
      second byte. */
  function TouchX(b2: Byte, b3: Byte): (x: nat)
    ensures x < 4096
  {
    (b3 % 16) * 256 + b2
  }

  /** `(b4 << 4) | ((b3 & 0xF0) >> 4)`: the fourth byte above the high nibble
      of the third. */
  function TouchY(b3: Byte, b4: Byte): (y: nat)
    ensures y < 4096
  {
    b4 * 16 + b3 / 16
  }

  /** The three bytes a 12-bit position pair is sent as. */
  function TouchBytes(x: nat, y: nat): (b: (int, int, int))
    requires x < 4096 && y < 4096
    ensures 0 <= b.0 < 256 && 0 <= b.1 < 256 && 0 <= b.2 < 256
  {
    (x % 256, x / 256 + 16 * (y % 16), y / 16)
  }

  /** Packing any 12-bit x and y and decoding gives them back. */
  lemma TouchRoundTrip(x: nat, y: nat)
    requires x < 4096 && y < 4096
    ensures var (b2, b3, b4) := TouchBytes(x, y);
      TouchX(b2, b3) == x && TouchY(b3, b4) == y
  {
    var (b2, b3, b4) := TouchBytes(x, y);
    DivMod16(y % 16, x / 256);
    assert b3 % 16 == x / 256 && b3 / 16 == y % 16;
  }

  /** Every three bytes are the packing of the position they decode to. */
  lemma TouchBytesRoundTrip(b2: Byte, b3: Byte, b4: Byte)
    ensures TouchBytes(TouchX(b2, b3), TouchY(b3, b4)) == (b2, b3, b4)
  {
    DivMod256(b3 % 16, b2);
    DivMod16(b4, b3 / 16);
    DivMod16(b3 / 16, b3 % 16);
  }

  // ---------------------------------------------------------------------
  // Battery

  /** `battery_status_t`. */
  datatype BatteryState = Unknown | Discharging | Charging | Full | TempHigh | TempLow

  /** The enumerator's value, which is what is sent. */
  function StatusCode(s: BatteryState): int {
    match s
    case Unknown => 0
    case Discharging => 1
    case Charging => 2
    case Full => 3
    case TempHigh => 4
    case TempLow => 5
  }

  /** The charge level: the low nibble of the battery byte. */
  function BatteryLevelOf(b: Byte): (level: int)
    ensures 0 <= level < 16
  {
    b % 16
  }

  /** The status: the high nibble of the battery byte, where 0, 1, 2, 0xA and
      0xB are known and everything else is unknown. */
  function BatteryStatusOf(b: Byte): (s: BatteryState)
    ensures s != Unknown ==> StatusNibble(s) == b / 16
  {
    match b / 16
    case 0x0 => Discharging
    case 0x1 => Charging
    case 0x2 => Full
    case 0xA => TempHigh
    case 0xB => TempLow
    case _ => Unknown
  }

  /** The nibble a known status is reported as. */
  function StatusNibble(s: BatteryState): (n: int)
    requires s != Unknown
    ensures 0 <= n < 16
  {
    match s
    case Discharging => 0x0
    case Charging => 0x1
    case Full => 0x2
    case TempHigh => 0xA
    case TempLow => 0xB
  }

  /** Any level and known status packed into one byte decode to themselves;
      the status is unknown exactly for the other eleven nibbles. */
  lemma BatteryRoundTrip(level: int, s: BatteryState)
    requires 0 <= level < 16 && s != Unknown
    ensures var b := 16 * StatusNibble(s) + level;
      0 <= b < 256 && BatteryLevelOf(b) == level && BatteryStatusOf(b) == s
  {
  }

  lemma UnknownStatus(b: Byte)
    ensures BatteryStatusOf(b) == Unknown <==> b / 16 !in {0x0, 0x1, 0x2, 0xA, 0xB}
  {
  }

  /** Distinct statuses are sent as distinct codes, all in 0..5. */
  lemma StatusCodesDistinct(s: BatteryState, t: BatteryState)
    ensures 0 <= StatusCode(s) <= 5
    ensures StatusCode(s) == StatusCode(t) <==> s == t
  {
  }

  // ---------------------------------------------------------------------
  // The report as a sequence of output_value calls

  /** A stick byte as a deflection: `(b - 128) / 128`, in [-1, 1). */
  function StickAxis(b: Byte): (v: real)
    ensures -1.0 <= v < 1.0
  {
    (b as real - 128.0) / 128.0
  }

  /** A sensor reading from its two bytes, high byte first, in units of
      1/8192. */
  function Sensor(hi: Byte, lo: Byte): (v: real)
    ensures -4.0 <= v < 4.0
  {
    SignExtend16(Word16(hi, lo)) as real / 8192.0
  }

  /** Distinct sensor bytes give distinct readings. */
  lemma SensorInjective(hi: Byte, lo: Byte, hi': Byte, lo': Byte)
    ensures Sensor(hi, lo) == Sensor(hi', lo') <==> hi == hi' && lo == lo'
  {
    var w, w' := Word16(hi, lo), Word16(hi', lo');
    if Sensor(hi, lo) == Sensor(hi', lo') {
      assert SignExtend16(w) == SignExtend16(w');
      assert w == w';
    }
  }

  function Sticks(buf: seq<Byte>, o: nat): seq<Field>
    requires o + 6 <= |buf|
  {
    [ Field(DataOut, ["analog", "l", "x"], AnalogLX, StickAxis(buf[o])),
      Field(DataOut, ["analog", "l", "y"], AnalogLY, -StickAxis(buf[o + 1])),
      Field(DataOut, ["analog", "r", "x"], AnalogRX, StickAxis(buf[o + 2])),
      Field(DataOut, ["analog", "r", "y"], AnalogRY, -StickAxis(buf[o + 3])),
      Field(DataOut, ["trigger", "l"], TriggerL, buf[o + 4] as real / 255.0),
      Field(DataOut, ["trigger", "r"], TriggerR, buf[o + 5] as real / 255.0) ]
  }

  function FaceButtons(b7: Byte): seq<Field> {
    [ Field(DataOut, ["button", "triangle"], Triangle, Flag(b7, 7) as real),
      Field(DataOut, ["button", "circle"], Circle, Flag(b7, 6) as real),
      Field(DataOut, ["button", "cross"], Cross, Flag(b7, 5) as real),
      Field(DataOut, ["button", "square"], Square, Flag(b7, 4) as real) ]
  }

  function ShoulderButtons(b8: Byte): seq<Field> {
    [ Field(DataOut, ["button", "l1"], L1, Flag(b8, 0) as real),
      Field(DataOut, ["button", "r1"], R1, Flag(b8, 1) as real),
      Field(DataOut, ["button", "l2"], L2, Flag(b8, 2) as real),
      Field(DataOut, ["button", "r2"], R2, Flag(b8, 3) as real),
      Field(DataOut, ["button", "l3"], L3, Flag(b8, 6) as real),
      Field(DataOut, ["button", "r3"], R3, Flag(b8, 7) as real),
      Field(DataOut, ["button", "create"], Create, Flag(b8, 4) as real),
      Field(DataOut, ["button", "options"], Options, Flag(b8, 5) as real) ]
  }

  function SystemButtons(b9: Byte): seq<Field> {
    [ Field(DataOut, ["button", "ps"], Ps, Flag(b9, 0) as real),
      Field(DataOut, ["button", "pad"], Pad, Flag(b9, 1) as real),
      Field(DataOut, ["button", "mute"], Mute, Flag(b9, 2) as real) ]
  }

  function DPadFields(b7: Byte): seq<Field> {
    var d := DPad(b7 % 16);
    [ Field(DataOut, ["digital", "x"], DigitalX, d.0 as real),
      Field(DataOut, ["digital", "y"], DigitalY, d.1 as real) ]
  }

  function Motion(buf: seq<Byte>, o: nat): seq<Field>
    requires o + 28 <= |buf|
  {
    [ Field(ImuOut, ["gyro", "x"], GyroX, Sensor(buf[o + 16], buf[o + 17])),
      Field(ImuOut, ["gyro", "y"], GyroY, Sensor(buf[o + 18], buf[o + 19])),
      Field(ImuOut, ["gyro", "z"], GyroZ, Sensor(buf[o + 20], buf[o + 21])),
      Field(ImuOut, ["accel", "x"], AccelX, Sensor(buf[o + 22], buf[o + 23])),
      Field(ImuOut, ["accel", "y"], AccelY, Sensor(buf[o + 24], buf[o + 25])),
      Field(ImuOut, ["accel", "z"], AccelZ, Sensor(buf[o + 26], buf[o + 27])) ]
  }

  /** The messages for one touch point, given the state members its active
      flag, x and y are compared with and stored into. */
  function TouchPoint(buf: seq<Byte>, at: nat, name: string, active: Slot, xSlot: Slot, ySlot: Slot): (r: seq<Field>)
    requires at + 4 <= |buf|
    ensures |r| == if TouchActive(buf[at]) then 3 else 1
    ensures r[0] == Field(DataOut, ["pad", name, "active"], active, if TouchActive(buf[at]) then 1.0 else 0.0)
    ensures |r| == 3 ==> r[1].slot == xSlot && r[2].slot == ySlot
    ensures forall i :: 1 <= i < |r| ==> 0.0 <= r[i].value < 4.0
  {
    if TouchActive(buf[at]) then
      [ Field(DataOut, ["pad", name, "active"], active, 1.0),
        Field(DataOut, ["pad", name, "x"], xSlot, TouchX(buf[at + 1], buf[at + 2]) as real / 1920.0),
        Field(DataOut, ["pad", name, "y"], ySlot, TouchY(buf[at + 2], buf[at + 3]) as real / 1080.0) ]
    else
      [ Field(DataOut, ["pad", name, "active"], active, 0.0) ]
  }

  function Status(buf: seq<Byte>, o: nat, isBluetooth: bool): seq<Field>
    requires o + 55 <= |buf|
  {
    [ Field(StatusOut, ["battery", "level"], BatteryLevel, BatteryLevelOf(buf[o + 52]) as real),
      Field(StatusOut, ["battery", "status"], BatteryStatus, StatusCode(BatteryStatusOf(buf[o + 52])) as real),
      Field(StatusOut, ["bluetooth"], Bluetooth, if isBluetooth then 1.0 else 0.0),
      Field(StatusOut, ["headphones"], Headphones, Flag(buf[o + 53], 0) as real),
      Field(StatusOut, ["microphone"], Microphone, Flag(buf[o + 53], 1) as real),
      Field(StatusOut, ["haptic", "active"], HapticActive, Flag(buf[o + 54], 1) as real) ]
  }

  function Controls(buf: seq<Byte>, o: nat): seq<Field>
    requires o + 28 <= |buf|
  {
    Sticks(buf, o) + FaceButtons(buf[o + 7]) + ShoulderButtons(buf[o + 8])
      + SystemButtons(buf[o + 9]) + DPadFields(buf[o + 7]) + Motion(buf, o)
  }

  /** The `output_value` calls for one report, in order, each touch value
      compared with and stored into its own state member. */
  function InputFields(buf: seq<Byte>, isBluetooth: bool): (r: seq<Field>)
    requires |buf| == InputReportSize
    ensures OnlyPathWrites(r, Touch1Active, ["pad", "touch1", "active"])
  {
    var o := ReportOffset(isBluetooth);
    var c := Controls(buf, o);
    var t1 := TouchPoint(buf, o + 32, "touch1", Touch1Active, Touch1X, Touch1Y);
    var t2 := TouchPoint(buf, o + 36, "touch2", Touch2Active, Touch2X, Touch2Y);
    var st := Status(buf, o, isBluetooth);
    TouchOneActiveOnlyFromFlag(buf, o, isBluetooth);
    c + t1 + t2 + st
  }

  /** The same calls as the driver writes them: the first touch point's x
      and y are compared with and stored into its active flag. */
  function InputFieldsAsWritten(buf: seq<Byte>, isBluetooth: bool): (r: seq<Field>)
    requires |buf| == InputReportSize
    ensures Avoids(r, Touch1X) && Avoids(r, Touch1Y)
  {
    var o := ReportOffset(isBluetooth);
    var c := Controls(buf, o);
    var t1 := TouchPoint(buf, o + 32, "touch1", Touch1Active, Touch1Active, Touch1Active);
    var t2 := TouchPoint(buf, o + 36, "touch2", Touch2Active, Touch2X, Touch2Y);
    var st := Status(buf, o, isBluetooth);
    TouchOnePositionNeverStored(buf, o, isBluetooth);
    c + t1 + t2 + st
  }

  // ---------------------------------------------------------------------
  // Which calls write the first touch point's members

  /** No call writes state member `s`. */
  predicate Avoids(fields: seq<Field>, s: Slot) {
    forall i :: 0 <= i < |fields| ==> fields[i].slot != s
  }

  /** Every call that writes state member `s` carries `path`. */
  predicate OnlyPathWrites(fields: seq<Field>, s: Slot, path: seq<string>) {
    forall i :: 0 <= i < |fields| && fields[i].slot == s ==> fields[i].path == path
  }

  lemma AvoidsAppend(a: seq<Field>, b: seq<Field>, s: Slot)
    requires Avoids(a, s) && Avoids(b, s)
    ensures Avoids(a + b, s)
  {
    forall i | 0 <= i < |a + b|
      ensures (a + b)[i].slot != s
    {
      if i >= |a| {
        assert (a + b)[i] == b[i - |a|];
      }
    }
  }

  lemma OnlyPathWritesAppend(a: seq<Field>, b: seq<Field>, s: Slot, path: seq<string>)
    requires OnlyPathWrites(a, s, path) && OnlyPathWrites(b, s, path)
    ensures OnlyPathWrites(a + b, s, path)
  {
    forall i | 0 <= i < |a + b| && (a + b)[i].slot == s
      ensures (a + b)[i].path == path
    {
      if i >= |a| {
        assert (a + b)[i] == b[i - |a|];
      }
    }
  }

  /** With its own members, the first touch point's active flag is written
      only by its `active` message. */
  lemma TouchOneActiveOnlyFromFlag(buf: seq<Byte>, o: nat, isBluetooth: bool)
    requires o + 55 <= |buf|
    ensures OnlyPathWrites(
      Controls(buf, o)
        + TouchPoint(buf, o + 32, "touch1", Touch1Active, Touch1X, Touch1Y)
        + TouchPoint(buf, o + 36, "touch2", Touch2Active, Touch2X, Touch2Y)
        + Status(buf, o, isBluetooth),
      Touch1Active, ["pad", "touch1", "active"])
  {
    var path := ["pad", "touch1", "active"];
    var c := Controls(buf, o);
    var t1 := TouchPoint(buf, o + 32, "touch1", Touch1Active, Touch1X, Touch1Y);
    var t2 := TouchPoint(buf, o + 36, "touch2", Touch2Active, Touch2X, Touch2Y);
    var st := Status(buf, o, isBluetooth);
    ControlsAscending(buf, o);
    TouchAndStatusAscending(buf, o, isBluetooth);
    assert OnlyPathWrites(c, Touch1Active, path);
    assert OnlyPathWrites(t1, Touch1Active, path);
    assert OnlyPathWrites(t2, Touch1Active, path);
    assert OnlyPathWrites(st, Touch1Active, path);
    OnlyPathWritesAppend(c, t1, Touch1Active, path);
    OnlyPathWritesAppend(c + t1, t2, Touch1Active, path);
    OnlyPathWritesAppend(c + t1 + t2, st, Touch1Active, path);
  }

  /** As written, no call writes the first touch point's x or y member. */
  lemma TouchOnePositionNeverStored(buf: seq<Byte>, o: nat, isBluetooth: bool)
    requires o + 55 <= |buf|
    ensures var fields :=
      Controls(buf, o)
        + TouchPoint(buf, o + 32, "touch1", Touch1Active, Touch1Active, Touch1Active)
        + TouchPoint(buf, o + 36, "touch2", Touch2Active, Touch2X, Touch2Y)
        + Status(buf, o, isBluetooth);
      Avoids(fields, Touch1X) && Avoids(fields, Touch1Y)
  {
    var c := Controls(buf, o);
    var t1 := TouchPoint(buf, o + 32, "touch1", Touch1Active, Touch1Active, Touch1Active);
    var t2 := TouchPoint(buf, o + 36, "touch2", Touch2Active, Touch2X, Touch2Y);
    var st := Status(buf, o, isBluetooth);
    ControlsAscending(buf, o);
    TouchAndStatusAscending(buf, o, isBluetooth);
    forall s: Slot | s == Touch1X || s == Touch1Y
      ensures Avoids(c + t1 + t2 + st, s)
    {
      assert Avoids(c, s) && Avoids(t1, s) && Avoids(t2, s) && Avoids(st, s);
      AvoidsAppend(c, t1, s);
      AvoidsAppend(c + t1, t2, s);
      AvoidsAppend(c + t1 + t2, st, s);
    }
  }

  // ---------------------------------------------------------------------
  // Every state member is written at most once per report

  /** The fields' slots come in strictly increasing order, within
      `[lo, hi)`. */
  predicate Ascending(fields: seq<Field>, lo: nat, hi: nat) {
    (forall i :: 0 <= i < |fields| ==> lo <= fields[i].slot < hi) &&
    (forall i, j :: 0 <= i < j < |fields| ==> fields[i].slot < fields[j].slot)
  }

  lemma AscendingAppend(a: seq<Field>, b: seq<Field>, lo: nat, mid: nat, hi: nat)
    requires lo <= mid <= hi && Ascending(a, lo, mid) && Ascending(b, mid, hi)
    ensures Ascending(a + b, lo, hi)
  {
    forall i | 0 <= i < |a + b|
      ensures lo <= (a + b)[i].slot < hi
    {
      if i >= |a| {
        assert (a + b)[i] == b[i - |a|];
      }
    }
    forall i, j | 0 <= i < j < |a + b|
      ensures (a + b)[i].slot < (a + b)[j].slot
    {
      if j < |a| {
      } else if i < |a| {
        assert a[i].slot < mid <= b[j - |a|].slot;
      } else {
        assert b[i - |a|].slot < b[j - |a|].slot;
      }
    }
  }

  lemma AscendingIsDistinct(fields: seq<Field>, lo: nat, hi: nat)
    requires Ascending(fields, lo, hi)
    ensures DistinctSlots(fields)
  {
    forall i, j | 0 <= i < j < |fields|
      ensures fields[i].slot != fields[j].slot
    {
      assert fields[i].slot < fields[j].slot;
    }
  }

  lemma SticksAscending(buf: seq<Byte>, o: nat)
    requires o + 6 <= |buf|
    ensures Ascending(Sticks(buf, o), 0, 6)
  {
  }

  lemma FaceButtonsAscending(b7: Byte)
    ensures Ascending(FaceButtons(b7), 6, 10)
    ensures Ascending(DPadFields(b7), 21, 23)
  {
  }

  lemma ShoulderButtonsAscending(b8: Byte)
    ensures Ascending(ShoulderButtons(b8), 10, 18)
  {
  }

  lemma SystemButtonsAscending(b9: Byte)
    ensures Ascending(SystemButtons(b9), 18, 21)
  {
  }

  lemma MotionAscending(buf: seq<Byte>, o: nat)
    requires o + 28 <= |buf|
    ensures Ascending(Motion(buf, o), 23, 29)
  {
  }

  lemma ControlsAscending(buf: seq<Byte>, o: nat)
    requires o + 28 <= |buf|
    ensures Ascending(Controls(buf, o), 0, 29)
  {
    var s := Sticks(buf, o);
    var f := FaceButtons(buf[o + 7]);
    var h := ShoulderButtons(buf[o + 8]);
    var y := SystemButtons(buf[o + 9]);
    var d := DPadFields(buf[o + 7]);
    var m := Motion(buf, o);
    SticksAscending(buf, o);
    FaceButtonsAscending(buf[o + 7]);
    ShoulderButtonsAscending(buf[o + 8]);
    SystemButtonsAscending(buf[o + 9]);
    MotionAscending(buf, o);
    AscendingAppend(s, f, 0, 6, 10);
    AscendingAppend(s + f, h, 0, 10, 18);
    AscendingAppend(s + f + h, y, 0, 18, 21);
    AscendingAppend(s + f + h + y, d, 0, 21, 23);
    AscendingAppend(s + f + h + y + d, m, 0, 23, 29);
  }

  lemma TouchAndStatusAscending(buf: seq<Byte>, o: nat, isBluetooth: bool)
    requires o + 55 <= |buf|
    ensures Ascending(TouchPoint(buf, o + 32, "touch1", Touch1Active, Touch1X, Touch1Y), 29, 32)
    ensures Ascending(TouchPoint(buf, o + 36, "touch2", Touch2Active, Touch2X, Touch2Y), 32, 35)
    ensures Ascending(Status(buf, o, isBluetooth), 35, 41)
  {
  }

  /** Once the touch values have slots of their own, no state member is
      written twice while decoding one report. */
  lemma InputFieldsDistinct(buf: seq<Byte>, isBluetooth: bool)
    requires |buf| == InputReportSize
    ensures DistinctSlots(InputFields(buf, isBluetooth))
  {
    var o := ReportOffset(isBluetooth);
    var c := Controls(buf, o);
    var t1 := TouchPoint(buf, o + 32, "touch1", Touch1Active, Touch1X, Touch1Y);
    var t2 := TouchPoint(buf, o + 36, "touch2", Touch2Active, Touch2X, Touch2Y);
    var st := Status(buf, o, isBluetooth);
    ControlsAscending(buf, o);
    TouchAndStatusAscending(buf, o, isBluetooth);
    AscendingAppend(c, t1, 0, 29, 32);
    AscendingAppend(c + t1, t2, 0, 32, 35);
    AscendingAppend(c + t1 + t2, st, 0, 35, 41);
    AscendingIsDistinct(c + t1 + t2 + st, 0, 41);
  }

  /** Decoding the same report again with filtering on sends nothing and
      changes no state member. */
  lemma RereadIsSilent(o: Outputs, buf: seq<Byte>, isBluetooth: bool, filter: bool)
    requires |buf| == InputReportSize
    ensures var fields := InputFields(buf, isBluetooth);
      Publish(Publish(o, fields, filter), fields, true) == Publish(o, fields, filter)
  {
    InputFieldsDistinct(buf, isBluetooth);
    RepublishIsSilent(o, InputFields(buf, isBluetooth), filter);
  }

  /** As written, the first touch point's x and y overwrite its active flag.
      While that point is touched anywhere but at y = 1080, reading the same
      report again with filtering on sends its messages anew: the stored flag
      holds y / 1080, which differs from the 1 the active message carries. */
  lemma AsWrittenRereadRepeats(o: Outputs, buf: seq<Byte>, isBluetooth: bool, filter: bool)
    requires |buf| == InputReportSize
    requires var at := ReportOffset(isBluetooth) + 32;
      TouchActive(buf[at]) && TouchY(buf[at + 2], buf[at + 3]) != 1080
    ensures var fields := InputFieldsAsWritten(buf, isBluetooth);
      |Publish(Publish(o, fields, filter), fields, true).log| > |Publish(o, fields, filter).log|
  {
    var off := ReportOffset(isBluetooth);
    var c := Controls(buf, off);
    var t1 := TouchPoint(buf, off + 32, "touch1", Touch1Active, Touch1Active, Touch1Active);
    var t2 := TouchPoint(buf, off + 36, "touch2", Touch2Active, Touch2X, Touch2Y);
    var st := Status(buf, off, isBluetooth);
    ControlsAscending(buf, off);
    TouchAndStatusAscending(buf, off, isBluetooth);
    AscendingAppend(t2, st, 32, 35, 41);
    assert InputFieldsAsWritten(buf, isBluetooth) == c + t1 + (t2 + st);
    SharedSlotRepeats(o, c, t1, t2 + st, Touch1Active, filter);
  }
}
