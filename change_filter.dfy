/**
 * The change filter in front of the object's outlets (`output_value`).
 *
 * Every decoded quantity has a slot in the decoded state `t_dslink_state`.
 * `output_value` compares the slot with the new value; when they differ, or
 * when filtering is off, it stores the value and sends the message
 * `path value` to an outlet. The outlets are modelled as one log of
 * emissions, in the order they were sent.
 */
module ChangeFilter {

  /** A member of `t_dslink_state`, numbered in the order a report is
      decoded. */
  type Slot = s: int | 0 <= s < 41

  const AnalogLX: Slot := 0
  const AnalogLY: Slot := 1
  const AnalogRX: Slot := 2
  const AnalogRY: Slot := 3

  const TriggerL: Slot := 4
  const TriggerR: Slot := 5

  const Triangle: Slot := 6
  const Circle: Slot := 7
  const Cross: Slot := 8
  const Square: Slot := 9

  const L1: Slot := 10
  const R1: Slot := 11
  const L2: Slot := 12
  const R2: Slot := 13
  const L3: Slot := 14
  const R3: Slot := 15
  const Create: Slot := 16
  const Options: Slot := 17

  const Ps: Slot := 18
  const Pad: Slot := 19
  const Mute: Slot := 20

  const DigitalX: Slot := 21
  const DigitalY: Slot := 22

  const GyroX: Slot := 23
  const GyroY: Slot := 24
  const GyroZ: Slot := 25

  const AccelX: Slot := 26
  const AccelY: Slot := 27
  const AccelZ: Slot := 28

  const Touch1Active: Slot := 29
  const Touch1X: Slot := 30
  const Touch1Y: Slot := 31

  const Touch2Active: Slot := 32
  const Touch2X: Slot := 33
  const Touch2Y: Slot := 34

  const BatteryLevel: Slot := 35
  const BatteryStatus: Slot := 36

  const Bluetooth: Slot := 37
  const Headphones: Slot := 38
  const Microphone: Slot := 39
  const HapticActive: Slot := 40

  /** The three outlets: controls, motion sensors, device status. */
  datatype Outlet = DataOut | ImuOut | StatusOut

  /** One `output_value` call: where the message goes, its path, the state
      member it is compared with, and the value. */
  datatype Field = Field(outlet: Outlet, path: seq<string>, slot: Slot, value: real)

  /** One message sent: selector and symbols of `path`, then the value. */
  datatype Emission = Emission(outlet: Outlet, path: seq<string>, value: real)

  /** The decoded state and everything sent so far. */
  datatype Outputs = Outputs(stored: map<Slot, real>, log: seq<Emission>)

  /** The state starts zeroed. */
  const Initial: Outputs := Outputs(map[], [])

  /** The value a slot holds; a slot never written holds 0. */
  function Stored(o: Outputs, s: Slot): real {
    if s in o.stored then o.stored[s] else 0.0
  }

  function EmissionOf(f: Field): Emission {
    Emission(f.outlet, f.path, f.value)
  }

  /** `output_value`: store and emit when the slot differs from the value or
      filtering is off; otherwise do nothing. */
  function OutputValue(o: Outputs, f: Field, filter: bool): (r: Outputs)
    ensures Stored(r, f.slot) == f.value
    ensures forall s :: s != f.slot ==> Stored(r, s) == Stored(o, s)
    ensures |r.log| == |o.log| + 1 <==> Stored(o, f.slot) != f.value || !filter
    ensures r.log == o.log || r.log == o.log + [EmissionOf(f)]
  {
    if Stored(o, f.slot) != f.value || !filter then
      Outputs(o.stored[f.slot := f.value], o.log + [EmissionOf(f)])
    else
      o
  }

  /** With filtering on, sending the same value again emits nothing and
      changes nothing. */
  lemma RepeatIsSilent(o: Outputs, f: Field, filter: bool)
    ensures OutputValue(OutputValue(o, f, filter), f, true) == OutputValue(o, f, filter)
  {
  }

  /** The value the last field for slot `s` carries, or `d` if none does. */
  function LastValue(fields: seq<Field>, s: Slot, d: real): real
    decreases |fields|
  {
    if |fields| == 0 then d
    else if fields[|fields| - 1].slot == s then fields[|fields| - 1].value
    else LastValue(fields[..|fields| - 1], s, d)
  }

  /** The messages a sequence of fields produces with filtering off. */
  function Emissions(fields: seq<Field>): seq<Emission>
    decreases |fields|
  {
    if |fields| == 0 then [] else Emissions(fields[..|fields| - 1]) + [EmissionOf(fields[|fields| - 1])]
  }

  /** A run of `output_value` calls, one per field, in order. */
  function Publish(o: Outputs, fields: seq<Field>, filter: bool): (r: Outputs)
    ensures forall s :: Stored(r, s) == LastValue(fields, s, Stored(o, s))
    ensures |o.log| <= |r.log| <= |o.log| + |fields| && r.log[..|o.log|] == o.log
    ensures !filter ==> r.log == o.log + Emissions(fields)
    decreases |fields|
  {
    if |fields| == 0 then o
    else OutputValue(Publish(o, fields[..|fields| - 1], filter), fields[|fields| - 1], filter)
  }

  lemma PublishLast(o: Outputs, fields: seq<Field>, filter: bool)
    requires |fields| > 0
    ensures Publish(o, fields, filter)
         == OutputValue(Publish(o, fields[..|fields| - 1], filter), fields[|fields| - 1], filter)
  {
  }

  lemma {:induction false} PublishAppend(o: Outputs, a: seq<Field>, b: seq<Field>, filter: bool)
    ensures Publish(o, a + b, filter) == Publish(Publish(o, a, filter), b, filter)
    decreases |b|
  {
    if |b| > 0 {
      var ab := a + b;
      var b' := b[..|b| - 1];
      assert ab[..|ab| - 1] == a + b';
      assert ab[|ab| - 1] == b[|b| - 1];
      PublishLast(o, ab, filter);
      PublishLast(Publish(o, a, filter), b, filter);
      PublishAppend(o, a, b', filter);
    } else {
      assert a + b == a;
    }
  }

  lemma {:induction false} LastValueAbsent(fields: seq<Field>, s: Slot, d: real)
    requires forall i :: 0 <= i < |fields| ==> fields[i].slot != s
    ensures LastValue(fields, s, d) == d
    decreases |fields|
  {
    if |fields| > 0 {
      LastValueAbsent(fields[..|fields| - 1], s, d);
    }
  }

  /** With filtering on, a run whose first field differs from its slot emits
      at least that field. */
  lemma PublishEmitsFirst(o: Outputs, f: Field, rest: seq<Field>)
    requires Stored(o, f.slot) != f.value
    ensures |Publish(o, [f] + rest, true).log| > |o.log|
  {
    PublishAppend(o, [f], rest, true);
    PublishLast(o, [f], true);
    assert [f][..0] == [];
  }

  /** After a run whose tail does not touch slot `s`, the slot holds the
      last value the head gave it. */
  lemma SharedSlotHoldsLast(o: Outputs, head: seq<Field>, after: seq<Field>, s: Slot, filter: bool)
    requires forall i :: 0 <= i < |after| ==> after[i].slot != s
    requires |head| > 0 && head[|head| - 1].slot == s
    ensures Stored(Publish(o, head + after, filter), s) == head[|head| - 1].value
  {
    PublishAppend(o, head, after, filter);
    LastValueAbsent(after, s, head[|head| - 1].value);
  }

  /** Starting from a state whose slot `s` holds `y`: a run whose first
      field for `s` comes after fields that leave `s` alone and carries a
      value other than `y` emits something, with filtering on. */
  lemma RunFromStaleSlot(p: Outputs, before: seq<Field>, shared: seq<Field>, s: Slot)
    requires forall i :: 0 <= i < |before| ==> before[i].slot != s
    requires |shared| > 0 && shared[0].slot == s && shared[0].value != Stored(p, s)
    ensures |Publish(p, before + shared, true).log| > |p.log|
  {
    PublishAppend(p, before, shared, true);
    LastValueAbsent(before, s, Stored(p, s));
    assert shared == [shared[0]] + shared[1..];
    PublishEmitsFirst(Publish(p, before, true), shared[0], shared[1..]);
  }

  /** A run `before + shared + after` where only `shared` touches slot `s`,
      starting with one value for it and ending with another: reading the
      run again with filtering on emits the first field of `shared` anew. */
  lemma SharedSlotRepeats(o: Outputs, before: seq<Field>, shared: seq<Field>, after: seq<Field>, s: Slot, filter: bool)
    requires forall i :: 0 <= i < |before| ==> before[i].slot != s
    requires forall i :: 0 <= i < |after| ==> after[i].slot != s
    requires |shared| > 0 && shared[0].slot == s && shared[|shared| - 1].slot == s
    requires shared[0].value != shared[|shared| - 1].value
    ensures var fields := before + shared + after;
      |Publish(Publish(o, fields, filter), fields, true).log| > |Publish(o, fields, filter).log|
  {
    SharedSlotHoldsLast(o, before + shared, after, s, filter);
    var p := Publish(o, before + shared + after, filter);
    RunFromStaleSlot(p, before, shared, s);
    PublishAppend(p, before + shared, after, true);
  }

  /** No two fields share a slot. */
  predicate DistinctSlots(fields: seq<Field>) {
    forall i, j :: 0 <= i < j < |fields| ==> fields[i].slot != fields[j].slot
  }

  lemma {:induction false} LastValueOfOwnSlot(fields: seq<Field>, k: int, d: real)
    requires DistinctSlots(fields) && 0 <= k < |fields|
    ensures LastValue(fields, fields[k].slot, d) == fields[k].value
    decreases |fields|
  {
    if k < |fields| - 1 {
      LastValueOfOwnSlot(fields[..|fields| - 1], k, d);
    }
  }

  /** When the fields have distinct slots, publishing them again with
      filtering on emits nothing and leaves the state as it was: a report
      that has not changed produces no messages. */
  lemma RepublishIsSilent(o: Outputs, fields: seq<Field>, filter: bool)
    requires DistinctSlots(fields)
    ensures Publish(Publish(o, fields, filter), fields, true) == Publish(o, fields, filter)
  {
    var p := Publish(o, fields, filter);
    for k := 0 to |fields|
      invariant Publish(p, fields[..k], true) == p
    {
      LastValueOfOwnSlot(fields, k, Stored(o, fields[k].slot));
      assert fields[..k + 1][..k] == fields[..k];
    }
    assert fields[..|fields|] == fields;
  }
}
