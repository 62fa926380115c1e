/**
 * One drawing-tablet device: its classification, fixed when it is built from
 * its descriptor, and the state each poll overwrites.
 */
module Tablet {
  import opened XInput
  import opened Classify
  import opened Polling

  /**
   * `std::vector::resize` on the button slots: the first `n` slots are kept
   * and any new slot is value-initialised (not pressed, released or held).
   */
  function Resized(buttons: seq<HWButton>, n: nat): (r: seq<HWButton>)
    ensures |r| == n
    ensures forall j :: 0 <= j < n ==> r[j] == if j < |buttons| then buttons[j] else Idle
  {
    if n <= |buttons| then buttons[..n] else buttons + seq(n - |buttons|, _ => Idle)
  }

  class DrawingTablet {
    var deviceId: int
    var name: string
    var kind: DeviceType
    var supportsPressure: bool
    var supportsTilt: bool

    var position: Vec2
    var pressure: real
    var tilt: Vec2
    var buttonStates: seq<HWButton>

    /** No slot ever reports a press and a release in the same poll. */
    ghost predicate Valid()
      reads this
    {
      AllNoDoubleEdge(buttonStates)
    }

    /** The fields a poll overwrites, as one value. */
    function Polled(): PolledState
      reads this
    {
      PolledState(position, pressure, tilt, buttonStates)
    }

    /** The identity and capabilities this object recorded from descriptor `info`. */
    ghost predicate ClassifiedAs(info: DeviceInfo)
      reads this
    {
      && deviceId == info.deviceId
      && name == info.name
      && kind == KindOf(info.name)
      && |buttonStates| == ButtonCount(info.classes)
      && supportsPressure == HasPressureAxis(info.classes)
      && supportsTilt == HasTiltAxis(info.classes)
    }

    /**
     * Classification: the kind from the name, one idle slot per button of
     * the (last) button class, pressure when some valuator is axis 2 and
     * tilt when some valuator is axis 3 or 4.
     */
    constructor (info: DeviceInfo)
      ensures Valid() && ClassifiedAs(info)
      ensures Polled() == Unpolled(|buttonStates|)
    {
      deviceId := info.deviceId;
      name := info.name;
      // The source leaves the type unassigned when neither keyword occurs.
      if Contains(info.name, StylusKeyword) {
        kind := Stylus;
      } else if Contains(info.name, EraserKeyword) {
        kind := Eraser;
      } else {
        kind := Unknown;
      }
      // The source gives the two capability flags no initial value; they
      // start out false here. The vectors start at (0, 0) as the host's
      // vector type does, and the pressure, also uninitialised there, at 0.
      supportsPressure := false;
      supportsTilt := false;
      position := Vec2(0.0, 0.0);
      pressure := 0.0;
      tilt := Vec2(0.0, 0.0);
      buttonStates := [];
      new;
      var classes := info.classes;
      var i := 0;
      while i < |classes|
        invariant 0 <= i <= |classes|
        invariant deviceId == info.deviceId && name == info.name && kind == KindOf(info.name)
        invariant position == Vec2(0.0, 0.0) && pressure == 0.0 && tilt == Vec2(0.0, 0.0)
        invariant |buttonStates| == ButtonCount(classes[..i])
        invariant forall j :: 0 <= j < |buttonStates| ==> buttonStates[j] == Idle
        invariant supportsPressure == HasPressureAxis(classes[..i])
        invariant supportsTilt == HasTiltAxis(classes[..i])
      {
        assert classes[..i + 1][..i] == classes[..i];
        HasAxisExtend(classes, i, 2);
        HasAxisExtend(classes, i, 3);
        HasAxisExtend(classes, i, 4);
        match classes[i] {
          case ButtonClass(numButtons, _) =>
            buttonStates := Resized(buttonStates, numButtons);
          case ValuatorClass(number, _, _, _) =>
            if number == 2 {
              supportsPressure := true;
            } else if number == 3 || number == 4 {
              supportsTilt := true;
            }
          case OtherClass(_) =>
        }
        i := i + 1;
      }
      assert classes[..i] == classes;
      assert buttonStates == Unpolled(|buttonStates|).buttons;
    }

    function GetName(): string
      reads this
    {
      name
    }

    function GetDeviceID(): int
      reads this
    {
      deviceId
    }

    function GetPossibleButtonCount(): nat
      reads this
    {
      |buttonStates|
    }

    function SupportsPressure(): bool
      reads this
    {
      supportsPressure
    }

    function SupportsTilt(): bool
      reads this
    {
      supportsTilt
    }

    function GetType(): DeviceType
      reads this
    {
      kind
    }

    function GetNormalizedPosition(): Vec2
      reads this
    {
      position
    }

    function GetPressure(): real
      reads this
    {
      pressure
    }

    function GetTilt(): Vec2
      reads this
    {
      tilt
    }

    /** The last-polled state of one button, which never has both edges raised. */
    function GetButton(button: nat): (b: HWButton)
      reads this
      requires Valid()
      requires button < |buttonStates|
      ensures NoDoubleEdge(b)
    {
      buttonStates[button]
    }

    /**
     * One poll against `classes`, the device's classes as re-queried for
     * this frame: the polled fields become `ApplyClasses` of their old
     * values, and identity, kind, capabilities and slot count stay as they were.
     */
    method Poll(classes: seq<ClassInfo>)
      requires Valid()
      requires AllReadable(classes, |buttonStates|)
      modifies this
      ensures Valid()
      ensures Polled() == ApplyClasses(old(Polled()), classes)
      ensures |buttonStates| == old(|buttonStates|)
      ensures deviceId == old(deviceId) && name == old(name) && kind == old(kind)
      ensures supportsPressure == old(supportsPressure) && supportsTilt == old(supportsTilt)
    {
      var i := 0;
      while i < |classes|
        invariant 0 <= i <= |classes|
        invariant |buttonStates| == old(|buttonStates|)
        invariant Polled() == ApplyClasses(old(Polled()), classes[..i])
        invariant deviceId == old(deviceId) && name == old(name) && kind == old(kind)
        invariant supportsPressure == old(supportsPressure) && supportsTilt == old(supportsTilt)
      {
        assert classes[..i + 1][..i] == classes[..i];
        match classes[i] {
          case ValuatorClass(number, value, min, max) =>
            if number == 0 {
              position := position.(x := NormalizeRange(value, min, max));
            } else if number == 1 {
              position := position.(y := NormalizeRange(value, min, max));
            } else if number == 2 {
              pressure := NormalizeRange(value, min, max);
            } else if number == 3 {
              tilt := tilt.(x := NormalizeRange(value, min, max));
            } else if number == 4 {
              tilt := tilt.(y := NormalizeRange(value, min, max));
            }
          case ButtonClass(_, mask) =>
            ghost var mid := Polled();
            ghost var before := buttonStates;
            var j := 0;
            while j < |buttonStates|
              invariant 0 <= j <= |buttonStates| == |before|
              invariant forall k :: 0 <= k < j ==> buttonStates[k] == StepButton(before[k], MaskBit(mask, k))
              invariant forall k :: j <= k < |buttonStates| ==> buttonStates[k] == before[k]
              invariant position == mid.position && pressure == mid.pressure && tilt == mid.tilt
              invariant deviceId == old(deviceId) && name == old(name) && kind == old(kind)
              invariant supportsPressure == old(supportsPressure) && supportsTilt == old(supportsTilt)
            {
              var b := buttonStates[j].(pressed := false, released := false);
              var byteIndex := j / CharBit;
              var bitIndex := j % CharBit;
              var currentMask := mask[byteIndex];
              var currentBit := (currentMask >> bitIndex) & 1;
              if currentBit == 0 && b.held {
                b := b.(held := false, released := true);
              } else if currentBit != 0 && !b.held {
                b := b.(held := true, pressed := true);
              }
              buttonStates := buttonStates[j := b];
              j := j + 1;
            }
            assert buttonStates == StepButtons(before, mask);
          case OtherClass(_) =>
        }
        i := i + 1;
      }
      assert classes[..i] == classes;
      PollKeepsNoDoubleEdge(old(Polled()), classes);
    }
  }

  /** Extending the classes seen so far by one: the axis is present if it was, or if the new class reports it. */
  lemma HasAxisExtend(classes: seq<ClassInfo>, i: int, axis: int)
    requires 0 <= i < |classes|
    ensures HasAxis(classes[..i + 1], axis) <==>
      HasAxis(classes[..i], axis) || (classes[i].ValuatorClass? && classes[i].number == axis)
  {
    var a, b := classes[..i + 1], classes[..i];
    assert forall k :: 0 <= k < i ==> a[k] == b[k];
    assert a[i] == classes[i];
  }
}
