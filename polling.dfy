/**
 * What one poll of a tablet computes, as functions on values.
 *
 * A poll re-reads the device's classes and walks them in order: a valuator
 * class with axis number 0..4 overwrites one normalised field (position x,
 * position y, pressure, tilt x, tilt y), and a button class runs the
 * press/release edge detector over every button slot against the state left
 * by the previous poll. `ApplyClasses` is that walk; the `Poll` method of
 * `Tablet.DrawingTablet` is proved to compute it in place.
 */
module Polling {
  import opened XInput
  import opened Classify

  datatype Vec2 = Vec2(x: real, y: real)

  /** The per-button state of the host framework: pressed and released are edges, held is a level. */
  datatype HWButton = HWButton(pressed: bool, released: bool, held: bool)

  /** A button slot as allocated at construction: not pressed, not released, not held. */
  const Idle: HWButton := HWButton(false, false, false)

  /** The part of a tablet that a poll overwrites. */
  datatype PolledState = PolledState(position: Vec2, pressure: real, tilt: Vec2, buttons: seq<HWButton>)

  /** The state before the first poll: centred at the origin, no pressure or tilt, `n` idle slots. */
  function Unpolled(n: nat): (r: PolledState)
    ensures |r.buttons| == n && forall j :: 0 <= j < n ==> r.buttons[j] == Idle
  {
    PolledState(Vec2(0.0, 0.0), 0.0, Vec2(0.0, 0.0), seq(n, _ => Idle))
  }

  /**
   * Maps a raw reading onto its reported range: `(value - min) / (max - min)`.
   * The result is 0 at `min`, 1 at `max` and within [0, 1] for in-range readings.
   */
  function NormalizeRange(value: real, min: real, max: real): (r: real)
    requires min < max
    ensures value == min ==> r == 0.0
    ensures value == max ==> r == 1.0
    ensures min <= value <= max ==> 0.0 <= r <= 1.0
  {
    var d := max - min;
    var r := (value - min) / d;
    assert r * d == value - min;
    assert (1.0 - r) * d == max - value;
    assert value <= max ==> r <= 1.0;
    assert value >= min ==> r >= 0.0;
    r
  }

  /** The inverse mapping: a normalised value scaled back onto the range gives the reading. */
  lemma NormalizeInverse(value: real, min: real, max: real)
    requires min < max
    ensures min + NormalizeRange(value, min, max) * (max - min) == value
  {
  }

  /** A larger reading never normalises to a smaller value. */
  lemma NormalizeMonotonic(v: real, w: real, min: real, max: real)
    requires min < max && v <= w
    ensures NormalizeRange(v, min, max) <= NormalizeRange(w, min, max)
  {
    var d := max - min;
    assert NormalizeRange(w, min, max) - NormalizeRange(v, min, max) == (w - v) / d;
    assert (w - v) / d >= 0.0;
  }

  /**
   * One button slot against its mask bit: both edges are cleared, then a
   * held button whose bit is clear is released and an unheld button whose
   * bit is set is pressed.
   */
  function StepButton(b: HWButton, bit: bool): (r: HWButton)
    ensures r.held == bit
    ensures r.pressed <==> bit && !b.held
    ensures r.released <==> !bit && b.held
  {
    var cleared := b.(pressed := false, released := false);
    if !bit && b.held then cleared.(held := false, released := true)
    else if bit && !b.held then cleared.(held := true, pressed := true)
    else cleared
  }

  /** Feeding the same bit twice: the second step reports no edge and keeps the level. */
  lemma StepButtonSettles(b: HWButton, bit: bool)
    ensures StepButton(StepButton(b, bit), bit) == HWButton(false, false, bit)
  {
  }

  /** An edge never reports a press and a release at once. */
  predicate NoDoubleEdge(b: HWButton)
  {
    !(b.pressed && b.released)
  }

  predicate AllNoDoubleEdge(buttons: seq<HWButton>)
  {
    forall j :: 0 <= j < |buttons| ==> NoDoubleEdge(buttons[j])
  }

  /**
   * Every slot `j` of `buttons` stepped against bit `j` of the mask, for
   * exactly the slots `0 <= j < |buttons|`; the mask must cover them all.
   */
  function StepButtons(buttons: seq<HWButton>, mask: seq<bv8>): (r: seq<HWButton>)
    requires |buttons| <= CharBit * |mask|
    ensures |r| == |buttons|
    ensures AllNoDoubleEdge(r)
  {
    seq(|buttons|, j requires 0 <= j < |buttons| => StepButton(buttons[j], MaskBit(mask, j)))
  }

  /**
   * What the source needs of one class in a poll snapshot: a valuator it
   * normalises (axes 0..4) has a non-degenerate range, and a button mask
   * has a bit for every button slot.
   */
  predicate Readable(c: ClassInfo, buttonCount: nat)
  {
    match c
    case ValuatorClass(number, _, min, max) => 0 <= number <= 4 ==> min < max
    case ButtonClass(_, mask) => buttonCount <= CharBit * |mask|
    case OtherClass(_) => true
  }

  predicate AllReadable(classes: seq<ClassInfo>, buttonCount: nat)
  {
    forall i :: 0 <= i < |classes| ==> Readable(classes[i], buttonCount)
  }

  /** The effect of one class of the snapshot on the polled state. */
  function ApplyClass(s: PolledState, c: ClassInfo): (r: PolledState)
    requires Readable(c, |s.buttons|)
    ensures |r.buttons| == |s.buttons|
  {
    match c
    case ValuatorClass(number, value, min, max) =>
      if number == 0 then s.(position := s.position.(x := NormalizeRange(value, min, max)))
      else if number == 1 then s.(position := s.position.(y := NormalizeRange(value, min, max)))
      else if number == 2 then s.(pressure := NormalizeRange(value, min, max))
      else if number == 3 then s.(tilt := s.tilt.(x := NormalizeRange(value, min, max)))
      else if number == 4 then s.(tilt := s.tilt.(y := NormalizeRange(value, min, max)))
      else s
    case ButtonClass(_, mask) => s.(buttons := StepButtons(s.buttons, mask))
    case OtherClass(_) => s
  }

  /** A whole poll: the classes of the snapshot applied in order. */
  function ApplyClasses(s: PolledState, classes: seq<ClassInfo>): (r: PolledState)
    requires AllReadable(classes, |s.buttons|)
    ensures |r.buttons| == |s.buttons|
  {
    if |classes| == 0 then s
    else ApplyClass(ApplyClasses(s, classes[..|classes| - 1]), classes[|classes| - 1])
  }

  /** The normalised field valuator axis `axis` is routed to. */
  function Field(s: PolledState, axis: int): real
    requires 0 <= axis <= 4
  {
    if axis == 0 then s.position.x
    else if axis == 1 then s.position.y
    else if axis == 2 then s.pressure
    else if axis == 3 then s.tilt.x
    else s.tilt.y
  }

  /** `classes[k]` is the last valuator class reporting axis `axis`. */
  ghost predicate IsLastAxis(classes: seq<ClassInfo>, axis: int, k: int)
  {
    0 <= k < |classes| && classes[k].ValuatorClass? && classes[k].number == axis
    && forall i :: k < i < |classes| ==> !(classes[i].ValuatorClass? && classes[i].number == axis)
  }

  /** One class of the snapshot: a valuator for `axis` overwrites that field, anything else keeps it. */
  lemma ApplyClassField(s: PolledState, c: ClassInfo, axis: int)
    requires 0 <= axis <= 4
    requires Readable(c, |s.buttons|)
    ensures c.ValuatorClass? && c.number == axis ==>
      Field(ApplyClass(s, c), axis) == NormalizeRange(c.value, c.min, c.max)
    ensures !(c.ValuatorClass? && c.number == axis) ==> Field(ApplyClass(s, c), axis) == Field(s, axis)
  {
  }

  /**
   * Valuator routing over a whole poll: field `axis` holds the normalised
   * reading of the last valuator class for that axis, and keeps its value
   * from before the poll when the snapshot has none.
   */
  lemma {:induction false} PollRoutesAxis(s: PolledState, classes: seq<ClassInfo>, axis: int)
    requires 0 <= axis <= 4
    requires AllReadable(classes, |s.buttons|)
    ensures !HasAxis(classes, axis) ==> Field(ApplyClasses(s, classes), axis) == Field(s, axis)
    ensures forall k :: IsLastAxis(classes, axis, k) ==>
      Field(ApplyClasses(s, classes), axis) == NormalizeRange(classes[k].value, classes[k].min, classes[k].max)
  {
    if |classes| > 0 {
      var n := |classes|;
      var init, last := classes[..n - 1], classes[n - 1];
      assert AllReadable(init, |s.buttons|);
      var mid := ApplyClasses(s, init);
      assert ApplyClasses(s, classes) == ApplyClass(mid, last);
      ApplyClassField(mid, last, axis);
      if last.ValuatorClass? && last.number == axis {
        assert HasAxis(classes, axis);
        assert forall k :: IsLastAxis(classes, axis, k) ==> k == n - 1;
      } else {
        PollRoutesAxis(s, init, axis);
        forall i | 0 <= i < |init| && init[i].ValuatorClass? && init[i].number == axis
          ensures HasAxis(classes, axis)
        {
          assert classes[i] == init[i];
        }
        forall k | IsLastAxis(classes, axis, k)
          ensures IsLastAxis(init, axis, k)
        {
        }
      }
    }
  }

  /** A valuator whose number is not 0..4 changes nothing. */
  lemma OtherAxisIgnored(s: PolledState, number: int, value: real, min: real, max: real)
    requires !(0 <= number <= 4)
    ensures ApplyClass(s, ValuatorClass(number, value, min, max)) == s
  {
  }

  /** Valuators never touch the buttons, whatever their axis. */
  lemma {:induction false} PollWithoutButtonClass(s: PolledState, classes: seq<ClassInfo>)
    requires AllReadable(classes, |s.buttons|)
    requires forall i :: 0 <= i < |classes| ==> !classes[i].ButtonClass?
    ensures ApplyClasses(s, classes).buttons == s.buttons
  {
    if |classes| > 0 {
      PollWithoutButtonClass(s, classes[..|classes| - 1]);
    }
  }

  /** `classes[k]` is the one and only button class of a snapshot. */
  ghost predicate IsOnlyButtonClass(classes: seq<ClassInfo>, k: int)
  {
    0 <= k < |classes| && classes[k].ButtonClass?
    && forall i :: 0 <= i < |classes| && i != k ==> !classes[i].ButtonClass?
  }

  /** With a single button class, a poll steps every slot exactly once against its mask. */
  lemma {:induction false} PollStepsButtonsOnce(s: PolledState, classes: seq<ClassInfo>, k: int)
    requires AllReadable(classes, |s.buttons|)
    requires IsOnlyButtonClass(classes, k)
    ensures ApplyClasses(s, classes).buttons == StepButtons(s.buttons, classes[k].mask)
  {
    var n := |classes|;
    var init := classes[..n - 1];
    assert AllReadable(init, |s.buttons|);
    if k == n - 1 {
      PollWithoutButtonClass(s, init);
    } else {
      assert IsOnlyButtonClass(init, k);
      PollStepsButtonsOnce(s, init, k);
    }
  }

  /**
   * The edge detector over a poll whose snapshot has one button class:
   * button `j` ends held exactly when mask bit `j` is set, reports a press
   * exactly when it was not held and the bit is set, and a release exactly
   * when it was held and the bit is clear.
   */
  lemma PollButtonEdges(s: PolledState, classes: seq<ClassInfo>, k: int, j: int)
    requires AllReadable(classes, |s.buttons|)
    requires IsOnlyButtonClass(classes, k)
    requires 0 <= j < |s.buttons|
    ensures j / CharBit < |classes[k].mask|
    ensures var before, after, bit := s.buttons[j], ApplyClasses(s, classes).buttons[j], MaskBit(classes[k].mask, j);
      && after.held == bit
      && (after.pressed <==> bit && !before.held)
      && (after.released <==> !bit && before.held)
  {
    PollStepsButtonsOnce(s, classes, k);
  }

  /**
   * A snapshot that reports the same button class twice steps the slots
   * twice: a button going down is marked pressed by the first class and the
   * mark is cleared by the second, so the poll reports it held but not pressed.
   */
  lemma RepeatedButtonClassLosesPress(s: PolledState, c: ClassInfo, j: int)
    requires c.ButtonClass? && Readable(c, |s.buttons|)
    requires 0 <= j < |s.buttons| && !s.buttons[j].held
    requires j / CharBit < |c.mask| && MaskBit(c.mask, j)
    ensures ApplyClasses(s, [c]).buttons[j].pressed
    ensures ApplyClasses(s, [c, c]).buttons[j] == HWButton(false, false, true)
  {
    assert [c][..0] == [];
    assert [c, c][..1] == [c];
  }

  /** A poll never leaves a slot both pressed and released. */
  lemma {:induction false} PollKeepsNoDoubleEdge(s: PolledState, classes: seq<ClassInfo>)
    requires AllReadable(classes, |s.buttons|)
    requires AllNoDoubleEdge(s.buttons)
    ensures AllNoDoubleEdge(ApplyClasses(s, classes).buttons)
  {
    if |classes| > 0 {
      PollKeepsNoDoubleEdge(s, classes[..|classes| - 1]);
    }
  }

  /**
   * Polling twice with the same snapshot (one button class): the second poll
   * reproduces position, pressure and tilt, keeps every held level and
   * reports no edge at all.
   */
  lemma PollTwiceSettles(s: PolledState, classes: seq<ClassInfo>, k: int)
    requires AllReadable(classes, |s.buttons|)
    requires IsOnlyButtonClass(classes, k)
    ensures var once := ApplyClasses(s, classes);
      AllReadable(classes, |once.buttons|)
      && var twice := ApplyClasses(once, classes);
      && twice.position == once.position && twice.pressure == once.pressure && twice.tilt == once.tilt
      && |twice.buttons| == |once.buttons|
      && forall j :: 0 <= j < |once.buttons| ==> twice.buttons[j] == HWButton(false, false, once.buttons[j].held)
  {
    var once := ApplyClasses(s, classes);
    assert AllReadable(classes, |once.buttons|);
    var twice := ApplyClasses(once, classes);
    forall axis | 0 <= axis <= 4
      ensures Field(twice, axis) == Field(once, axis)
    {
      PollRoutesAxis(s, classes, axis);
      PollRoutesAxis(once, classes, axis);
      if HasAxis(classes, axis) {
        var k' := LastAxisExists(classes, axis);
      }
    }
    assert Field(twice, 0) == Field(once, 0) && Field(twice, 1) == Field(once, 1);
    assert Field(twice, 2) == Field(once, 2);
    assert Field(twice, 3) == Field(once, 3) && Field(twice, 4) == Field(once, 4);
    PollStepsButtonsOnce(s, classes, k);
    PollStepsButtonsOnce(once, classes, k);
    forall j | 0 <= j < |once.buttons|
      ensures twice.buttons[j] == HWButton(false, false, once.buttons[j].held)
    {
      StepButtonSettles(s.buttons[j], MaskBit(classes[k].mask, j));
    }
  }

  /** A snapshot that reports an axis has a last valuator class for it. */
  lemma {:induction false} LastAxisExists(classes: seq<ClassInfo>, axis: int) returns (k: int)
    requires HasAxis(classes, axis)
    ensures IsLastAxis(classes, axis, k)
  {
    var n := |classes|;
    if classes[n - 1].ValuatorClass? && classes[n - 1].number == axis {
      k := n - 1;
    } else {
      var init := classes[..n - 1];
      assert HasAxis(init, axis) by {
        var i :| 0 <= i < n && classes[i].ValuatorClass? && classes[i].number == axis;
        assert init[i] == classes[i];
      }
      k := LastAxisExists(init, axis);
    }
  }
}
