/**
 * Two end-to-end scenarios of the model: one pen from construction through its
 * first poll, and a registry built from three enumerated devices answering
 * two lookups.
 */
module Scenarios {
  import opened XInput
  import opened Classify
  import opened Polling
  import opened Tablet
  import opened Registry

  /** A pattern whose first character does not occur in `s` is not contained in it. */
  lemma {:induction false} FirstCharAbsent(s: string, pattern: string)
    requires |pattern| > 0 && pattern[0] !in s
    ensures !Contains(s, pattern)
  {
    if |s| > 0 {
      assert pattern[0] != s[0];
      assert pattern[0] !in s[1..];
      FirstCharAbsent(s[1..], pattern);
    }
  }

  /**
   * A "Wacom stylus" with three buttons and axes 0, 1, 2 is a pressure-only
   * stylus with three slots; polled at x = 50 and pressure = 25 on 0..100
   * ranges with button 0 down, it reports x = 0.5, pressure 0.25 and a
   * press of button 0.
   */
  method WacomStylusScenario() returns (t: DrawingTablet)
    ensures t.Valid() && |t.buttonStates| == 3
    ensures t.GetPossibleButtonCount() == 3 && t.SupportsPressure() && !t.SupportsTilt()
    ensures t.GetType() == Stylus
    ensures t.GetNormalizedPosition().x == 0.5 && t.GetPressure() == 0.25
    ensures t.GetButton(0) == HWButton(true, false, true)
  {
    var name := "Wacom stylus";
    var range := ValuatorClass(0, 0.0, 0.0, 100.0);
    var classes := [ButtonClass(3, [0]), range, range.(number := 1), range.(number := 2)];
    FoundAt(name, StylusKeyword, 6);
    assert classes[3].ValuatorClass? && classes[3].number == 2;
    assert IsLastButtonClass(classes, 0);
    ButtonCountIsLast(classes);

    t := new DrawingTablet(DeviceInfo(11, name, classes));

    var down := [true, false, false];
    var snapshot := [ButtonClass(3, MaskOf(down)), range.(value := 50.0), range.(number := 1, value := 50.0),
                     range.(number := 2, value := 25.0)];
    ghost var before := t.Polled();
    t.Poll(snapshot);
    assert IsLastAxis(snapshot, 0, 1) && IsLastAxis(snapshot, 2, 3);
    PollRoutesAxis(before, snapshot, 0);
    PollRoutesAxis(before, snapshot, 2);
    assert IsOnlyButtonClass(snapshot, 0);
    PollButtonEdges(before, snapshot, 0, 0);
    MaskOfReads(down, 0);
  }

  /** Which of the three device names of the selection scenario carry a tablet keyword. */
  lemma ScenarioNames()
    ensures !IsTabletName("TouchPad") && IsTabletName("stylus 1") && IsTabletName("eraser 2")
  {
    FirstCharAbsent("TouchPad", StylusKeyword);
    FirstCharAbsent("TouchPad", EraserKeyword);
    assert StylusKeyword <= "stylus 1" && EraserKeyword <= "eraser 2";
  }

  /** The registry of three devices of which only the last two carry a tablet name. */
  lemma KeepsLastTwo(a: DeviceInfo, b: DeviceInfo, c: DeviceInfo)
    requires !IsTabletName(a.name) && IsTabletName(b.name) && IsTabletName(c.name)
    ensures TabletDevices([a, b, c]) == [b, c]
  {
    assert [a][..0] == [];
    assert TabletDevices([a]) == [];
    assert [a, b][..1] == [a];
    assert TabletDevices([a, b]) == [b];
    assert [a, b, c][..2] == [a, b];
  }

  /**
   * Of a touchpad, a two-button stylus and an eight-button eraser, the
   * registry keeps the stylus and the eraser in that order; asking for five
   * buttons selects the eraser, asking for twenty selects nothing.
   */
  method SelectionScenario() returns (m: DrawingTabletManager)
    ensures m.Valid() && m.GetTabletCount() == 2
    ensures m.GetTablet(5) == m.tablets[1] && m.tablets[1].GetPossibleButtonCount() == 8
    ensures m.GetTablet(20) == null
  {
    var pad := DeviceInfo(8, "TouchPad", []);
    var small := DeviceInfo(12, "stylus 1", [ButtonClass(2, [0])]);
    var large := DeviceInfo(13, "eraser 2", [ButtonClass(8, [0])]);
    var devices := [pad, small, large];
    ScenarioNames();
    KeepsLastTwo(pad, small, large);

    m := new DrawingTabletManager(devices);
    assert m.tablets[0].ClassifiedAs(small) && m.tablets[1].ClassifiedAs(large);
    assert !Qualifies(m.tablets[0], 5, false, false);
    assert Qualifies(m.tablets[1], 5, false, false);
  }
}
