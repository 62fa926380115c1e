/**
 * Classification of one device, decided once when a `DrawingTablet` is
 * built from its descriptor: the device kind (from its name), the number of
 * button slots (from its button class) and the pressure and tilt
 * capabilities (from the axis numbers of its valuator classes).
 */
module Classify {
  import opened XInput

  /**
   * The source's enum has only Stylus and Eraser and leaves the field
   * unassigned when a name contains neither keyword; `Unknown` names that case.
   */
  datatype DeviceType = Stylus | Eraser | Unknown

  const StylusKeyword: string := "stylus"
  const EraserKeyword: string := "eraser"

  /** Case-sensitive substring search, as `std::string::find(...) != npos`. */
  function Contains(s: string, pattern: string): bool
  {
    pattern <= s || (|s| > 0 && Contains(s[1..], pattern))
  }

  /** `pattern` occurs in `s` at position `at`. */
  ghost predicate OccursAt(s: string, pattern: string, at: nat)
  {
    at + |pattern| <= |s| && s[at..at + |pattern|] == pattern
  }

  /** A pattern that occurs at position `at` is found. */
  lemma {:induction false} FoundAt(s: string, pattern: string, at: nat)
    requires OccursAt(s, pattern, at)
    ensures Contains(s, pattern)
  {
    if at > 0 {
      assert s[1..][at - 1..at - 1 + |pattern|] == s[at..at + |pattern|];
      FoundAt(s[1..], pattern, at - 1);
    } else {
      assert s[..|pattern|] == pattern;
    }
  }

  /** A pattern that is found occurs at some position, which is returned. */
  lemma {:induction false} FoundWhere(s: string, pattern: string) returns (at: nat)
    requires Contains(s, pattern)
    ensures OccursAt(s, pattern, at)
  {
    if pattern <= s {
      assert s[0..|pattern|] == pattern;
      at := 0;
    } else {
      var rest := FoundWhere(s[1..], pattern);
      assert s[rest + 1..rest + 1 + |pattern|] == s[1..][rest..rest + |pattern|];
      at := rest + 1;
    }
  }

  /** `Contains` finds the pattern exactly when it occurs at some position. */
  lemma ContainsIff(s: string, pattern: string)
    ensures Contains(s, pattern) <==> exists at: nat :: OccursAt(s, pattern, at)
  {
    if Contains(s, pattern) {
      var at := FoundWhere(s, pattern);
    }
    if exists at: nat :: OccursAt(s, pattern, at) {
      var at: nat :| OccursAt(s, pattern, at);
      FoundAt(s, pattern, at);
    }
  }

  /** A device is treated as a tablet when its name contains "stylus" or "eraser". */
  predicate IsTabletName(name: string)
  {
    Contains(name, StylusKeyword) || Contains(name, EraserKeyword)
  }

  /** The kind of a device: "stylus" is tested first, then "eraser". */
  function KindOf(name: string): DeviceType
  {
    if Contains(name, StylusKeyword) then Stylus
    else if Contains(name, EraserKeyword) then Eraser
    else Unknown
  }

  /**
   * The kind names exactly the keyword matches: a stylus wins over an eraser
   * when both keywords occur, and the kind is `Unknown` precisely for the
   * names the registry does not keep.
   */
  lemma KindOfKeywords(name: string)
    ensures KindOf(name) == Stylus <==> Contains(name, StylusKeyword)
    ensures KindOf(name) == Eraser <==> !Contains(name, StylusKeyword) && Contains(name, EraserKeyword)
    ensures KindOf(name) == Unknown <==> !IsTabletName(name)
  {
  }

  /**
   * The number of button slots: `num_buttons` of the last button class in
   * the descriptor (every button class resizes the slots again), 0 when
   * there is none.
   */
  function ButtonCount(classes: seq<ClassInfo>): nat
  {
    if |classes| == 0 then 0
    else if classes[|classes| - 1].ButtonClass? then classes[|classes| - 1].numButtons
    else ButtonCount(classes[..|classes| - 1])
  }

  /** `classes[k]` is the last button class of the descriptor. */
  ghost predicate IsLastButtonClass(classes: seq<ClassInfo>, k: int)
  {
    0 <= k < |classes| && classes[k].ButtonClass?
    && forall i :: k < i < |classes| ==> !classes[i].ButtonClass?
  }

  /** The slot count is that of the last button class, or 0 without one. */
  lemma {:induction false} ButtonCountIsLast(classes: seq<ClassInfo>)
    ensures (forall i :: 0 <= i < |classes| ==> !classes[i].ButtonClass?) ==> ButtonCount(classes) == 0
    ensures forall k :: IsLastButtonClass(classes, k) ==> ButtonCount(classes) == classes[k].numButtons
  {
    if |classes| > 0 {
      var init := classes[..|classes| - 1];
      ButtonCountIsLast(init);
      forall k | IsLastButtonClass(classes, k) && k < |classes| - 1
        ensures IsLastButtonClass(init, k)
      {
      }
    }
  }

  /** Some valuator class of the descriptor reports axis number `axis`. */
  predicate HasAxis(classes: seq<ClassInfo>, axis: int)
  {
    exists i :: 0 <= i < |classes| && classes[i].ValuatorClass? && classes[i].number == axis
  }

  /** Axis 2 is the pressure axis. */
  predicate HasPressureAxis(classes: seq<ClassInfo>)
  {
    HasAxis(classes, 2)
  }

  /** Axes 3 and 4 are the tilt axes; either one is enough. */
  predicate HasTiltAxis(classes: seq<ClassInfo>)
  {
    HasAxis(classes, 3) || HasAxis(classes, 4)
  }

  /** The position axes 0 and 1 never raise a capability flag, wherever they appear. */
  lemma PositionAxesSetNoFlag(classes: seq<ClassInfo>, c: ClassInfo)
    requires c.ValuatorClass? && (c.number == 0 || c.number == 1)
    ensures HasPressureAxis(classes + [c]) == HasPressureAxis(classes)
    ensures HasTiltAxis(classes + [c]) == HasTiltAxis(classes)
  {
    var all := classes + [c];
    assert forall i :: 0 <= i < |classes| ==> all[i] == classes[i];
    assert all[|classes|] == c;
  }
}
