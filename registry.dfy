/**
 * The tablet registry: built once from the enumerated input devices, it
 * keeps a `DrawingTablet` for every device whose name marks it as a stylus
 * or an eraser, in enumeration order, and answers first-match lookups.
 */
module Registry {
  import opened XInput
  import opened Classify
  import opened Polling
  import opened Tablet

  /** The descriptors the registry keeps: those with a tablet name, in enumeration order. */
  function TabletDevices(devices: seq<DeviceInfo>): (r: seq<DeviceInfo>)
    ensures |r| <= |devices|
  {
    if |devices| == 0 then []
    else
      var last := devices[|devices| - 1];
      TabletDevices(devices[..|devices| - 1]) + if IsTabletName(last.name) then [last] else []
  }

  /** Exactly the tablet-named devices are kept: nothing else gets in and none of them is dropped. */
  lemma {:induction false} TabletDevicesMembers(devices: seq<DeviceInfo>)
    ensures forall d :: d in TabletDevices(devices) <==> d in devices && IsTabletName(d.name)
  {
    if |devices| > 0 {
      var init := devices[..|devices| - 1];
      TabletDevicesMembers(init);
      assert devices == init + [devices[|devices| - 1]];
    }
  }

  /** Enumeration order is kept: the registry of two runs of devices is the registry of each, in turn. */
  lemma {:induction false} TabletDevicesAppend(a: seq<DeviceInfo>, b: seq<DeviceInfo>)
    ensures TabletDevices(a + b) == TabletDevices(a) + TabletDevices(b)
  {
    if |b| == 0 {
      assert a + b == a;
    } else {
      var init := b[..|b| - 1];
      TabletDevicesAppend(a, init);
      assert (a + b)[..|a + b| - 1] == a + init;
    }
  }

  /** The lookup condition, in the source's own form (tilt is compared with the request). */
  predicate Qualifies(t: DrawingTablet, minimumButton: nat, needPressure: bool, needTilt: bool)
    reads t
  {
    && t.GetPossibleButtonCount() >= minimumButton
    && (!needPressure || t.SupportsPressure())
    && (!needTilt || t.SupportsTilt() == needTilt)
  }

  /**
   * For a tablet built from descriptor `d`, the lookup condition is a plain
   * "has at least that many buttons, and pressure and tilt where asked".
   */
  lemma QualifiesByDescriptor(t: DrawingTablet, d: DeviceInfo, minimumButton: nat, needPressure: bool, needTilt: bool)
    requires t.ClassifiedAs(d)
    ensures Qualifies(t, minimumButton, needPressure, needTilt) <==>
      && ButtonCount(d.classes) >= minimumButton
      && (needPressure ==> HasPressureAxis(d.classes))
      && (needTilt ==> HasTiltAxis(d.classes))
  {
  }

  /** `ts[k]` meets the request and no tablet before it does. */
  ghost predicate IsFirstQualifying(ts: seq<DrawingTablet>, k: int, minimumButton: nat, needPressure: bool, needTilt: bool)
    reads ts
  {
    && 0 <= k < |ts|
    && Qualifies(ts[k], minimumButton, needPressure, needTilt)
    && forall i :: 0 <= i < k ==> !Qualifies(ts[i], minimumButton, needPressure, needTilt)
  }

  /**
   * The position of the first tablet of `ts` that meets the request, or
   * `|ts|` when none does.
   */
  function FirstQualifying(ts: seq<DrawingTablet>, minimumButton: nat, needPressure: bool, needTilt: bool): (k: nat)
    reads ts
    ensures k <= |ts|
    ensures k < |ts| ==> Qualifies(ts[k], minimumButton, needPressure, needTilt)
    ensures forall i :: 0 <= i < k ==> !Qualifies(ts[i], minimumButton, needPressure, needTilt)
  {
    if |ts| == 0 then 0
    else if Qualifies(ts[0], minimumButton, needPressure, needTilt) then 0
    else 1 + FirstQualifying(ts[1..], minimumButton, needPressure, needTilt)
  }

  class DrawingTabletManager {
    var tablets: seq<DrawingTablet>
    /** The device list the registry was built from. */
    ghost const enumerated: seq<DeviceInfo>

    /**
     * The registry holds one distinct tablet per tablet-named descriptor, in
     * enumeration order, each classified from its descriptor.
     */
    ghost predicate Valid()
      reads this, tablets
    {
      && |tablets| == |TabletDevices(enumerated)|
      && (forall k :: 0 <= k < |tablets| ==> tablets[k].ClassifiedAs(TabletDevices(enumerated)[k]))
      && (forall k :: 0 <= k < |tablets| ==> tablets[k].Valid())
      && (forall i, j :: 0 <= i < j < |tablets| ==> tablets[i] != tablets[j])
    }

    /**
     * Builds the registry from `devices`, the device list the input
     * subsystem enumerated: a tablet is made for each device whose name
     * contains "stylus" or "eraser" and the rest are skipped.
     */
    constructor (devices: seq<DeviceInfo>)
      ensures enumerated == devices && Valid()
      ensures forall k :: 0 <= k < |tablets| ==> fresh(tablets[k])
      ensures forall k :: 0 <= k < |tablets| ==> tablets[k].Polled() == Unpolled(|tablets[k].buttonStates|)
    {
      enumerated := devices;
      tablets := [];
      new;
      var i := 0;
      while i < |devices|
        invariant 0 <= i <= |devices|
        invariant |tablets| == |TabletDevices(devices[..i])|
        invariant forall k :: 0 <= k < |tablets| ==> tablets[k].ClassifiedAs(TabletDevices(devices[..i])[k])
        invariant forall k :: 0 <= k < |tablets| ==> tablets[k].Valid() && fresh(tablets[k])
        invariant forall a, b :: 0 <= a < b < |tablets| ==> tablets[a] != tablets[b]
        invariant forall k :: 0 <= k < |tablets| ==> tablets[k].Polled() == Unpolled(|tablets[k].buttonStates|)
      {
        var info := devices[i];
        assert devices[..i + 1][..i] == devices[..i];
        if !Contains(info.name, StylusKeyword) && !Contains(info.name, EraserKeyword) {
          i := i + 1;
          continue;
        }
        var t := new DrawingTablet(info);
        tablets := tablets + [t];
        i := i + 1;
      }
      assert devices[..i] == devices;
    }

    /** The number of registered tablets: the number of tablet-named devices enumerated. */
    function GetTabletCount(): (n: nat)
      reads this, tablets
      requires Valid()
      ensures n == |TabletDevices(enumerated)|
    {
      |tablets|
    }

    /**
     * The first registered tablet with at least `minimumButton` buttons,
     * pressure support if `needPressure` and tilt support if `needTilt`, or
     * null when no registered tablet qualifies.
     */
    function GetTablet(minimumButton: nat := 0, needPressure: bool := false, needTilt: bool := false): (r: DrawingTablet?)
      reads this, tablets
      ensures r == null <==> forall i :: 0 <= i < |tablets| ==> !Qualifies(tablets[i], minimumButton, needPressure, needTilt)
      ensures r != null ==> exists k :: IsFirstQualifying(tablets, k, minimumButton, needPressure, needTilt) && r == tablets[k]
    {
      var k := FirstQualifying(tablets, minimumButton, needPressure, needTilt);
      if k < |tablets| then tablets[k] else null
    }

    /** Every registered tablet has a kind: the name filter rules out `Unknown`. */
    lemma RegisteredKinds()
      requires Valid()
      ensures forall k :: 0 <= k < |tablets| ==> tablets[k].kind != Unknown
    {
      TabletDevicesMembers(enumerated);
      forall k | 0 <= k < |tablets| ensures tablets[k].kind != Unknown {
        var d := TabletDevices(enumerated)[k];
        assert d in TabletDevices(enumerated);
        KindOfKeywords(d.name);
      }
    }
  }
}
