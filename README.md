# Drawing-tablet device model

A Dafny model of the device-state core of `olcPGEX_DrawingTablet`. This is an
extension for the olc::PixelGameEngine that reads pen tablets through X11's
XInput2 extension. The model covers three parts:

- **Classification** (the `DrawingTablet` constructor). The kind comes from
  the device name: "stylus" is tested first, then "eraser". The number of
  button slots comes from the button class. Pressure support means some
  valuator has axis number 2. Tilt support means some valuator has axis
  number 3 or 4.
- **Polling** (`pollDevice`). Each valuator reading on axes 0 to 4 is mapped
  through `(value - min) / (max - min)` into position x, position y,
  pressure, tilt x or tilt y. A stateful press/release edge detector then
  runs over the button slots. It reads bit `j` of the button mask from byte
  `j / 8`, bit `j % 8`, least-significant bit first.
- **Registry** (`DrawingTabletManager`). It keeps, in enumeration order, the
  devices whose name contains "stylus" or "eraser". `GetTablet` returns the
  first registered tablet that meets a minimum button count and the optional
  pressure and tilt requirements, or null.

The X11 inputs are plain values (module `XInput`). A device descriptor is an
id, a name and a sequence of classes. Each class is a button class (button
count and packed mask), a valuator class (axis number, reading, range) or
another class kind that the code ignores. The manager's constructor takes the
enumerated device list as a parameter. `Poll` takes the class list that the
per-frame re-query returns.

Files and modules:

- `xinput.dfy` (`XInput`): the descriptors and the mask bit layout. `MaskBit`
  reads a bit. `SetMaskBit` writes bit `j` in the same layout that the XInput2 header's
  `XISetMask` macro uses.
- `classify.dfy` (`Classify`): substring search, kind, slot count and axis
  capabilities.
- `polling.dfy` (`Polling`): normalisation, the edge detector and
  `ApplyClasses`, a pure function giving the effect of one whole poll.
- `tablet.dfy` (`Tablet`): class `DrawingTablet`. It has the constructor
  loop, the accessors and the `Poll` method with its nested loops. `Poll` is
  proved to compute `ApplyClasses` in place.
- `registry.dfy` (`Registry`): class `DrawingTabletManager`, its filter loop
  and the first-match lookup.
- `scenarios.dfy` (`Scenarios`): two end-to-end scenarios. In the first, a
  three-button "Wacom stylus" is built and polled once. In the second, a
  registry of three devices answers two lookups.

Values the source leaves uninitialised are given explicit starting values:

- `supports_pressure` and `supports_tilt` start as false.
- The pressure starts at 0.
- The kind is `Unknown` when the name has neither keyword. The source leaves
  the field unassigned in that case.

## Model

| member | source | states |
|---|---|---|
| XInput.MaskBit | src/olcPGEX_DrawingTablet.h:187-190 | definition: bit `j` of a button mask is bit `j % 8` of byte `j / 8`, least-significant bit first |
| XInput.SetMaskBitReads | src/olcPGEX_DrawingTablet.h:187-190 | after bit `j` is raised in the `XISetMask` layout, bit `j` reads as set and every other bit reads as before, with bit `j` taken from byte `j / 8`, bit `j % 8` |
| XInput.MaskOfReads | src/olcPGEX_DrawingTablet.h:187-190 | round trip: reading bit `j` of the mask built from a list of button states gives back button `j`'s state, and padding bits read as clear |
| Classify.Contains | src/olcPGEX_DrawingTablet.h:89-93 | definition: the case-sensitive substring test, true when the keyword is a prefix of the name or of some suffix of it |
| Classify.FoundAt | src/olcPGEX_DrawingTablet.h:89-93 | a keyword that occurs at some position of the name is found by the name check |
| Classify.FoundWhere | src/olcPGEX_DrawingTablet.h:89-93 | when the name check finds a keyword, it returns a position at which the keyword occurs |
| Classify.ContainsIff | src/olcPGEX_DrawingTablet.h:89-93 | the name check is true exactly when the keyword occurs at some position of the name |
| Classify.IsTabletName | src/olcPGEX_DrawingTablet.h:252-253 | definition: a device counts as a tablet when its name contains "stylus" or "eraser" |
| Classify.KindOf | src/olcPGEX_DrawingTablet.h:89-93 | definition: Stylus when the name contains "stylus", else Eraser when it contains "eraser", else Unknown |
| Classify.KindOfKeywords | src/olcPGEX_DrawingTablet.h:89-93 | the kind is Stylus iff the name contains "stylus"; Eraser iff it contains "eraser" and not "stylus" (stylus wins); Unknown iff the name has neither keyword |
| Classify.ButtonCount | src/olcPGEX_DrawingTablet.h:95-103 | definition: the `num_buttons` of the last button class in the list, or 0 |
| Classify.ButtonCountIsLast | src/olcPGEX_DrawingTablet.h:95-103 | the slot count is `num_buttons` of the last button class, or 0 when there is no button class |
| Classify.HasPressureAxis | src/olcPGEX_DrawingTablet.h:104-109 | definition: some valuator class has axis number 2 |
| Classify.HasTiltAxis | src/olcPGEX_DrawingTablet.h:104-112 | definition: some valuator class has axis number 3 or 4 |
| Classify.PositionAxesSetNoFlag | src/olcPGEX_DrawingTablet.h:104-112 | a valuator on axis 0 or 1 changes neither the pressure flag nor the tilt flag |
| Polling.Unpolled | src/olcPGEX_DrawingTablet.h:82-115 | the state before the first poll: `n` slots, all idle (not pressed, released or held), with position, pressure and tilt at zero |
| Polling.NormalizeRange | src/olcPGEX_DrawingTablet.h:146-148 | with `min < max`: the reading `min` maps to 0, the reading `max` maps to 1, and readings within the range map into [0, 1] |
| Polling.NormalizeInverse | src/olcPGEX_DrawingTablet.h:146-148 | scaling the normalised value back onto the range gives the raw reading |
| Polling.NormalizeMonotonic | src/olcPGEX_DrawingTablet.h:146-148 | a larger reading never gives a smaller normalised value |
| Polling.StepButton | src/olcPGEX_DrawingTablet.h:184-197 | after one step, held equals the bit; pressed iff the bit is set and the button was not held; released iff the bit is clear and the button was held |
| Polling.StepButtonSettles | src/olcPGEX_DrawingTablet.h:184-197 | feeding the same bit twice: the second step reports neither a press nor a release and keeps held at the bit |
| Polling.StepButtons | src/olcPGEX_DrawingTablet.h:183-198 | stepping every slot keeps the slot count and leaves no slot both pressed and released |
| Polling.ApplyClass | src/olcPGEX_DrawingTablet.h:151-201 | one class of the snapshot keeps the slot count: a valuator on axes 0 to 4 overwrites its field with the normalised reading, a button class steps every slot against its mask, and any other class changes nothing |
| Polling.ApplyClasses | src/olcPGEX_DrawingTablet.h:150-202 | a whole poll keeps the number of button slots |
| Polling.ApplyClassField | src/olcPGEX_DrawingTablet.h:152-178 | a valuator class for axis `a` (0 to 4) writes the normalised reading into field `a`; any other class leaves that field alone |
| Polling.PollRoutesAxis | src/olcPGEX_DrawingTablet.h:150-178 | after a poll, field `a` (0 to 4) holds the normalised reading of the last valuator for axis `a`, or its old value when the snapshot has no such valuator |
| Polling.OtherAxisIgnored | src/olcPGEX_DrawingTablet.h:156-177 | a valuator whose number is not 0 to 4 changes nothing |
| Polling.PollWithoutButtonClass | src/olcPGEX_DrawingTablet.h:150-202 | a snapshot without a button class leaves every button state unchanged |
| Polling.PollStepsButtonsOnce | src/olcPGEX_DrawingTablet.h:179-199 | with exactly one button class, a poll steps each slot `j` in `[0, count)` exactly once, against mask bit `j` |
| Polling.PollButtonEdges | src/olcPGEX_DrawingTablet.h:183-197 | with exactly one button class in the snapshot, across a poll, button `j` ends held iff mask bit `j` is set; it reports a press iff it was not held and the bit is set, and a release iff it was held and the bit is clear |
| Polling.RepeatedButtonClassLosesPress | src/olcPGEX_DrawingTablet.h:179-199 | a snapshot with the same button class twice steps the slots twice: a button going down shows a press after the first class, but after the second it is held and no longer pressed |
| Polling.PollKeepsNoDoubleEdge | src/olcPGEX_DrawingTablet.h:183-197 | no poll leaves a button both pressed and released |
| Polling.PollTwiceSettles | src/olcPGEX_DrawingTablet.h:141-204 | with exactly one button class in the snapshot, polling twice with the same snapshot: the second poll reproduces position, pressure and tilt, keeps every held level and reports no edge |
| Tablet.Resized | src/olcPGEX_DrawingTablet.h:101 | resizing the button vector keeps the first `n` slots and fills new slots with the idle state |
| Tablet.DrawingTablet.constructor | src/olcPGEX_DrawingTablet.h:82-115 | records the id and name; sets the kind from the keywords, the slot count from the last button class, and the pressure and tilt flags from the axis numbers; starts with all slots idle and position, pressure and tilt at zero |
| Tablet.DrawingTablet.GetButton | src/olcPGEX_DrawingTablet.h:223-225 | the returned button state is never both pressed and released |
| Tablet.DrawingTablet.Poll | src/olcPGEX_DrawingTablet.h:141-204 | the polled fields become `ApplyClasses` of their old values; id, name, kind, capability flags and slot count do not change; no button ends both pressed and released |
| Registry.TabletDevices | src/olcPGEX_DrawingTablet.h:250-259 | the tablet-named descriptors, in enumeration order, never more than were enumerated |
| Registry.TabletDevicesMembers | src/olcPGEX_DrawingTablet.h:250-259 | a device is registered iff it was enumerated and its name contains "stylus" or "eraser" |
| Registry.TabletDevicesAppend | src/olcPGEX_DrawingTablet.h:250-259 | registration keeps enumeration order: the registry of `a + b` is the registry of `a` followed by the registry of `b` |
| Registry.Qualifies | src/olcPGEX_DrawingTablet.h:268-270 | definition, in the source's form: at least `minimumButton` slots, pressure support when asked, and tilt support equal to the request when tilt is asked |
| Registry.QualifiesByDescriptor | src/olcPGEX_DrawingTablet.h:268-270 | for a tablet built from a descriptor, the lookup test, including the tilt equality in the source's form, means: at least that many buttons, plus pressure if asked, plus tilt if asked |
| Registry.FirstQualifying | src/olcPGEX_DrawingTablet.h:267-275 | the scan stops at the first tablet that meets the request; every tablet before it fails the request |
| Registry.DrawingTabletManager.constructor | src/olcPGEX_DrawingTablet.h:241-261 | builds exactly one distinct, fresh tablet per tablet-named device, in enumeration order; each is classified from its descriptor and starts unpolled, with idle slots and position, pressure and tilt at zero |
| Registry.DrawingTabletManager.GetTabletCount | src/olcPGEX_DrawingTablet.h:237-239 | the count equals the number of tablet-named devices enumerated |
| Registry.DrawingTabletManager.GetTablet | src/olcPGEX_DrawingTablet.h:263-276 | returns null iff no registered tablet qualifies; otherwise returns the first registered tablet that qualifies |
| Registry.DrawingTabletManager.RegisteredKinds | src/olcPGEX_DrawingTablet.h:250-258 | no registered tablet has the Unknown kind |
| Scenarios.WacomStylusScenario | src/olcPGEX_DrawingTablet.h:82-204 | a "Wacom stylus" with 3 buttons and axes 0, 1, 2 has 3 slots, pressure but no tilt, and kind Stylus; after one poll at x = 50 and pressure = 25 (range 0 to 100) with button 0 down, it reports x = 0.5, pressure 0.25, and button 0 pressed and held |
| Scenarios.SelectionScenario | src/olcPGEX_DrawingTablet.h:241-276 | from a touchpad, a 2-button stylus and an 8-button eraser, the registry keeps 2 tablets; asking for 5 buttons gives the 8-button one and asking for 20 gives null |

The remaining accessors are plain field reads with no contract:
`GetName`, `GetDeviceID`, `GetPossibleButtonCount`, `SupportsPressure`,
`SupportsTilt`, `GetType`, `GetNormalizedPosition`, `GetPressure` and
`GetTilt` (src/olcPGEX_DrawingTablet.h:117-139 and 211-221). What they return
is fixed by the constructor and by `Poll`.

## Left out

- All X11/XInput2 calls are left out: `XOpenDisplay`, `XIQueryDevice`, `XIFreeDeviceInfo` and `XCloseDisplay`. Their results (the enumerated device list, and the class list re-queried on each poll) are parameters instead.
- The lazy singleton `DrawingTabletManager::Get` and the shared display handle's lifetime are left out. They are resource plumbing with no behaviour to state.
- The `OnBeforeUserUpdate` hook is left out; it only calls `pollDevice`.
- A device that disconnects between construction and poll is left out. The source dereferences a null `XIQueryDevice` result there without a check, and no recovery policy is modelled.
- IEEE single-precision rounding is left out. Normalisation is computed over `real`.
- Polling.NormalizeRange: requires `min < max`. The source divides by zero (giving an infinity or NaN) when a valuator on axes 0 to 4 reports `min == max`. Valuators on other axes are never normalised, so the requirement does not apply to them. It also excludes inverted ranges (`min > max`), which the source normalises without fault by dividing by a negative number.
- Tablet.DrawingTablet.Poll: requires every button mask to hold a bit for each button slot. The source reads past a shorter mask buffer.
- Tablet.DrawingTablet.GetButton: requires an index below the slot count. The source indexes the vector without a check.
- Tablet.DrawingTablet.Poll: steps the slots of `button_states` as they are, as the source does. It ignores the `num_buttons` value that the re-queried button class reports.
- Polling.PollButtonEdges: covers only snapshots with exactly one button class. With none, a poll leaves stale edges untouched (Polling.PollWithoutButtonClass). With several, each class steps the slots again, so a press can be cleared by the next class (Polling.RepeatedButtonClassLosesPress). The same limit applies to Polling.PollTwiceSettles.
- Polling.PollTwiceSettles: covers only snapshots with exactly one button class, for the reason given on the line above.
- `src/main.cpp` is not part of this model. It is a demo drawing application.
