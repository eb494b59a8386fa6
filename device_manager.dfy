/**
 * `SimpleWebXRInputDeviceManager`, the MRTK data provider that turns the
 * two WebXR input sources into MRTK hand and controller devices. The
 * package's provider and the older one of the MRTK sample share this
 * class; `variant` says which one it is. The dictionaries are map
 * fields the methods reassign, and the calls into MRTK are logged.
 */
module DeviceManager {
  import opened Wrappers
  import opened XrShared
  import opened DeviceTables

  /** Appending two pieces of a log one after the other appends their concatenation. */
  lemma LogAppend(l: seq<DeviceEvent>, a: seq<DeviceEvent>, b: seq<DeviceEvent>)
    ensures l + a + b == l + (a + b)
  {
  }

  class InputDeviceManager {
    /** The package's provider or the MRTK sample's. */
    const variant: Variant
    var trackedHands: map<Handedness, Device>
    var trackedControllers: map<Handedness, Device>
    /** `inactiveControllerCache`: read when a controller is added, never filled. */
    var inactiveControllerCache: map<Handedness, Device>
    /** The sample's `teleportPointers`: read when a device is removed, never filled. */
    var teleportPointers: map<Handedness, Option<nat>>
    /** The number of the next input source MRTK hands out. */
    var nextSource: nat
    /** The calls made into MRTK and into the binding, oldest first. */
    var log: seq<DeviceEvent>

    /** The manager's tables as one value. */
    function State(): Tables
      reads this
    {
      Tables(trackedHands, trackedControllers, inactiveControllerCache, teleportPointers, nextSource)
    }

    /** Each table files devices of its kind under their own hand, and no hand is both a hand and a controller. */
    ghost predicate Valid()
      reads this
    {
      Keyed(State()) && Exclusive(State())
    }

    /** A new provider: nothing tracked, nothing cached, no teleport pointer. */
    constructor(v: Variant)
      ensures variant == v && State() == EMPTY_TABLES && log == [] && Valid()
    {
      variant := v;
      trackedHands := map[];
      trackedControllers := map[];
      inactiveControllerCache := map[];
      teleportPointers := map[];
      nextSource := 0;
      log := [];
    }

    /** `GetOrAddController`. */
    method GetOrAddController(h: Handedness) returns (d: Device)
      modifies this
      ensures var a := AddedController(old(State()), h);
        State() == a.tables && d == a.device && log == old(log) + a.events
    {
      if h in trackedControllers {
        return trackedControllers[h];
      }
      log := log + [RequestPointers(h), RequestSource(SourceName(h, false), nextSource)];
      var source := nextSource;
      nextSource := nextSource + 1;
      if h in inactiveControllerCache {
        d := inactiveControllerCache[h];
      } else {
        d := Controller(h, source);
      }
      log := log + [SourceDetected(d)];
      trackedControllers := trackedControllers[h := d];
    }

    /** `GetOrAddHand`. */
    method GetOrAddHand(h: Handedness) returns (d: Device)
      modifies this
      ensures var a := AddedHand(old(State()), h);
        State() == a.tables && d == a.device && log == old(log) + a.events
    {
      if h in trackedHands {
        return trackedHands[h];
      }
      log := log + [RequestPointers(h), RequestSource(SourceName(h, true), nextSource)];
      d := HandDevice(h, nextSource);
      nextSource := nextSource + 1;
      log := log + [SourceDetected(d)];
      trackedHands := trackedHands[h := d];
    }

    /** `RemoveControllerDevice(controller)`, for the sample with its teleport pointer. */
    method RemoveTrackedController(d: Device)
      modifies this
      ensures var s := RemovedControllerDevice(variant, old(State()), d);
        State() == s.tables && log == old(log) + s.events
    {
      log := log + [SourceLost(d)];
      trackedControllers := trackedControllers - {d.handedness};
      if variant == MrtkSample && d.handedness in teleportPointers {
        var pointer := teleportPointers[d.handedness];
        if pointer.None? {
          teleportPointers := teleportPointers - {d.handedness};
        } else {
          log := log + [TeleportReset(pointer.value)];
        }
        log := log + [TeleportCleared(d)];
      }
      log := log + [RecyclePointers(d)];
    }

    /** `RemoveHandDevice(hand)`: the sample handles the teleport pointer before the hand is lost. */
    method RemoveTrackedHand(d: Device)
      modifies this
      ensures var s := RemovedHandDevice(variant, old(State()), d);
        State() == s.tables && log == old(log) + s.events
    {
      if variant == MrtkSample && d.handedness in teleportPointers {
        var pointer := teleportPointers[d.handedness];
        if pointer.None? {
          teleportPointers := teleportPointers - {d.handedness};
        } else {
          log := log + [TeleportReset(pointer.value)];
        }
      }
      log := log + [SourceLost(d)];
      trackedHands := trackedHands - {d.handedness};
      log := log + [RecyclePointers(d)];
    }

    /** `RemoveControllerDevice(handedness)`. */
    method RemoveControllerDevice(h: Handedness)
      modifies this
      ensures var s := RemovedController(variant, old(State()), h);
        State() == s.tables && log == old(log) + s.events
    {
      if h in trackedControllers {
        RemoveTrackedController(trackedControllers[h]);
      }
    }

    /** `RemoveHandDevice(handedness)`. */
    method RemoveHandDevice(h: Handedness)
      modifies this
      ensures var s := RemovedHand(variant, old(State()), h);
        State() == s.tables && log == old(log) + s.events
    {
      if h in trackedHands {
        RemoveTrackedHand(trackedHands[h]);
      }
    }

    /** `RemoveAllControllerDevices`: every controller of a copy of the table removed, then the table cleared. */
    method RemoveAllControllerDevices()
      modifies this
      ensures var s := ClearedControllers(variant, old(State()));
        State() == s.tables && log == old(log) + s.events
    {
      if |trackedControllers| == 0 {
        return;
      }
      var devices := Values(trackedControllers);
      ghost var t0, l0 := State(), log;
      for i := 0 to |devices|
        invariant State() == RemovedControllers(variant, t0, devices[..i]).tables
        invariant log == l0 + RemovedControllers(variant, t0, devices[..i]).events
      {
        ghost var s := RemovedControllers(variant, t0, devices[..i]);
        RemoveTrackedController(devices[i]);
        RemovedControllersSnoc(variant, t0, devices, i);
        LogAppend(l0, s.events, RemovedControllerDevice(variant, s.tables, devices[i]).events);
      }
      assert devices[..|devices|] == devices;
      trackedControllers := map[];
    }

    /** `RemoveAllHandDevices`. */
    method RemoveAllHandDevices()
      modifies this
      ensures var s := ClearedHands(variant, old(State()));
        State() == s.tables && log == old(log) + s.events
    {
      if |trackedHands| == 0 {
        return;
      }
      var devices := Values(trackedHands);
      ghost var t0, l0 := State(), log;
      for i := 0 to |devices|
        invariant State() == RemovedHands(variant, t0, devices[..i]).tables
        invariant log == l0 + RemovedHands(variant, t0, devices[..i]).events
      {
        ghost var s := RemovedHands(variant, t0, devices[..i]);
        RemoveTrackedHand(devices[i]);
        RemovedHandsSnoc(variant, t0, devices, i);
        LogAppend(l0, s.events, RemovedHandDevice(variant, s.tables, devices[i]).events);
      }
      assert devices[..|devices|] == devices;
      trackedHands := map[];
    }

    /**
     * `UpdateController`: afterwards `h` is tracked as a hand exactly for
     * an available source with a hand, as a controller exactly for an
     * available tracked source without one; the other hand is untouched.
     */
    method UpdateController(src: InputSource, h: Handedness)
      requires Valid()
      modifies this
      ensures var s := UpdatedTables(variant, old(State()), src, h);
        State() == s.tables && log == old(log) + s.events
      ensures Valid()
      ensures h in trackedHands <==> src.available && src.hand.available
      ensures h in trackedControllers <==> src.available && src.isPositionTracked && !src.hand.available
      ensures OtherHandKept(old(State()), State(), h)
    {
      UpdateRule(variant, State(), src, h);
      ghost var t0, l0 := State(), log;
      if src.available && (src.isPositionTracked || src.hand.available) {
        if src.hand.available {
          ghost var r := RemovedController(variant, t0, h);
          RemoveControllerDevice(h);
          ghost var a := AddedHand(r.tables, h);
          var d := GetOrAddHand(h);
          log := log + [DeviceUpdated(d, src)];
          LogAppend(l0, r.events, a.events);
          LogAppend(l0, r.events + a.events, [DeviceUpdated(d, src)]);
        } else {
          ghost var r := RemovedHand(variant, t0, h);
          RemoveHandDevice(h);
          ghost var a := AddedController(r.tables, h);
          var d := GetOrAddController(h);
          log := log + [DeviceUpdated(d, src)];
          LogAppend(l0, r.events, a.events);
          LogAppend(l0, r.events + a.events, [DeviceUpdated(d, src)]);
        }
      } else {
        ghost var r := RemovedController(variant, t0, h);
        RemoveControllerDevice(h);
        RemoveHandDevice(h);
        LogAppend(l0, r.events, RemovedHand(variant, r.tables, h).events);
      }
    }

    /** `Update`: the left input source, then the right one. */
    method Update(left: InputSource, right: InputSource)
      requires Valid()
      modifies this
      ensures var s := UpdatedBoth(variant, old(State()), left, right);
        State() == s.tables && log == old(log) + s.events
      ensures Valid()
      ensures Left in trackedHands <==> Choose(left) == UseHand
      ensures Left in trackedControllers <==> Choose(left) == UseController
      ensures Right in trackedHands <==> Choose(right) == UseHand
      ensures Right in trackedControllers <==> Choose(right) == UseController
    {
      UpdateBothRule(variant, State(), left, right);
      ghost var l0 := log;
      ghost var s := UpdatedTables(variant, State(), left, Left);
      UpdateController(left, Left);
      UpdateController(right, Right);
      LogAppend(l0, s.events, UpdatedTables(variant, s.tables, right, Right).events);
    }

    /**
     * `Disable`: the provider ends the session first; both then lose every
     * controller and every hand and leave both tables empty.
     */
    method Disable()
      requires Valid()
      modifies this
      ensures var s := DeviceTables.Disabled(variant, old(State()));
        State() == s.tables && log == old(log) + s.events
      ensures trackedHands == map[] && trackedControllers == map[] && Valid()
      ensures forall h :: h in old(trackedHands) ==> SourceLost(old(trackedHands)[h]) in log[|old(log)|..]
      ensures forall h :: h in old(trackedControllers) ==> SourceLost(old(trackedControllers)[h]) in log[|old(log)|..]
      ensures variant == Providers <==> EndSessionRequested in log[|old(log)|..]
    {
      DisableRule(variant, State());
      ghost var t0, l0 := State(), log;
      ghost var c := ClearedControllers(variant, t0);
      ghost var p: seq<DeviceEvent> := if variant == Providers then [EndSessionRequested] else [];
      if variant == Providers {
        log := log + [EndSessionRequested];
      } else {
        assert log == l0 + p;
      }
      RemoveAllControllerDevices();
      RemoveAllHandDevices();
      LogAppend(l0, p, c.events);
      LogAppend(l0, p + c.events, ClearedHands(variant, c.tables).events);
      assert log[|l0|..] == DeviceTables.Disabled(variant, t0).events;
    }

    /** `GetActiveControllers`: the tracked hands if any, else the tracked controllers. */
    function GetActiveControllers(): (r: seq<Device>)
      requires Valid()
      reads this
      ensures |trackedHands| > 0 ==> forall d :: d in r <==> d in trackedHands.Values
      ensures |trackedHands| == 0 ==> forall d :: d in r <==> d in trackedControllers.Values
      ensures r == [] <==> |trackedHands| == 0 && |trackedControllers| == 0
    {
      ActivePreferHands(State());
      ActiveControllers(State())
    }
  }
}
