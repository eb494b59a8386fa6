/**
 * The tables the two MRTK input device managers keep, one hand device and
 * one controller device at most per handedness, and the rule by which
 * each frame's WebXR input source picks one of them. The calls into MRTK
 * (pointers requested and recycled, input sources requested, sources
 * detected and lost, teleport pointers reset) are kept as a log.
 */
module DeviceTables {
  import opened Wrappers
  import opened XrShared

  /** An MRTK device: its kind, its handedness, and the MRTK input source it was created with. */
  datatype Device = Controller(handedness: Handedness, source: nat) | HandDevice(handedness: Handedness, source: nat)

  /** A call into MRTK or into the WebXR binding. */
  datatype DeviceEvent =
    | RequestPointers(handedness: Handedness)
    | RequestSource(name: string, source: nat)
    | SourceDetected(device: Device)
    | SourceLost(device: Device)
    | RecyclePointers(device: Device)
    | DeviceUpdated(device: Device, input: InputSource)
    | TeleportReset(pointer: nat)
    | TeleportCleared(device: Device)
    | EndSessionRequested

  /** The two managers: the package's provider and the older one of the MRTK sample, which handles teleport pointers. */
  datatype Variant = Providers | MrtkSample

  /** `$"WebXR {handedness} Controller"` and `$"WebXR {handedness} Hand"`. */
  function SourceName(h: Handedness, isHand: bool): string
  {
    "WebXR " + (if h == Left then "Left" else "Right") + (if isHand then " Hand" else " Controller")
  }

  /**
   * `trackedHands`, `trackedControllers`, `inactiveControllerCache`,
   * `teleportPointers` (a pointer or `null` per handedness) and the next
   * input source MRTK hands out.
   */
  datatype Tables = Tables(
    hands: map<Handedness, Device>,
    controllers: map<Handedness, Device>,
    cache: map<Handedness, Device>,
    teleport: map<Handedness, Option<nat>>,
    next: nat)

  /** Every entry is a device of the table's kind for the hand it is filed under. */
  predicate Keyed(t: Tables)
  {
    && (forall h :: h in t.hands ==> t.hands[h].HandDevice? && t.hands[h].handedness == h)
    && (forall h :: h in t.controllers ==> t.controllers[h].Controller? && t.controllers[h].handedness == h)
    && (forall h :: h in t.cache ==> t.cache[h].Controller? && t.cache[h].handedness == h)
  }

  /** No handedness has both a hand device and a controller device. */
  predicate Exclusive(t: Tables)
  {
    forall h :: h in t.hands ==> h !in t.controllers
  }

  /** The tables of a new manager. */
  const EMPTY_TABLES: Tables := Tables(map[], map[], map[], map[], 0)

  /** The result of a get-or-add: the tables after it, the device returned, and the calls made. */
  datatype Added = Added(tables: Tables, device: Device, events: seq<DeviceEvent>)

  /** The result of another step: the tables after it and the calls made. */
  datatype Step = Step(tables: Tables, events: seq<DeviceEvent>)

  /**
   * `GetOrAddController`: the controller already filed, or pointers and an
   * input source requested, the cached controller or a new one, detected,
   * and filed.
   */
  function AddedController(t: Tables, h: Handedness): Added
  {
    if h in t.controllers then Added(t, t.controllers[h], [])
    else
      var d := if h in t.cache then t.cache[h] else Controller(h, t.next);
      Added(t.(controllers := t.controllers[h := d], next := t.next + 1), d,
            [RequestPointers(h), RequestSource(SourceName(h, false), t.next), SourceDetected(d)])
  }

  /** `GetOrAddHand`: the hand already filed, or a new one requested, detected and filed. */
  function AddedHand(t: Tables, h: Handedness): Added
  {
    if h in t.hands then Added(t, t.hands[h], [])
    else
      var d := HandDevice(h, t.next);
      Added(t.(hands := t.hands[h := d], next := t.next + 1), d,
            [RequestPointers(h), RequestSource(SourceName(h, true), t.next), SourceDetected(d)])
  }

  /** The teleport statements of a removal: a `null` pointer's entry deleted, a live pointer reset. */
  function TeleportRemoval(tp: map<Handedness, Option<nat>>, h: Handedness): (r: (map<Handedness, Option<nat>>, seq<DeviceEvent>))
  {
    if h !in tp then (tp, [])
    else if tp[h].None? then (tp - {h}, [])
    else (tp, [TeleportReset(tp[h].value)])
  }

  /**
   * `RemoveControllerDevice(controller)`: lost, unfiled by its own
   * handedness, its pointers recycled; the sample's manager also handles
   * the teleport pointer of that hand and detaches it from the controller.
   */
  function RemovedControllerDevice(v: Variant, t: Tables, d: Device): Step
  {
    var c := t.(controllers := t.controllers - {d.handedness});
    match v
    case Providers => Step(c, [SourceLost(d), RecyclePointers(d)])
    case MrtkSample =>
      var p := TeleportRemoval(t.teleport, d.handedness);
      Step(c.(teleport := p.0),
           [SourceLost(d)] + p.1 + (if d.handedness in t.teleport then [TeleportCleared(d)] else []) + [RecyclePointers(d)])
  }

  /** `RemoveHandDevice(hand)`: the sample's manager handles the teleport pointer first. */
  function RemovedHandDevice(v: Variant, t: Tables, d: Device): Step
  {
    var c := t.(hands := t.hands - {d.handedness});
    match v
    case Providers => Step(c, [SourceLost(d), RecyclePointers(d)])
    case MrtkSample =>
      var p := TeleportRemoval(t.teleport, d.handedness);
      Step(c.(teleport := p.0), p.1 + [SourceLost(d), RecyclePointers(d)])
  }

  /** `RemoveControllerDevice(handedness)`: nothing unless a controller is filed for it. */
  function RemovedController(v: Variant, t: Tables, h: Handedness): Step
  {
    if h in t.controllers then RemovedControllerDevice(v, t, t.controllers[h]) else Step(t, [])
  }

  /** `RemoveHandDevice(handedness)`: nothing unless a hand is filed for it. */
  function RemovedHand(v: Variant, t: Tables, h: Handedness): Step
  {
    if h in t.hands then RemovedHandDevice(v, t, t.hands[h]) else Step(t, [])
  }

  /** What `UpdateController` does for a source: track its hand, track it as a controller, or track nothing. */
  datatype Choice = UseHand | UseController | UseNone

  /** The rule of `UpdateController`: an available source that is tracked or has a hand, by its hand when it has one. */
  function Choose(src: InputSource): (c: Choice)
    ensures c == UseHand <==> src.available && src.hand.available
    ensures c == UseController <==> src.available && src.isPositionTracked && !src.hand.available
  {
    if src.available && (src.isPositionTracked || src.hand.available) then
      if src.hand.available then UseHand else UseController
    else UseNone
  }

  /**
   * `UpdateController`: the other kind of device removed and this kind got
   * or added and updated from the source, or both removed.
   */
  function UpdatedTables(v: Variant, t: Tables, src: InputSource, h: Handedness): Step
  {
    match Choose(src)
    case UseHand =>
      var s := RemovedController(v, t, h);
      var a := AddedHand(s.tables, h);
      Step(a.tables, s.events + a.events + [DeviceUpdated(a.device, src)])
    case UseController =>
      var s := RemovedHand(v, t, h);
      var a := AddedController(s.tables, h);
      Step(a.tables, s.events + a.events + [DeviceUpdated(a.device, src)])
    case UseNone =>
      var s := RemovedController(v, t, h);
      var r := RemovedHand(v, s.tables, h);
      Step(r.tables, s.events + r.events)
  }

  /** `Update`: the left source, then the right one. */
  function UpdatedBoth(v: Variant, t: Tables, left: InputSource, right: InputSource): Step
  {
    var s := UpdatedTables(v, t, left, Left);
    var r := UpdatedTables(v, s.tables, right, Right);
    Step(r.tables, s.events + r.events)
  }

  /** A table's devices in enumeration order, taken as left before right. */
  function Values(m: map<Handedness, Device>): seq<Device>
  {
    (if Left in m then [m[Left]] else []) + (if Right in m then [m[Right]] else [])
  }

  /** The listed devices are the table's, and the list is empty exactly when the table is. */
  lemma ValuesExact(m: map<Handedness, Device>)
    ensures forall d :: d in Values(m) <==> d in m.Values
    ensures Values(m) == [] <==> |m| == 0
  {
    var r := Values(m);
    forall d | d in m.Values
      ensures d in r
    {
      var h :| h in m && m[h] == d;
      if h == Left {
        assert d == r[0];
      } else {
        assert d == r[|r| - 1];
      }
    }
    if Left !in m && Right !in m {
      forall h
        ensures h !in m.Keys
      {
        if h == Left {} else {}
      }
      assert m.Keys == {};
    }
  }

  /** The removal loop of `RemoveAllControllerDevices`, over a copy of the devices. */
  function RemovedControllers(v: Variant, t: Tables, ds: seq<Device>): Step
    decreases |ds|
  {
    if ds == [] then Step(t, [])
    else
      var s := RemovedControllers(v, t, ds[..|ds| - 1]);
      var r := RemovedControllerDevice(v, s.tables, ds[|ds| - 1]);
      Step(r.tables, s.events + r.events)
  }

  /** One more controller removed at the end of the list. */
  lemma RemovedControllersSnoc(v: Variant, t: Tables, ds: seq<Device>, i: nat)
    requires i < |ds|
    ensures var s := RemovedControllers(v, t, ds[..i]);
      var r := RemovedControllerDevice(v, s.tables, ds[i]);
      RemovedControllers(v, t, ds[..i + 1]) == Step(r.tables, s.events + r.events)
  {
    assert ds[..i + 1][..i] == ds[..i];
  }

  /** The removal loop of `RemoveAllHandDevices`. */
  function RemovedHands(v: Variant, t: Tables, ds: seq<Device>): Step
    decreases |ds|
  {
    if ds == [] then Step(t, [])
    else
      var s := RemovedHands(v, t, ds[..|ds| - 1]);
      var r := RemovedHandDevice(v, s.tables, ds[|ds| - 1]);
      Step(r.tables, s.events + r.events)
  }

  /** One more hand removed at the end of the list. */
  lemma RemovedHandsSnoc(v: Variant, t: Tables, ds: seq<Device>, i: nat)
    requires i < |ds|
    ensures var s := RemovedHands(v, t, ds[..i]);
      var r := RemovedHandDevice(v, s.tables, ds[i]);
      RemovedHands(v, t, ds[..i + 1]) == Step(r.tables, s.events + r.events)
  {
    assert ds[..i + 1][..i] == ds[..i];
  }

  /** `RemoveAllControllerDevices`: nothing on an empty table, else every controller removed and the table cleared. */
  function ClearedControllers(v: Variant, t: Tables): Step
  {
    if |t.controllers| == 0 then Step(t, [])
    else
      var s := RemovedControllers(v, t, Values(t.controllers));
      Step(s.tables.(controllers := map[]), s.events)
  }

  /** `RemoveAllHandDevices`. */
  function ClearedHands(v: Variant, t: Tables): Step
  {
    if |t.hands| == 0 then Step(t, [])
    else
      var s := RemovedHands(v, t, Values(t.hands));
      Step(s.tables.(hands := map[]), s.events)
  }

  /** `Disable`: the provider's manager ends the session first; both then remove every device. */
  function Disabled(v: Variant, t: Tables): Step
  {
    var c := ClearedControllers(v, t);
    var h := ClearedHands(v, c.tables);
    Step(h.tables, (if v == Providers then [EndSessionRequested] else []) + c.events + h.events)
  }

  /** `GetActiveControllers`: the hands if there are any, else the controllers. */
  function ActiveControllers(t: Tables): seq<Device>
  {
    if |t.hands| > 0 then Values(t.hands)
    else if |t.controllers| > 0 then Values(t.controllers)
    else []
  }

  /** The capabilities MRTK asks a data provider about. */
  datatype Capability =
    | ArticulatedHand | GGVHand | MotionController | EyeTracking | VoiceCommand | VoiceDictation
    | SpatialAwarenessMesh | SpatialAwarenessPlane | SpatialAwarenessPoint

  /** `CheckCapability`: articulated hands only. */
  function CheckCapability(c: Capability): (r: bool)
    ensures r <==> c == ArticulatedHand
  {
    c == ArticulatedHand
  }

  // ----- Properties -----

  /** A teleport pointer table only loses entries; the entries it keeps are unchanged. */
  predicate TeleportShrinks(before: map<Handedness, Option<nat>>, after: map<Handedness, Option<nat>>)
  {
    forall h :: h in after ==> h in before && after[h] == before[h]
  }

  /** The tables an update leaves for the other hand, and the cache, are the ones it found. */
  predicate OtherHandKept(t: Tables, r: Tables, h: Handedness)
  {
    && r.cache == t.cache
    && (forall o :: o != h ==> (o in r.hands <==> o in t.hands) && (o in r.controllers <==> o in t.controllers))
    && (forall o :: o != h && o in t.hands ==> r.hands[o] == t.hands[o])
    && (forall o :: o != h && o in t.controllers ==> r.controllers[o] == t.controllers[o])
  }

  /**
   * `GetOrAddController` on a filed hand returns its device and calls
   * nothing; on a new one it files exactly that device, raises
   * `SourceDetected` for it once, and a second call then returns it.
   */
  lemma GetOrAddControllerOnce(t: Tables, h: Handedness)
    requires Keyed(t)
    ensures var a := AddedController(t, h);
      && (h in t.controllers ==> a == Added(t, t.controllers[h], []))
      && (h !in t.controllers ==>
            && a.tables.controllers == t.controllers[h := a.device]
            && a.device.Controller? && a.device.handedness == h
            && multiset(a.events)[SourceDetected(a.device)] == 1
            && a.tables.hands == t.hands && a.tables.cache == t.cache && a.tables.teleport == t.teleport)
      && Keyed(a.tables)
      && AddedController(a.tables, h) == Added(a.tables, a.device, [])
  {
    if h !in t.controllers {
      var a := AddedController(t, h);
      var d := a.device;
      assert multiset(a.events) == multiset{RequestPointers(h), RequestSource(SourceName(h, false), t.next), SourceDetected(d)};
      KeyedAdd(t, a.tables, h);
    }
  }

  /** Filing a controller of the right hand keeps the tables keyed. */
  lemma KeyedAdd(t: Tables, r: Tables, h: Handedness)
    requires Keyed(t) && h in r.controllers && r.controllers[h].Controller? && r.controllers[h].handedness == h
    requires r.controllers == t.controllers[h := r.controllers[h]] && r.hands == t.hands && r.cache == t.cache
    ensures Keyed(r)
  {
  }

  /**
   * `GetOrAddHand` on a filed hand returns its device and calls nothing;
   * otherwise it files a new hand device, raises `SourceDetected` for it
   * once, and a second call then returns it.
   */
  lemma GetOrAddHandOnce(t: Tables, h: Handedness)
    requires Keyed(t)
    ensures var a := AddedHand(t, h);
      && (h in t.hands ==> a == Added(t, t.hands[h], []))
      && (h !in t.hands ==>
            && a.tables.hands == t.hands[h := a.device] && a.device == HandDevice(h, t.next)
            && multiset(a.events)[SourceDetected(a.device)] == 1
            && a.tables.controllers == t.controllers && a.tables.cache == t.cache && a.tables.teleport == t.teleport)
      && Keyed(a.tables)
      && AddedHand(a.tables, h) == Added(a.tables, a.device, [])
  {
    if h !in t.hands {
      var a := AddedHand(t, h);
      assert multiset(a.events) == multiset{RequestPointers(h), RequestSource(SourceName(h, true), t.next), SourceDetected(a.device)};
    }
  }

  /**
   * `RemoveControllerDevice(h)` does nothing when no controller is filed
   * for `h`; it otherwise loses that controller, unfiles only `h`, and
   * only shrinks the teleport pointers.
   */
  lemma RemoveControllerOnly(v: Variant, t: Tables, h: Handedness)
    requires Keyed(t)
    ensures var s := RemovedController(v, t, h);
      && (h !in t.controllers ==> s == Step(t, []))
      && (h in t.controllers ==> SourceLost(t.controllers[h]) in s.events)
      && s.tables.controllers == t.controllers - {h} && s.tables.hands == t.hands && s.tables.cache == t.cache
      && TeleportShrinks(t.teleport, s.tables.teleport) && Keyed(s.tables)
  {
    if h !in t.controllers {
      assert t.controllers - {h} == t.controllers;
    }
  }

  /** `RemoveHandDevice(h)`, likewise for the hand filed for `h`. */
  lemma RemoveHandOnly(v: Variant, t: Tables, h: Handedness)
    requires Keyed(t)
    ensures var s := RemovedHand(v, t, h);
      && (h !in t.hands ==> s == Step(t, []))
      && (h in t.hands ==> SourceLost(t.hands[h]) in s.events)
      && s.tables.hands == t.hands - {h} && s.tables.controllers == t.controllers && s.tables.cache == t.cache
      && TeleportShrinks(t.teleport, s.tables.teleport) && Keyed(s.tables)
  {
    if h !in t.hands {
      assert t.hands - {h} == t.hands;
    }
  }

  /**
   * The three-way rule of `UpdateController`: afterwards the hand of `h` is
   * tracked exactly for an available source with a hand, a controller
   * exactly for an available, tracked source without one, never both;
   * the other hand's entries stay as they were.
   */
  lemma UpdateRule(v: Variant, t: Tables, src: InputSource, h: Handedness)
    requires Keyed(t) && Exclusive(t)
    ensures var r := UpdatedTables(v, t, src, h).tables;
      && Keyed(r) && Exclusive(r)
      && (h in r.hands <==> Choose(src) == UseHand)
      && (h in r.controllers <==> Choose(src) == UseController)
      && OtherHandKept(t, r, h)
      && TeleportShrinks(t.teleport, r.teleport)
  {
    match Choose(src)
    case UseHand => UpdateRuleHand(v, t, src, h);
    case UseController => UpdateRuleController(v, t, src, h);
    case UseNone => UpdateRuleNone(v, t, src, h);
  }

  /** The hand case of `UpdateRule`. */
  lemma UpdateRuleHand(v: Variant, t: Tables, src: InputSource, h: Handedness)
    requires Keyed(t) && Exclusive(t) && Choose(src) == UseHand
    ensures var r := UpdatedTables(v, t, src, h).tables;
      && Keyed(r) && Exclusive(r) && h in r.hands && h !in r.controllers
      && OtherHandKept(t, r, h) && TeleportShrinks(t.teleport, r.teleport)
  {
    RemoveControllerOnly(v, t, h);
    var s := RemovedController(v, t, h).tables;
    GetOrAddHandOnce(s, h);
    var a := AddedHand(s, h);
    assert UpdatedTables(v, t, src, h).tables == a.tables;
    FiledHand(t, s, a.tables, h, a.device);
  }

  /** The controller case of `UpdateRule`. */
  lemma UpdateRuleController(v: Variant, t: Tables, src: InputSource, h: Handedness)
    requires Keyed(t) && Exclusive(t) && Choose(src) == UseController
    ensures var r := UpdatedTables(v, t, src, h).tables;
      && Keyed(r) && Exclusive(r) && h !in r.hands && h in r.controllers
      && OtherHandKept(t, r, h) && TeleportShrinks(t.teleport, r.teleport)
  {
    RemoveHandOnly(v, t, h);
    var s := RemovedHand(v, t, h).tables;
    GetOrAddControllerOnce(s, h);
    var a := AddedController(s, h);
    assert UpdatedTables(v, t, src, h).tables == a.tables;
    FiledController(t, s, a.tables, h, a.device);
  }

  /** Unfiling the controller of `h` and then filing its hand keeps the tables' invariants and the other hand's entries. */
  lemma FiledHand(t: Tables, s: Tables, r: Tables, h: Handedness, d: Device)
    requires Keyed(t) && Exclusive(t)
    requires s.controllers == t.controllers - {h} && s.hands == t.hands && s.cache == t.cache
    requires TeleportShrinks(t.teleport, s.teleport)
    requires r.controllers == s.controllers && r.cache == s.cache && r.teleport == s.teleport
    requires h in r.hands && r.hands == s.hands[h := r.hands[h]] && Keyed(r)
    ensures Exclusive(r) && h !in r.controllers && OtherHandKept(t, r, h) && TeleportShrinks(t.teleport, r.teleport)
  {
  }

  /** Unfiling the hand of `h` and then filing its controller keeps the tables' invariants and the other hand's entries. */
  lemma FiledController(t: Tables, s: Tables, r: Tables, h: Handedness, d: Device)
    requires Keyed(t) && Exclusive(t)
    requires s.hands == t.hands - {h} && s.controllers == t.controllers && s.cache == t.cache
    requires TeleportShrinks(t.teleport, s.teleport)
    requires r.hands == s.hands && r.cache == s.cache && r.teleport == s.teleport
    requires h in r.controllers && r.controllers == s.controllers[h := r.controllers[h]] && Keyed(r)
    ensures Exclusive(r) && h !in r.hands && OtherHandKept(t, r, h) && TeleportShrinks(t.teleport, r.teleport)
  {
  }

  /** The case of `UpdateRule` where nothing is tracked. */
  lemma UpdateRuleNone(v: Variant, t: Tables, src: InputSource, h: Handedness)
    requires Keyed(t) && Exclusive(t) && Choose(src) == UseNone
    ensures var r := UpdatedTables(v, t, src, h).tables;
      && Keyed(r) && Exclusive(r) && h !in r.hands && h !in r.controllers
      && OtherHandKept(t, r, h) && TeleportShrinks(t.teleport, r.teleport)
  {
    RemoveControllerOnly(v, t, h);
    var s := RemovedController(v, t, h).tables;
    RemoveHandOnly(v, s, h);
    assert UpdatedTables(v, t, src, h).tables == RemovedHand(v, s, h).tables;
  }

  /**
   * A source handled twice: the second update changes no table and calls
   * nothing but the device update, so nothing is detected or lost twice.
   */
  lemma UpdateStable(v: Variant, t: Tables, src: InputSource, h: Handedness)
    requires Keyed(t) && Exclusive(t)
    ensures var s := UpdatedTables(v, t, src, h);
      var r := UpdatedTables(v, s.tables, src, h);
      && r.tables == s.tables
      && (Choose(src) == UseNone ==> r.events == [])
      && (Choose(src) == UseHand ==> r.events == [DeviceUpdated(s.tables.hands[h], src)])
      && (Choose(src) == UseController ==> r.events == [DeviceUpdated(s.tables.controllers[h], src)])
  {
    UpdateRule(v, t, src, h);
    var s := UpdatedTables(v, t, src, h).tables;
    match Choose(src)
    case UseHand =>
      assert RemovedController(v, s, h) == Step(s, []);
      assert AddedHand(s, h) == Added(s, s.hands[h], []);
    case UseController =>
      assert RemovedHand(v, s, h) == Step(s, []);
      assert AddedController(s, h) == Added(s, s.controllers[h], []);
    case UseNone =>
      assert RemovedController(v, s, h) == Step(s, []);
      assert RemovedHand(v, s, h) == Step(s, []);
  }

  /** `Update` keeps the rule for both hands: the left source decides the left entries, the right source the right ones. */
  lemma UpdateBothRule(v: Variant, t: Tables, left: InputSource, right: InputSource)
    requires Keyed(t) && Exclusive(t)
    ensures var r := UpdatedBoth(v, t, left, right).tables;
      && Keyed(r) && Exclusive(r)
      && (Left in r.hands <==> Choose(left) == UseHand) && (Left in r.controllers <==> Choose(left) == UseController)
      && (Right in r.hands <==> Choose(right) == UseHand) && (Right in r.controllers <==> Choose(right) == UseController)
      && UpdatedBoth(v, t, left, right).events
         == UpdatedTables(v, t, left, Left).events + UpdatedTables(v, UpdatedTables(v, t, left, Left).tables, right, Right).events
  {
    UpdateRule(v, t, left, Left);
    UpdateRule(v, UpdatedTables(v, t, left, Left).tables, right, Right);
  }

  /** Removing a list of controllers: each one is lost, the hands and cache stay, the teleport pointers only shrink. */
  lemma {:induction false} RemovedControllersRule(v: Variant, t: Tables, ds: seq<Device>)
    ensures var s := RemovedControllers(v, t, ds);
      && (forall d :: d in ds ==> SourceLost(d) in s.events)
      && s.tables.hands == t.hands && s.tables.cache == t.cache
      && TeleportShrinks(t.teleport, s.tables.teleport)
      && EndSessionRequested !in s.events
  {
    if ds != [] {
      var init := ds[..|ds| - 1];
      RemovedControllersRule(v, t, init);
      var s := RemovedControllers(v, t, init);
      var r := RemovedControllerDevice(v, s.tables, ds[|ds| - 1]);
      assert SourceLost(ds[|ds| - 1]) in r.events;
      assert EndSessionRequested !in r.events;
      forall d | d in ds
        ensures SourceLost(d) in s.events + r.events
      {
        if d != ds[|ds| - 1] {
          assert d in init;
        }
      }
    }
  }

  /** Removing a list of hands: each one is lost, the controllers and cache stay, the teleport pointers only shrink. */
  lemma {:induction false} RemovedHandsRule(v: Variant, t: Tables, ds: seq<Device>)
    ensures var s := RemovedHands(v, t, ds);
      && (forall d :: d in ds ==> SourceLost(d) in s.events)
      && s.tables.controllers == t.controllers && s.tables.cache == t.cache
      && TeleportShrinks(t.teleport, s.tables.teleport)
      && EndSessionRequested !in s.events
  {
    if ds != [] {
      var init := ds[..|ds| - 1];
      RemovedHandsRule(v, t, init);
      var s := RemovedHands(v, t, init);
      var r := RemovedHandDevice(v, s.tables, ds[|ds| - 1]);
      assert SourceLost(ds[|ds| - 1]) in r.events;
      assert EndSessionRequested !in r.events;
      forall d | d in ds
        ensures SourceLost(d) in s.events + r.events
      {
        if d != ds[|ds| - 1] {
          assert d in init;
        }
      }
    }
  }

  /**
   * `Disable` leaves both tables empty after losing every device they
   * held; only the provider's manager asks the binding to end the session.
   */
  lemma DisableRule(v: Variant, t: Tables)
    requires Keyed(t) && Exclusive(t)
    ensures var s := Disabled(v, t);
      && s.tables.hands == map[] && s.tables.controllers == map[]
      && (forall h :: h in t.hands ==> SourceLost(t.hands[h]) in s.events)
      && (forall h :: h in t.controllers ==> SourceLost(t.controllers[h]) in s.events)
      && (EndSessionRequested in s.events <==> v == Providers)
      && TeleportShrinks(t.teleport, s.tables.teleport)
      && s.tables.cache == t.cache && Keyed(s.tables) && Exclusive(s.tables)
  {
    ClearedControllersRule(v, t);
    var c := ClearedControllers(v, t);
    ClearedHandsRule(v, c.tables);
  }

  /** `RemoveAllControllerDevices` loses every controller, empties its table and keeps the hands. */
  lemma ClearedControllersRule(v: Variant, t: Tables)
    ensures var s := ClearedControllers(v, t);
      && s.tables.controllers == map[] && s.tables.hands == t.hands
      && (forall h :: h in t.controllers ==> SourceLost(t.controllers[h]) in s.events)
      && s.tables.cache == t.cache
      && EndSessionRequested !in s.events
      && TeleportShrinks(t.teleport, s.tables.teleport)
  {
    ValuesExact(t.controllers);
    RemovedControllersRule(v, t, Values(t.controllers));
    forall h | h in t.controllers
      ensures SourceLost(t.controllers[h]) in ClearedControllers(v, t).events
    {
      assert t.controllers[h] in Values(t.controllers);
    }
  }

  /** `RemoveAllHandDevices` loses every hand, empties its table and keeps the controllers. */
  lemma ClearedHandsRule(v: Variant, t: Tables)
    ensures var s := ClearedHands(v, t);
      && s.tables.hands == map[] && s.tables.controllers == t.controllers
      && (forall h :: h in t.hands ==> SourceLost(t.hands[h]) in s.events)
      && s.tables.cache == t.cache
      && EndSessionRequested !in s.events
      && TeleportShrinks(t.teleport, s.tables.teleport)
  {
    ValuesExact(t.hands);
    RemovedHandsRule(v, t, Values(t.hands));
    forall h | h in t.hands
      ensures SourceLost(t.hands[h]) in ClearedHands(v, t).events
    {
      assert t.hands[h] in Values(t.hands);
    }
  }

  /**
   * Nothing in the sample's manager files a teleport pointer, so its
   * teleport handling never fires: with no pointer filed, its removals
   * are the provider's.
   */
  lemma SampleRemovalAsProvider(t: Tables, d: Device)
    requires t.teleport == map[]
    ensures RemovedControllerDevice(MrtkSample, t, d) == RemovedControllerDevice(Providers, t, d)
    ensures RemovedHandDevice(MrtkSample, t, d) == RemovedHandDevice(Providers, t, d)
  {
    assert [SourceLost(d)] + [] + [] + [RecyclePointers(d)] == [SourceLost(d), RecyclePointers(d)];
    assert [] + [SourceLost(d), RecyclePointers(d)] == [SourceLost(d), RecyclePointers(d)];
  }

  /** A table of teleport pointers that only shrinks from empty stays empty. */
  lemma ShrinksFromEmpty(after: map<Handedness, Option<nat>>)
    requires TeleportShrinks(map[], after)
    ensures after == map[]
  {
    assert after.Keys == {};
  }

  /** With no teleport pointer filed, the sample's `UpdateController` is the provider's and files none. */
  lemma SampleUpdateAsProvider(t: Tables, src: InputSource, h: Handedness)
    requires Keyed(t) && Exclusive(t) && t.teleport == map[]
    ensures UpdatedTables(MrtkSample, t, src, h) == UpdatedTables(Providers, t, src, h)
    ensures UpdatedTables(MrtkSample, t, src, h).tables.teleport == map[]
  {
    UpdateRule(MrtkSample, t, src, h);
    ShrinksFromEmpty(UpdatedTables(MrtkSample, t, src, h).tables.teleport);
    if h in t.controllers {
      SampleRemovalAsProvider(t, t.controllers[h]);
    }
    if h in t.hands {
      SampleRemovalAsProvider(t, t.hands[h]);
    }
    var s := RemovedController(MrtkSample, t, h).tables;
    RemoveControllerOnly(MrtkSample, t, h);
    ShrinksFromEmpty(s.teleport);
    if h in s.hands {
      SampleRemovalAsProvider(s, s.hands[h]);
    }
  }

  /**
   * `GetActiveControllers` gives hands priority: it holds exactly the hand
   * devices when any hand is tracked, else exactly the controllers, and
   * is empty when nothing is tracked.
   */
  lemma ActivePreferHands(t: Tables)
    requires Keyed(t)
    ensures |t.hands| > 0 ==> forall d :: d in ActiveControllers(t) <==> d in t.hands.Values
    ensures |t.hands| > 0 ==> forall d :: d in ActiveControllers(t) ==> d.HandDevice?
    ensures |t.hands| == 0 ==> forall d :: d in ActiveControllers(t) <==> d in t.controllers.Values
    ensures ActiveControllers(t) == [] <==> |t.hands| == 0 && |t.controllers| == 0
  {
    ValuesExact(t.hands);
    ValuesExact(t.controllers);
  }
}
