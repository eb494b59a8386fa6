/**
 * What the SimpleWebXR decoders have in common: the input-source record
 * they fill, the flag values of the browser's input events and the order
 * in which they are raised, the conversion from WebXR to Unity
 * coordinates, the fixed layout of the arrays shared with the browser,
 * and the decoding of one input source and one view from those arrays.
 * Floats are modelled as reals: the decoders only copy, negate and offset
 * them.
 */
module XrShared {
  import opened Wrappers
  import opened Bytes

  datatype Handedness = Left | Right
  {
    /** The enum value: 0 for left, 1 for right. */
    function Index(): (i: nat)
      ensures i < 2
    {
      if this == Left then 0 else 1
    }
  }

  datatype Vec3 = Vec3(x: real, y: real, z: real)
  datatype Quat = Quat(x: real, y: real, z: real, w: real)
  datatype Rect = Rect(x: real, y: real, width: real, height: real)

  const AXES_BUTTON_COUNT: nat := 8
  const JOINT_COUNT: nat := 25

  datatype Button = Button(value: real, touched: bool, pressed: bool)

  /** A hand joint; a radius of `None` is the initial `float.NaN`. */
  datatype Joint = Joint(position: Vec3, rotation: Quat, radius: Option<real>)

  datatype Hand = Hand(available: bool, joints: seq<Joint>)

  /** The state of `WebXRInputSource` (the `WebXRInput` of the plugin). */
  datatype InputSource = InputSource(
    handedness: Handedness,
    available: bool,
    isPositionTracked: bool,
    position: Vec3,
    rotation: Quat,
    axesCount: int,
    axes: seq<real>,
    buttonsCount: int,
    buttons: seq<Button>,
    targetRayMode: byte,
    selected: bool,
    squeezed: bool,
    hand: Hand)

  /** Eight axes, eight buttons and twenty-five joints, as the constructors allocate. */
  predicate WellShaped(s: InputSource)
  {
    |s.axes| == AXES_BUTTON_COUNT && |s.buttons| == AXES_BUTTON_COUNT && |s.hand.joints| == JOINT_COUNT
  }

  const ORIGIN: Vec3 := Vec3(0.0, 0.0, 0.0)
  const ZERO_ROTATION: Quat := Quat(0.0, 0.0, 0.0, 0.0)

  /** A fresh input source: nothing available, tracked, selected or squeezed. */
  function NewInputSource(h: Handedness): (s: InputSource)
    ensures WellShaped(s) && s.handedness == h
    ensures !s.available && !s.selected && !s.squeezed && !s.hand.available
  {
    InputSource(h, false, false, ORIGIN, ZERO_ROTATION, 0, seq(AXES_BUTTON_COUNT, _ => 0.0), 0,
                seq(AXES_BUTTON_COUNT, _ => Button(0.0, false, false)), 0, false, false,
                Hand(false, seq(JOINT_COUNT, _ => Joint(ORIGIN, ZERO_ROTATION, None))))
  }

  /** `WebXRInputSourceEventTypes`, a flags enum. */
  datatype EventType = SqueezeStart | Squeeze | SqueezeEnd | SelectStart | Select | SelectEnd
  {
    function Flag(): (f: nat)
      ensures f in {1, 2, 4, 8, 16, 32}
    {
      match this
      case SqueezeStart => 1
      case Squeeze => 2
      case SqueezeEnd => 4
      case SelectStart => 8
      case Select => 16
      case SelectEnd => 32
    }
  }

  /** The order in which `UpdateInput` raises the events of a mask. */
  const EVENT_ORDER: seq<EventType> := [Select, SelectEnd, SelectStart, Squeeze, SqueezeEnd, SqueezeStart]

  /**
   * `((WebXRInputSourceEventTypes)mask & type) == type`: every type is a
   * single bit, so the test is whether that bit of the byte is set.
   */
  predicate HasFlag(mask: byte, t: EventType)
  {
    (mask / t.Flag()) % 2 == 1
  }

  /** What `RaiseInputSourceEvent` does to the source for one event type: only the two states can change. */
  function Raise(s: InputSource, mask: byte, t: EventType): InputSource
  {
    s.(selected := RaisedState(s.selected, mask, t, SelectStart, SelectEnd),
       squeezed := RaisedState(s.squeezed, mask, t, SqueezeStart, SqueezeEnd))
  }

  /** A state after one event of type `t`: its start flag sets it, its end flag clears it. */
  function RaisedState(state: bool, mask: byte, t: EventType, start: EventType, end: EventType): bool
  {
    if HasFlag(mask, t) && t == start then true
    else if HasFlag(mask, t) && t == end then false
    else state
  }

  /** Raising the events of `order` one after the other. */
  function RaiseAll(s: InputSource, mask: byte, order: seq<EventType>): InputSource
    decreases |order|
  {
    if order == [] then s else RaiseAll(Raise(s, mask, order[0]), mask, order[1..])
  }

  /** The fold over `EVENT_ORDER` is the six calls of `UpdateInput`, in that order. */
  lemma RaiseAllSix(s: InputSource, mask: byte)
    ensures RaiseAll(s, mask, EVENT_ORDER) ==
      Raise(Raise(Raise(Raise(Raise(Raise(s, mask, Select), mask, SelectEnd), mask, SelectStart),
        mask, Squeeze), mask, SqueezeEnd), mask, SqueezeStart)
  {
    var o := EVENT_ORDER;
    assert o[0] == Select && o[1..][0] == SelectEnd && o[1..][1..][0] == SelectStart;
    assert o[1..][1..][1..][0] == Squeeze && o[1..][1..][1..][1..][0] == SqueezeEnd;
    assert o[1..][1..][1..][1..][1..][0] == SqueezeStart && o[1..][1..][1..][1..][1..][1..] == [];
  }

  /**
   * The event state machine: a start flag sets the state and an end flag
   * clears it, the start winning when both are set; a mask with neither
   * leaves the state alone. No other field changes.
   */
  function EventState(s: InputSource, mask: byte): InputSource
  {
    s.(selected := HasFlag(mask, SelectStart) || (s.selected && !HasFlag(mask, SelectEnd)),
       squeezed := HasFlag(mask, SqueezeStart) || (s.squeezed && !HasFlag(mask, SqueezeEnd)))
  }

  /**
   * The six calls of `UpdateInput`, end before start, implement the state
   * machine; an empty mask, for which they are skipped, changes nothing.
   */
  lemma RaiseAllIsEventState(s: InputSource, mask: byte)
    ensures RaiseAll(s, mask, EVENT_ORDER) == EventState(s, mask)
    ensures mask == 0 ==> EventState(s, mask) == s
  {
    RaiseAllSix(s, mask);
    var s1 := Raise(s, mask, Select);
    var s2 := Raise(s1, mask, SelectEnd);
    var s3 := Raise(s2, mask, SelectStart);
    var s4 := Raise(s3, mask, Squeeze);
    var s5 := Raise(s4, mask, SqueezeEnd);
    SixStepsAreEventState(s, mask, s1, s2, s3, s4, s5, Raise(s5, mask, SqueezeStart));
    if mask == 0 {
      assert !HasFlag(mask, SelectStart) && !HasFlag(mask, SelectEnd);
      assert !HasFlag(mask, SqueezeStart) && !HasFlag(mask, SqueezeEnd);
    }
  }

  /** The six raises of `EVENT_ORDER`, step by step, end in the event state. */
  lemma SixStepsAreEventState(s: InputSource, mask: byte, s1: InputSource, s2: InputSource, s3: InputSource,
                              s4: InputSource, s5: InputSource, s6: InputSource)
    requires s1 == Raise(s, mask, Select) && s2 == Raise(s1, mask, SelectEnd) && s3 == Raise(s2, mask, SelectStart)
    requires s4 == Raise(s3, mask, Squeeze) && s5 == Raise(s4, mask, SqueezeEnd) && s6 == Raise(s5, mask, SqueezeStart)
    ensures s6 == EventState(s, mask)
  {
    assert s1 == s;
    assert s2 == s.(selected := s.selected && !HasFlag(mask, SelectEnd));
    assert s3 == s.(selected := HasFlag(mask, SelectStart) || (s.selected && !HasFlag(mask, SelectEnd)));
    assert s4 == s3;
    assert s5 == s3.(squeezed := s.squeezed && !HasFlag(mask, SqueezeEnd));
  }

  /** Everything the decoders report: Unity events raised and native (browser) calls made. */
  datatype XrEvent =
    | InputEvent(hand: Handedness, kind: EventType)
    | InputSourcesChange
    | SessionStart
    | SessionEnd
    | NativeInit
    | NativeStartSession
    | NativeEndSession
    | NativeHitTestStart
    | NativeHitTestCancel
    | NativeDeviceOrientation

  /** The event one `RaiseInputSourceEvent` call raises: one when its flag is set, none otherwise. */
  function RaisedBy(h: Handedness, mask: byte, t: EventType): seq<XrEvent>
  {
    if HasFlag(mask, t) then [InputEvent(h, t)] else []
  }

  /** The events `UpdateInput` raises for a mask: one per set flag, in `EVENT_ORDER`. */
  function InputEvents(h: Handedness, mask: byte): seq<XrEvent>
  {
    if mask == 0 then [] else SelectEvents(h, mask) + SqueezeEvents(h, mask)
  }

  /** The first three calls. */
  function SelectEvents(h: Handedness, mask: byte): seq<XrEvent>
  {
    RaisedBy(h, mask, Select) + RaisedBy(h, mask, SelectEnd) + RaisedBy(h, mask, SelectStart)
  }

  /** The last three calls. */
  function SqueezeEvents(h: Handedness, mask: byte): seq<XrEvent>
  {
    RaisedBy(h, mask, Squeeze) + RaisedBy(h, mask, SqueezeEnd) + RaisedBy(h, mask, SqueezeStart)
  }

  /** An input event is raised exactly when its flag is set. */
  lemma InputEventsExact(h: Handedness, mask: byte, t: EventType)
    ensures InputEvent(h, t) in InputEvents(h, mask) <==> HasFlag(mask, t)
  {
    if mask == 0 {
      assert !HasFlag(mask, t);
    } else {
      forall u | true
        ensures InputEvent(h, t) in RaisedBy(h, mask, u) <==> u == t && HasFlag(mask, t)
      {
      }
      assert InputEvent(h, t) in SelectEvents(h, mask) <==> t in {Select, SelectEnd, SelectStart} && HasFlag(mask, t);
      assert InputEvent(h, t) in SqueezeEvents(h, mask) <==> t in {Squeeze, SqueezeEnd, SqueezeStart} && HasFlag(mask, t);
    }
  }

  /** All the events are this input source's, at most one per type. */
  lemma InputEventsShape(h: Handedness, mask: byte)
    ensures forall e :: e in InputEvents(h, mask) ==> e.InputEvent? && e.hand == h
    ensures |InputEvents(h, mask)| <= 6
  {
    if mask != 0 {
      forall t | true
        ensures |RaisedBy(h, mask, t)| <= 1
        ensures forall e :: e in RaisedBy(h, mask, t) ==> e == InputEvent(h, t)
      {
      }
      var a, b := SelectEvents(h, mask), SqueezeEvents(h, mask);
      assert |a| <= 3 && |b| <= 3;
      assert forall e :: e in a ==> e.InputEvent? && e.hand == h;
      assert forall e :: e in b ==> e.InputEvent? && e.hand == h;
      assert InputEvents(h, mask) == a + b;
    }
  }

  /** With both select flags set the end is raised before the start, and likewise for squeeze. */
  lemma EndBeforeStart(h: Handedness, mask: byte)
    ensures HasFlag(mask, SelectEnd) && HasFlag(mask, SelectStart) ==> (exists i, j ::
      0 <= i < j < |InputEvents(h, mask)| && InputEvents(h, mask)[i] == InputEvent(h, SelectEnd)
      && InputEvents(h, mask)[j] == InputEvent(h, SelectStart))
    ensures HasFlag(mask, SqueezeEnd) && HasFlag(mask, SqueezeStart) ==> (exists i, j ::
      0 <= i < j < |InputEvents(h, mask)| && InputEvents(h, mask)[i] == InputEvent(h, SqueezeEnd)
      && InputEvents(h, mask)[j] == InputEvent(h, SqueezeStart))
  {
    if mask != 0 {
      var a := SelectEvents(h, mask);
      var b := SqueezeEvents(h, mask);
      var r := a + b;
      assert InputEvents(h, mask) == r;
      if HasFlag(mask, SelectEnd) && HasFlag(mask, SelectStart) {
        var k := |RaisedBy(h, mask, Select)|;
        assert a[k] == InputEvent(h, SelectEnd) && a[k + 1] == InputEvent(h, SelectStart);
        assert r[k] == a[k] && r[k + 1] == a[k + 1];
      }
      if HasFlag(mask, SqueezeEnd) && HasFlag(mask, SqueezeStart) {
        var k := |a| + |RaisedBy(h, mask, Squeeze)|;
        assert b[k - |a|] == InputEvent(h, SqueezeEnd) && b[k - |a| + 1] == InputEvent(h, SqueezeStart);
        assert r[k] == b[k - |a|] && r[k + 1] == b[k - |a| + 1];
      }
    } else {
      assert !HasFlag(mask, SelectEnd) && !HasFlag(mask, SqueezeEnd);
    }
  }

  /** The session edge of `UpdateWebXR`, from the recorded state and the view count byte. */
  function SessionEdge(wasInSession: bool, running: bool): seq<XrEvent>
  {
    if running && !wasInSession then [SessionStart]
    else if wasInSession && !running then [SessionEnd]
    else []
  }

  /** `SessionStart` fires exactly on a false-to-true change, `SessionEnd` exactly on true-to-false. */
  lemma SessionEdgeExact(wasInSession: bool, running: bool)
    ensures SessionStart in SessionEdge(wasInSession, running) <==> !wasInSession && running
    ensures SessionEnd in SessionEdge(wasInSession, running) <==> wasInSession && !running
    ensures |SessionEdge(wasInSession, running)| <= 1
  {
  }

  /** `ToUnityPosition`: the z axis is flipped and the height offset added. */
  function ToUnityPosition(x: real, y: real, z: real, yOffset: real): (p: Vec3)
    ensures p.x == x && p.y - yOffset == y && p.z == -z
  {
    Vec3(x, y + yOffset, -z)
  }

  /** `ToUnityRotation`: the x and y components are negated. */
  function ToUnityRotation(x: real, y: real, z: real, w: real): (q: Quat)
    ensures q.x == -x && q.y == -y && q.z == z && q.w == w
  {
    Quat(-x, -y, z, w)
  }

  function ToUnityQuat(q: Quat): Quat
  {
    ToUnityRotation(q.x, q.y, q.z, q.w)
  }

  /** Converting a rotation twice gives it back. */
  lemma RotationInvolution(q: Quat)
    ensures ToUnityQuat(ToUnityQuat(q)) == q
  {
  }

  /** Writing a position with z negated and converting it back, without offset, gives it back. */
  lemma PositionRoundTrip(p: Vec3)
    ensures ToUnityPosition(p.x, p.y, -p.z, 0.0) == p
  {
  }

  /** The first float of an input source's block: pose, then axes, then button values. */
  function FloatStart(h: Handedness): nat
  {
    h.Index() * 23 + 54
  }

  /** The first byte of an input source's block: tracking, mode, counts, touched, pressed. */
  function ByteStart(h: Handedness): nat
  {
    h.Index() * 20 + 4
  }

  /** The byte holding an input source's pending event mask. */
  function EventByte(h: Handedness): nat
  {
    h.Index() + 1
  }

  function HandAvailableByte(h: Handedness): nat
  {
    46 + h.Index()
  }

  /** The first of the eight floats of joint `j` of a hand. */
  function JointStart(h: Handedness, j: nat): nat
  {
    h.Index() * 200 + j * 8
  }

  /** The first of the twenty-seven floats of view `id`. */
  function ViewStart(id: nat): nat
  {
    id * 27
  }

  /**
   * Every index the decoders read lies in the shared arrays: input floats
   * below 100, input bytes below 48, joints below 400, views below 54.
   * The two input blocks do not overlap, and neither overlaps the views.
   */
  lemma LayoutBounds(h: Handedness, j: nat, k: nat, id: nat, v: nat)
    requires j < JOINT_COUNT && k < 8 && id < 2 && v < 27
    ensures 54 <= FloatStart(h) && FloatStart(h) + 22 < 100
    ensures 4 <= ByteStart(h) && ByteStart(h) + 19 < 44
    ensures 1 <= EventByte(h) <= 2 && 46 <= HandAvailableByte(h) < 48
    ensures JointStart(h, j) + k < 400
    ensures ViewStart(id) + v < 54
    ensures FloatStart(Left) + 22 < FloatStart(Right) && ByteStart(Left) + 19 < ByteStart(Right)
    ensures JointStart(Left, j) + k < JointStart(Right, 0)
  {
  }

  /** The axes of an input source. */
  function DecodeAxes(data: seq<real>, s: nat): (r: seq<real>)
    requires s + 15 <= |data|
    ensures |r| == AXES_BUTTON_COUNT && forall i :: 0 <= i < 8 ==> r[i] == data[s + 7 + i]
  {
    seq(AXES_BUTTON_COUNT, i requires 0 <= i < 8 => data[s + 7 + i])
  }

  /** The buttons of an input source. */
  function DecodeButtons(data: seq<real>, bytes: seq<byte>, s: nat, t: nat): (r: seq<Button>)
    requires s + 23 <= |data| && t + 20 <= |bytes|
    ensures |r| == AXES_BUTTON_COUNT
    ensures forall i :: 0 <= i < 8 ==>
      r[i] == Button(data[s + 15 + i], bytes[t + 4 + i] != 0, bytes[t + 12 + i] != 0)
  {
    seq(AXES_BUTTON_COUNT, i requires 0 <= i < 8 => Button(data[s + 15 + i], bytes[t + 4 + i] != 0, bytes[t + 12 + i] != 0))
  }

  function DecodeJoint(hand: seq<real>, i: nat, yOffset: real): Joint
    requires i + 8 <= |hand|
  {
    Joint(ToUnityPosition(hand[i], hand[i + 1], hand[i + 2], yOffset),
          ToUnityRotation(hand[i + 3], hand[i + 4], hand[i + 5], hand[i + 6]),
          Some(hand[i + 7]))
  }

  /** The joints of a hand. */
  function DecodeJoints(hand: seq<real>, h: Handedness, yOffset: real): (r: seq<Joint>)
    requires |hand| >= 400
    ensures |r| == JOINT_COUNT
    ensures forall j :: 0 <= j < JOINT_COUNT ==> r[j] == DecodeJoint(hand, JointStart(h, j), yOffset)
  {
    seq(JOINT_COUNT, j requires 0 <= j < JOINT_COUNT => DecodeJoint(hand, JointStart(h, j), yOffset))
  }

  /** The hand: available with the byte, its joints rewritten only when available. */
  function DecodeHand(old_: Hand, bytes: seq<byte>, hand: seq<real>, h: Handedness, yOffset: real): Hand
    requires |bytes| >= 48 && |hand| >= 400
  {
    var available := bytes[HandAvailableByte(h)] != 0;
    Hand(available, if available then DecodeJoints(hand, h, yOffset) else old_.joints)
  }

  /** The pose part of `UpdateInput`: position, rotation and the tracking flag. */
  function DecodePose(src: InputSource, data: seq<real>, bytes: seq<byte>, yOffset: real): InputSource
    requires |data| >= 100 && |bytes| >= 48
  {
    var s := FloatStart(src.handedness);
    src.(position := ToUnityPosition(data[s], data[s + 1], data[s + 2], yOffset),
         rotation := ToUnityRotation(data[s + 3], data[s + 4], data[s + 5], data[s + 6]),
         isPositionTracked := bytes[ByteStart(src.handedness)] != 0)
  }

  /**
   * The part of `UpdateInput` after the events: ray mode, counts, all
   * eight axes and buttons whatever the counts say, and the hand.
   */
  function DecodeControls(e: InputSource, data: seq<real>, bytes: seq<byte>, hand: seq<real>, yOffset: real): InputSource
    requires |data| >= 100 && |bytes| >= 48 && |hand| >= 400
  {
    var h := e.handedness;
    var s := FloatStart(h);
    var t := ByteStart(h);
    e.(targetRayMode := bytes[t + 1],
       axesCount := bytes[t + 2] as int,
       axes := DecodeAxes(data, s),
       buttonsCount := bytes[t + 3] as int,
       buttons := DecodeButtons(data, bytes, s, t),
       hand := DecodeHand(e.hand, bytes, hand, h, yOffset))
  }

  /**
   * What `UpdateInput` leaves in an input source: the pose, then the
   * event state of its mask, then the controls.
   */
  function DecodeInput(src: InputSource, data: seq<real>, bytes: seq<byte>, hand: seq<real>, yOffset: real): InputSource
    requires |data| >= 100 && |bytes| >= 48 && |hand| >= 400
  {
    DecodeControls(EventState(DecodePose(src, data, bytes, yOffset), bytes[EventByte(src.handedness)]), data, bytes, hand, yOffset)
  }

  /** The controls do not read the event bytes. */
  lemma DecodeControlsFrame(e: InputSource, data: seq<real>, bytes: seq<byte>, hand: seq<real>, yOffset: real, v: byte)
    requires |data| >= 100 && |bytes| >= 48 && |hand| >= 400
    ensures DecodeControls(e, data, bytes[EventByte(e.handedness) := v], hand, yOffset) == DecodeControls(e, data, bytes, hand, yOffset)
  {
    DecodeControlsAgree(e, data, bytes, bytes[EventByte(e.handedness) := v], hand, yOffset);
  }

  /** Byte arrays that agree on an input source's block and hand byte give it the same controls. */
  lemma DecodeControlsAgree(e: InputSource, data: seq<real>, bytes: seq<byte>, bytes': seq<byte>, hand: seq<real>, yOffset: real)
    requires |data| >= 100 && |bytes| >= 48 && |hand| >= 400 && |bytes'| == |bytes|
    requires forall k :: ByteStart(e.handedness) <= k < ByteStart(e.handedness) + 20 ==> bytes'[k] == bytes[k]
    requires bytes'[HandAvailableByte(e.handedness)] == bytes[HandAvailableByte(e.handedness)]
    ensures DecodeControls(e, data, bytes', hand, yOffset) == DecodeControls(e, data, bytes, hand, yOffset)
  {
    var t := ByteStart(e.handedness);
    assert DecodeButtons(data, bytes', FloatStart(e.handedness), t) == DecodeButtons(data, bytes, FloatStart(e.handedness), t);
  }

  /**
   * Decoding keeps the record's shape and handedness; its fields are read
   * from the source's own blocks, and a missing hand keeps its joints.
   */
  lemma DecodeInputFields(src: InputSource, data: seq<real>, bytes: seq<byte>, hand: seq<real>, yOffset: real, i: nat)
    requires |data| >= 100 && |bytes| >= 48 && |hand| >= 400 && WellShaped(src) && i < 8
    ensures var r := DecodeInput(src, data, bytes, hand, yOffset);
      var s := FloatStart(src.handedness);
      var t := ByteStart(src.handedness);
      && WellShaped(r) && r.handedness == src.handedness && r.available == src.available
      && r.axes[i] == data[s + 7 + i]
      && r.buttons[i] == Button(data[s + 15 + i], bytes[t + 4 + i] != 0, bytes[t + 12 + i] != 0)
      && r.hand.available == (bytes[HandAvailableByte(src.handedness)] != 0)
      && (!r.hand.available ==> r.hand.joints == src.hand.joints)
      && r.selected == (HasFlag(bytes[EventByte(src.handedness)], SelectStart)
                        || (src.selected && !HasFlag(bytes[EventByte(src.handedness)], SelectEnd)))
  {
  }

  /** Two byte arrays that agree on an input source's bytes decode it alike (the other event byte may differ). */
  lemma DecodeInputFrame(src: InputSource, data: seq<real>, bytes: seq<byte>, bytes': seq<byte>, hand: seq<real>, yOffset: real)
    requires |data| >= 100 && |bytes| >= 48 && |hand| >= 400 && |bytes'| == |bytes|
    requires bytes'[EventByte(src.handedness)] == bytes[EventByte(src.handedness)]
    requires forall k :: ByteStart(src.handedness) <= k < ByteStart(src.handedness) + 20 ==> bytes'[k] == bytes[k]
    requires bytes'[HandAvailableByte(src.handedness)] == bytes[HandAvailableByte(src.handedness)]
    ensures DecodeInput(src, data, bytes', hand, yOffset) == DecodeInput(src, data, bytes, hand, yOffset)
  {
    var t := ByteStart(src.handedness);
    assert bytes'[t] == bytes[t];
    var e := EventState(DecodePose(src, data, bytes, yOffset), bytes[EventByte(src.handedness)]);
    assert EventState(DecodePose(src, data, bytes', yOffset), bytes'[EventByte(src.handedness)]) == e;
    DecodeControlsAgree(e, data, bytes, bytes', hand, yOffset);
  }

  /** `Matrix4x4`, by its sixteen named entries. */
  datatype Matrix4 = Matrix4(
    m00: real, m01: real, m02: real, m03: real,
    m10: real, m11: real, m12: real, m13: real,
    m20: real, m21: real, m22: real, m23: real,
    m30: real, m31: real, m32: real, m33: real)

  /** Entry `(r, c)` of a matrix. */
  function Entry(m: Matrix4, r: nat, c: nat): real
    requires r < 4 && c < 4
  {
    match (r, c)
    case (0, 0) => m.m00 case (0, 1) => m.m01 case (0, 2) => m.m02 case (0, 3) => m.m03
    case (1, 0) => m.m10 case (1, 1) => m.m11 case (1, 2) => m.m12 case (1, 3) => m.m13
    case (2, 0) => m.m20 case (2, 1) => m.m21 case (2, 2) => m.m22 case (2, 3) => m.m23
    case (3, 0) => m.m30 case (3, 1) => m.m31 case (3, 2) => m.m32 case (3, 3) => m.m33
  }

  datatype Pose = Pose(position: Vec3, rotation: Quat)

  /** A view: projection matrix, pose and viewport. */
  datatype View = View(projection: Matrix4, pose: Pose, viewport: Rect)

  /** The viewport of view `id`. */
  function Viewport(data: seq<real>, id: nat): Rect
    requires id < 2 && |data| >= 54
  {
    var s := ViewStart(id);
    Rect(data[s + 23], data[s + 24], data[s + 25], data[s + 26])
  }

  /**
   * The camera state `UpdateCamera` sets up for view `id`. The array holds
   * the matrix column by column, and the camera gets it transposed back:
   * entry `(r, c)` is float `4 * c + r` of the view.
   */
  function DecodeView(data: seq<real>, id: nat, yOffset: real): (v: View)
    requires id < 2 && |data| >= 54
    ensures forall r, c :: 0 <= r < 4 && 0 <= c < 4 ==> Entry(v.projection, r, c) == data[ViewStart(id) + c * 4 + r]
    ensures v.viewport == Viewport(data, id)
  {
    var s := ViewStart(id);
    View(Matrix4(data[s + 0], data[s + 4], data[s + 8], data[s + 12],
                 data[s + 1], data[s + 5], data[s + 9], data[s + 13],
                 data[s + 2], data[s + 6], data[s + 10], data[s + 14],
                 data[s + 3], data[s + 7], data[s + 11], data[s + 15]),
         Pose(ToUnityPosition(data[s + 16], data[s + 17], data[s + 18], yOffset),
              ToUnityRotation(data[s + 19], data[s + 20], data[s + 21], data[s + 22])),
         Viewport(data, id))
  }

  /** The camera of an eye: none, present but switched off, or rendering a view. */
  datatype CameraState = NoCamera | Disabled | Active(view: View)

  /** `(ViewEye & eye) == eye` for eye 1 (left) or 2 (right). */
  predicate HasEye(viewEye: byte, id: nat)
    requires id < 2
  {
    (viewEye / (id + 1)) % 2 == 1
  }

  /**
   * `UpdateCamera` for view `id`: no camera unless the eye's bit is set;
   * the right camera is switched off when it would repeat the left
   * camera's viewport.
   */
  function CameraFor(viewEye: byte, data: seq<real>, id: nat, left: CameraState, yOffset: real): (c: CameraState)
    requires id < 2 && |data| >= 54
    ensures c.NoCamera? <==> !HasEye(viewEye, id)
  {
    if !HasEye(viewEye, id) then NoCamera
    else if id > 0 && left.Active? && left.view.viewport == Viewport(data, id) then Disabled
    else Active(DecodeView(data, id, yOffset))
  }

  /** The two cameras of a frame: the left first, the right against it. */
  function Cameras(viewEye: byte, data: seq<real>, yOffset: real): (c: (CameraState, CameraState))
    requires |data| >= 54
    ensures viewEye == 0 ==> c == (NoCamera, NoCamera)
    ensures viewEye == 1 ==> c.0.Active? && c.1 == NoCamera
  {
    var left := CameraFor(viewEye, data, 0, NoCamera, yOffset);
    (left, CameraFor(viewEye, data, 1, left, yOffset))
  }

  /** With both eyes and distinct viewports both cameras render; with equal ones the right is off. */
  lemma TwoEyes(data: seq<real>, yOffset: real)
    requires |data| >= 54
    ensures Viewport(data, 0) != Viewport(data, 1) ==>
      Cameras(3, data, yOffset) == (Active(DecodeView(data, 0, yOffset)), Active(DecodeView(data, 1, yOffset)))
    ensures Viewport(data, 0) == Viewport(data, 1) ==>
      Cameras(3, data, yOffset) == (Active(DecodeView(data, 0, yOffset)), Disabled)
  {
  }
}
