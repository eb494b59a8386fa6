/**
 * The oldest `SimpleWebXR`, from the demo project: no hands, no select or
 * squeeze state (the input events are only raised), a 100-float and a
 * 46-byte array, no height offset, and no "not supported" button.
 */
module WebXrDemo {
  import opened Wrappers
  import opened Bytes
  import opened XrShared
  import opened XrFrame
  import opened XrSimulation
  import opened NativeLog
  import XrDecoder

  const DEMO_DATA_LENGTH: nat := 100
  const DEMO_BYTE_LENGTH: nat := 46

  /** The demo's `WebXRInput`: a pose, axes and buttons, and nothing that events change. */
  datatype DemoInput = DemoInput(
    handedness: Handedness,
    available: bool,
    position: Vec3,
    rotation: Quat,
    isPositionValid: bool,
    axesCount: int,
    axes: seq<real>,
    buttonsCount: int,
    buttons: seq<Button>,
    targetRayMode: byte)

  /** Eight axes and eight buttons, as the constructor allocates. */
  predicate DemoShaped(s: DemoInput)
  {
    |s.axes| == AXES_BUTTON_COUNT && |s.buttons| == AXES_BUTTON_COUNT
  }

  /** A fresh input: unavailable, untracked, no axes or buttons reported. */
  function NewDemoInput(h: Handedness): (s: DemoInput)
    ensures DemoShaped(s) && s.handedness == h && !s.available && !s.isPositionValid
    ensures s.axesCount == 0 && s.buttonsCount == 0 && s.targetRayMode == 0
  {
    DemoInput(h, false, ORIGIN, ZERO_ROTATION, false, 0, seq(AXES_BUTTON_COUNT, _ => 0.0), 0,
              seq(AXES_BUTTON_COUNT, _ => Button(0.0, false, false)), 0)
  }

  /** What the demo keeps of the runtime's input source: everything but the two states and the hand. */
  function Project(s: InputSource): (d: DemoInput)
    ensures d.handedness == s.handedness && d.position == s.position && d.rotation == s.rotation
    ensures d.axes == s.axes && d.buttons == s.buttons && d.targetRayMode == s.targetRayMode
  {
    DemoInput(s.handedness, s.available, s.position, s.rotation, s.isPositionTracked, s.axesCount, s.axes,
              s.buttonsCount, s.buttons, s.targetRayMode)
  }

  /** `UpdateInput` of the demo: the pose with no height offset, the ray mode, counts, axes and buttons. */
  function DecodeDemoInput(src: DemoInput, data: seq<real>, bytes: seq<byte>): DemoInput
    requires |data| >= DEMO_DATA_LENGTH && |bytes| >= DEMO_BYTE_LENGTH
  {
    var s := FloatStart(src.handedness);
    var t := ByteStart(src.handedness);
    src.(position := ToUnityPosition(data[s], data[s + 1], data[s + 2], 0.0),
         rotation := ToUnityRotation(data[s + 3], data[s + 4], data[s + 5], data[s + 6]),
         isPositionValid := bytes[t] != 0,
         targetRayMode := bytes[t + 1],
         axesCount := bytes[t + 2] as int,
         axes := DecodeAxes(data, s),
         buttonsCount := bytes[t + 3] as int,
         buttons := DecodeButtons(data, bytes, s, t))
  }

  /** The input after `UpdateInput` and its availability byte. */
  function RefreshedDemo(src: DemoInput, data: seq<real>, bytes: seq<byte>): DemoInput
    requires |data| >= DEMO_DATA_LENGTH && |bytes| >= DEMO_BYTE_LENGTH
  {
    DecodeDemoInput(src, data, bytes).(available := bytes[ActiveByte(src.handedness)] != 0)
  }

  /** `InSession`, `LeftInput`, `RightInput` and `_cameras`. */
  datatype DemoFrame = DemoFrame(inSession: bool, left: DemoInput, right: DemoInput, cameras: (CameraState, CameraState))

  predicate DemoFrameShaped(f: DemoFrame)
  {
    f.left.handedness == Left && f.right.handedness == Right && DemoShaped(f.left) && DemoShaped(f.right)
  }

  /** The frame after one `LateUpdate` over the arrays as they were at its start. */
  function UpdatedDemoFrame(f: DemoFrame, data: seq<real>, bytes: seq<byte>): DemoFrame
    requires |data| >= DEMO_DATA_LENGTH && |bytes| >= DEMO_BYTE_LENGTH
  {
    DemoFrame(Running(bytes), RefreshedDemo(f.left, data, bytes), RefreshedDemo(f.right, data, bytes),
              Cameras(bytes[0], data, 0.0))
  }

  /** The events of one `LateUpdate`: the left input's, the right input's, the input change, the session edge. */
  function DemoEvents(wasInSession: bool, bytes: seq<byte>): seq<XrEvent>
    requires |bytes| >= DEMO_BYTE_LENGTH
  {
    (InputEvents(Left, bytes[EventByte(Left)]) + InputEvents(Right, bytes[EventByte(Right)]))
    + ((if bytes[INPUT_CHANGE_BYTE] != 0 then [InputSourcesChange] else []) + SessionEdge(wasInSession, Running(bytes)))
  }

  /** The byte array after one `LateUpdate`: both event bytes and the input-change byte consumed. */
  function DemoClearedBytes(bytes: seq<byte>): seq<byte>
    requires |bytes| >= DEMO_BYTE_LENGTH
  {
    bytes[EventByte(Left) := 0][EventByte(Right) := 0][INPUT_CHANGE_BYTE := 0]
  }

  /** Every index the demo reads lies in its 100 floats and 46 bytes. */
  lemma DemoLayoutBounds(h: Handedness, id: nat, v: nat)
    requires id < 2 && v < 27
    ensures FloatStart(h) + 22 < DEMO_DATA_LENGTH && ByteStart(h) + 19 < DEMO_BYTE_LENGTH
    ensures ActiveByte(h) < DEMO_BYTE_LENGTH && EventByte(h) < DEMO_BYTE_LENGTH
    ensures ViewStart(id) + v < DEMO_DATA_LENGTH
  {
    LayoutBounds(h, 0, 0, id, v);
  }

  /**
   * The demo decodes an input exactly as the runtime does with no height
   * offset, once the select and squeeze states and the hand are dropped.
   */
  lemma DecodeAsRuntime(src: InputSource, data: seq<real>, bytes: seq<byte>, hand: seq<real>)
    requires |data| >= 100 && |bytes| >= 48 && |hand| >= 400
    ensures Project(Refreshed(src, data, bytes, hand, 0.0)) == RefreshedDemo(Project(src), data, bytes)
  {
  }

  /** The demo raises the same events, and clears the same bytes, as the runtime over the same bytes. */
  lemma EventsAsRuntime(f: Frame, bytes: seq<byte>)
    requires |bytes| >= 48
    ensures DemoEvents(f.inSession, bytes) == FrameEvents(f, bytes)
    ensures DemoClearedBytes(bytes) == ClearedBytes(bytes)
  {
  }

  /**
   * After an update `InSession` is whether the view count byte is set;
   * `SessionStart` is raised exactly on a false-to-true change and
   * `SessionEnd` exactly on a true-to-false change.
   */
  lemma DemoSessionEdges(f: DemoFrame, data: seq<real>, bytes: seq<byte>)
    requires |data| >= DEMO_DATA_LENGTH && |bytes| >= DEMO_BYTE_LENGTH
    ensures UpdatedDemoFrame(f, data, bytes).inSession <==> bytes[0] != 0
    ensures SessionStart in DemoEvents(f.inSession, bytes) <==> !f.inSession && bytes[0] != 0
    ensures SessionEnd in DemoEvents(f.inSession, bytes) <==> f.inSession && bytes[0] == 0
    ensures InputSourcesChange in DemoEvents(f.inSession, bytes) <==> bytes[INPUT_CHANGE_BYTE] != 0
  {
    var a := InputEvents(Left, bytes[EventByte(Left)]) + InputEvents(Right, bytes[EventByte(Right)]);
    InputEventsShape(Left, bytes[EventByte(Left)]);
    InputEventsShape(Right, bytes[EventByte(Right)]);
    assert SessionStart !in a && SessionEnd !in a && InputSourcesChange !in a;
    SessionEdgeExact(f.inSession, Running(bytes));
  }

  /** A second update over the bytes the first one left gives the same frame and raises nothing. */
  lemma DemoUpdateIdempotent(f: DemoFrame, data: seq<real>, bytes: seq<byte>)
    requires |data| >= DEMO_DATA_LENGTH && |bytes| >= DEMO_BYTE_LENGTH
    ensures var g := UpdatedDemoFrame(f, data, bytes);
      && UpdatedDemoFrame(g, data, DemoClearedBytes(bytes)) == g
      && DemoEvents(g.inSession, DemoClearedBytes(bytes)) == []
  {
    var c := DemoClearedBytes(bytes);
    forall h | true
      ensures DecodeButtons(data, c, FloatStart(h), ByteStart(h)) == DecodeButtons(data, bytes, FloatStart(h), ByteStart(h))
    {
    }
    assert c[0] == bytes[0] && c[ActiveByte(Left)] == bytes[ActiveByte(Left)] && c[ActiveByte(Right)] == bytes[ActiveByte(Right)];
  }

  /** `RaiseInputSourceEvent` of the demo: the event raised when its flag is set, and no state touched. */
  method RaiseDemoEvent(mask: byte, t: EventType, h: Handedness) returns (raised: seq<XrEvent>)
    ensures raised == RaisedBy(h, mask, t)
  {
    raised := [];
    if (mask / t.Flag()) % 2 == 1 {
      raised := [InputEvent(h, t)];
    }
  }

  /** The event statements of `UpdateInput`: the six raises of a non-zero mask, then the mask cleared. */
  method ConsumeDemoEvents(bytes: array<byte>, h: Handedness) returns (raised: seq<XrEvent>)
    requires bytes.Length >= DEMO_BYTE_LENGTH
    modifies bytes
    ensures raised == InputEvents(h, old(bytes[EventByte(h)]))
    ensures bytes[..] == old(bytes[..])[EventByte(h) := 0]
  {
    var eventId := h.Index() + 1;
    var mask := bytes[eventId];
    raised := [];
    if mask != 0 {
      var ev1 := RaiseDemoEvent(mask, Select, h);
      var ev2 := RaiseDemoEvent(mask, SelectEnd, h);
      var ev3 := RaiseDemoEvent(mask, SelectStart, h);
      var ev4 := RaiseDemoEvent(mask, Squeeze, h);
      var ev5 := RaiseDemoEvent(mask, SqueezeEnd, h);
      var ev6 := RaiseDemoEvent(mask, SqueezeStart, h);
      raised := (ev1 + ev2 + ev3) + (ev4 + ev5 + ev6);
      XrDecoder.SixEventLists(h, mask, ev1, ev2, ev3, ev4, ev5, ev6);
      bytes[eventId] := 0;
    } else {
      assert bytes[..] == old(bytes[..])[eventId := 0];
    }
  }

  /** `UpdateInput` of the demo, then the availability byte of that input. */
  method UpdateDemoInput(data: array<real>, bytes: array<byte>, src: DemoInput) returns (r: DemoInput, raised: seq<XrEvent>)
    requires data.Length >= DEMO_DATA_LENGTH && bytes.Length >= DEMO_BYTE_LENGTH && DemoShaped(src)
    modifies bytes
    ensures r == RefreshedDemo(src, data[..], old(bytes[..]))
    ensures raised == InputEvents(src.handedness, old(bytes[EventByte(src.handedness)]))
    ensures bytes[..] == old(bytes[..])[EventByte(src.handedness) := 0]
    ensures r.handedness == src.handedness && DemoShaped(r)
  {
    ghost var b0 := bytes[..];
    var h := src.handedness;
    var floatStart := h.Index() * 23 + 54;
    var byteStart := h.Index() * 20 + 4;
    r := src.(position := ToUnityPosition(data[floatStart + 0], data[floatStart + 1], data[floatStart + 2], 0.0),
              rotation := ToUnityRotation(data[floatStart + 3], data[floatStart + 4], data[floatStart + 5], data[floatStart + 6]),
              isPositionValid := bytes[byteStart + 0] != 0);
    raised := ConsumeDemoEvents(bytes, h);
    assert bytes[byteStart + 1] == b0[byteStart + 1] && bytes[byteStart + 2] == b0[byteStart + 2];
    assert bytes[byteStart + 3] == b0[byteStart + 3] && bytes[ActiveByte(h)] == b0[ActiveByte(h)];
    var axes := XrDecoder.CopyAxes(data, floatStart, src.axes);
    var buttons := XrDecoder.CopyButtons(data, bytes, floatStart, byteStart, src.buttons);
    assert DecodeButtons(data[..], bytes[..], floatStart, byteStart) == DecodeButtons(data[..], b0, floatStart, byteStart);
    r := r.(targetRayMode := bytes[byteStart + 1], axesCount := bytes[byteStart + 2] as int, axes := axes,
            buttonsCount := bytes[byteStart + 3] as int, buttons := buttons,
            available := bytes[ActiveByte(h)] != 0);
  }

  /**
   * `LateUpdate` of the demo: both cameras, the left then the right input,
   * the input-change byte (raised and cleared when set) and the session edge.
   */
  method UpdateDemoFrame(data: array<real>, bytes: array<byte>, f: DemoFrame) returns (r: DemoFrame, events: seq<XrEvent>)
    requires data.Length >= DEMO_DATA_LENGTH && bytes.Length >= DEMO_BYTE_LENGTH && DemoFrameShaped(f)
    modifies bytes
    ensures r == UpdatedDemoFrame(f, data[..], old(bytes[..]))
    ensures events == DemoEvents(f.inSession, old(bytes[..]))
    ensures bytes[..] == DemoClearedBytes(old(bytes[..]))
    ensures DemoFrameShaped(r)
  {
    ghost var b0 := bytes[..];
    var cameras := Cameras(bytes[0], data[..], 0.0);
    var left, leftEvents := UpdateDemoInput(data, bytes, f.left);
    ghost var b1 := bytes[..];
    var right, rightEvents := UpdateDemoInput(data, bytes, f.right);
    DemoInputAgrees(f.right, data[..], b0, b1);
    assert bytes[INPUT_CHANGE_BYTE] == b0[INPUT_CHANGE_BYTE] && bytes[0] == b0[0];
    var tail := [];
    if bytes[INPUT_CHANGE_BYTE] != 0 {
      tail := [InputSourcesChange];
      bytes[INPUT_CHANGE_BYTE] := 0;
    }
    var inSession := f.inSession;
    if bytes[0] != 0 && !inSession {
      inSession := true;
      tail := tail + [SessionStart];
    } else if inSession && bytes[0] == 0 {
      inSession := false;
      tail := tail + [SessionEnd];
    }
    events := (leftEvents + rightEvents) + tail;
    r := DemoFrame(inSession, left, right, cameras);
  }

  /** The right input reads the same after the left input's event byte was consumed. */
  lemma DemoInputAgrees(src: DemoInput, data: seq<real>, bytes: seq<byte>, bytes': seq<byte>)
    requires |data| >= DEMO_DATA_LENGTH && |bytes| >= DEMO_BYTE_LENGTH && src.handedness == Right
    requires bytes' == bytes[EventByte(Left) := 0]
    ensures RefreshedDemo(src, data, bytes') == RefreshedDemo(src, data, bytes)
    ensures bytes'[EventByte(Right)] == bytes[EventByte(Right)]
  {
    assert DecodeButtons(data, bytes', FloatStart(Right), ByteStart(Right)) == DecodeButtons(data, bytes, FloatStart(Right), ByteStart(Right));
  }

  class DemoWebXr {
    const dataArray: array<real>
    const byteArray: array<byte>
    const orientationArray: array<real>
    const orientationInfo: array<byte>

    var frame: DemoFrame
    /** The browser calls made and the Unity events raised, oldest first. */
    var log: seq<XrEvent>
    /** `_orientationDeviceStarted`, which nothing sets. */
    var orientationStarted: bool

    ghost predicate Valid()
      reads this`frame
    {
      && dataArray.Length == DEMO_DATA_LENGTH && byteArray.Length == DEMO_BYTE_LENGTH
      && orientationArray.Length == 3 && orientationInfo.Length == 1
      && DemoFrameShaped(frame)
    }

    /** The orientation hook was called once exactly when its flag is set: what the flag is for. */
    ghost predicate HookOnce()
      reads this`log, this`orientationStarted
    {
      Count(log, NativeDeviceOrientation) == (if orientationStarted then 1 else 0)
    }

    /** A new component: zeroed arrays, fresh inputs and no camera. */
    constructor()
      ensures Valid() && HookOnce() && fresh(dataArray) && fresh(byteArray)
      ensures log == [] && !orientationStarted
      ensures frame == DemoFrame(false, NewDemoInput(Left), NewDemoInput(Right), (NoCamera, NoCamera))
    {
      dataArray := new real[DEMO_DATA_LENGTH](_ => 0.0);
      byteArray := new byte[DEMO_BYTE_LENGTH](_ => 0);
      orientationArray := new real[3](_ => 0.0);
      orientationInfo := new byte[1](_ => 0);
      frame := DemoFrame(false, NewDemoInput(Left), NewDemoInput(Right), (NoCamera, NoCamera));
      log := [];
      orientationStarted := false;
    }

    /** `GetInput`: the input of that hand. */
    function GetInput(h: Handedness): (s: DemoInput)
      requires Valid()
      reads this
      ensures s.handedness == h && DemoShaped(s)
    {
      if h == Left then frame.left else frame.right
    }

    /** `InternalInSession`: a non-zero view count. */
    predicate InternalInSession()
      requires Valid()
      reads this, byteArray
    {
      byteArray[0] != 0
    }

    /** `Start`: shares the arrays with the browser. */
    method Start()
      modifies this`log
      ensures log == old(log) + [NativeInit]
    {
      log := log + [NativeInit];
    }

    /** `StartSession`: nothing unless the browser supports AR or VR. */
    method StartSession(arSupported: bool, vrSupported: bool)
      modifies this`log
      ensures log == old(log) + (if arSupported || vrSupported then [NativeStartSession] else [])
    {
      if !arSupported && !vrSupported {
        return;
      }
      log := log + [NativeStartSession];
    }

    /** `EndSession`: nothing unless a session runs. */
    method EndSession()
      requires Valid()
      modifies this`log
      ensures log == old(log) + (if byteArray[0] != 0 then [NativeEndSession] else [])
    {
      if byteArray[0] == 0 {
        return;
      }
      log := log + [NativeEndSession];
    }

    /**
     * `OnGUI`: unless hidden, a start button outside a session when AR or
     * VR is supported, captioned for AR first; a click starts a session.
     */
    method OnGui(hidden: bool, arSupported: bool, vrSupported: bool, clicked: bool) returns (caption: Option<string>)
      requires Valid()
      modifies this`log
      ensures caption.Some? <==> !hidden && byteArray[0] == 0 && (arSupported || vrSupported)
      ensures caption.Some? ==> caption.value == StartCaption(arSupported)
      ensures log == old(log) + (if caption.Some? && clicked then [NativeStartSession] else [])
    {
      if hidden {
        return None;
      }
      caption := None;
      if byteArray[0] == 0 && (arSupported || vrSupported) {
        caption := Some(StartCaption(arSupported));
        if clicked {
          StartSession(arSupported, vrSupported);
        }
      }
    }

    /** `LateUpdate`: one frame decoded, its events logged and its event bytes consumed. */
    method LateUpdate()
      requires Valid()
      modifies this`frame, this`log, byteArray
      ensures Valid()
      ensures frame == UpdatedDemoFrame(old(frame), dataArray[..], old(byteArray[..]))
      ensures log == old(log) + DemoEvents(old(frame).inSession, old(byteArray[..]))
      ensures byteArray[..] == DemoClearedBytes(old(byteArray[..]))
    {
      var f, events := UpdateDemoFrame(dataArray, byteArray, frame);
      frame := f;
      log := log + events;
    }

    /**
     * `GetDeviceOrientation` as written: the flag that should stop the
     * hook from being called again is never set, so every call calls it.
     */
    method GetDeviceOrientation() returns (valid: bool, alpha: real, beta: real, gamma: real)
      requires Valid()
      modifies this`log
      ensures log == old(log) + (if orientationStarted then [] else [NativeDeviceOrientation])
      ensures valid == (orientationInfo[0] != 0)
      ensures alpha == orientationArray[0] && beta == orientationArray[1] && gamma == orientationArray[2]
    {
      if !orientationStarted {
        log := log + [NativeDeviceOrientation];
      }
      alpha := orientationArray[0];
      beta := orientationArray[1];
      gamma := orientationArray[2];
      valid := orientationInfo[0] != 0;
    }

    /** Two reads as written from a fresh component call the hook twice and break `HookOnce`. */
    method ReadOrientationTwice()
      requires Valid() && HookOnce() && !orientationStarted
      modifies this`log
      ensures log == old(log) + [NativeDeviceOrientation, NativeDeviceOrientation]
      ensures Count(log, NativeDeviceOrientation) == 2 && !HookOnce()
    {
      ghost var log0 := log;
      var valid, alpha, beta, gamma := GetDeviceOrientation();
      valid, alpha, beta, gamma := GetDeviceOrientation();
      CountAppend(log0, [NativeDeviceOrientation, NativeDeviceOrientation], NativeDeviceOrientation);
    }

    /** `GetDeviceOrientation` as evidently intended: the hook is called on the first call only. */
    method GetDeviceOrientationCorrected() returns (valid: bool, alpha: real, beta: real, gamma: real)
      requires Valid() && HookOnce()
      modifies this`log, this`orientationStarted
      ensures HookOnce() && orientationStarted
      ensures log == old(log) + (if old(orientationStarted) then [] else [NativeDeviceOrientation])
      ensures valid == (orientationInfo[0] != 0)
      ensures alpha == orientationArray[0] && beta == orientationArray[1] && gamma == orientationArray[2]
    {
      if !orientationStarted {
        CountAppend(log, [NativeDeviceOrientation], NativeDeviceOrientation);
        log := log + [NativeDeviceOrientation];
        orientationStarted := true;
      }
      alpha := orientationArray[0];
      beta := orientationArray[1];
      gamma := orientationArray[2];
      valid := orientationInfo[0] != 0;
    }

    /** Two corrected reads call the hook once at most, whatever came before. */
    method ReadOrientationTwiceCorrected()
      requires Valid() && HookOnce()
      modifies this`log, this`orientationStarted
      ensures HookOnce() && Count(log, NativeDeviceOrientation) == 1
    {
      var valid, alpha, beta, gamma := GetDeviceOrientationCorrected();
      valid, alpha, beta, gamma := GetDeviceOrientationCorrected();
    }
  }

  /** The "Set camera" menu items as written: the choice goes into float 0, not the view count byte. */
  method SetCamera(xr: DemoWebXr, choice: CameraChoice)
    requires xr.Valid()
    modifies xr.dataArray
    ensures xr.dataArray[..] == old(xr.dataArray[..])[0 := choice.Value() as real]
    ensures xr.byteArray[..] == old(xr.byteArray[..])
  {
    xr.dataArray[0] := choice.Value() as real;
  }

  /** The menu items as evidently intended: the choice becomes the view count byte, and so the cameras. */
  method SetViewCount(xr: DemoWebXr, choice: CameraChoice)
    requires xr.Valid()
    modifies xr.byteArray
    ensures xr.byteArray[..] == old(xr.byteArray[..])[0 := choice.Value()]
    ensures xr.dataArray[..] == old(xr.dataArray[..])
  {
    xr.byteArray[0] := choice.Value();
  }
}
