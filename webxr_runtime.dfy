/**
 * The runtime package's `SimpleWebXR`: the static binding between Unity
 * and the browser's WebXR session. Its static state is one `WebXr`
 * object: the five arrays shared with the browser, the two input sources,
 * the cameras, the hit test pose, the cached reference space and fallback
 * height, and a log of the Unity events raised and the browser calls
 * made, in order.
 */
module WebXrRuntime {
  import opened Wrappers
  import opened Bytes
  import opened XrShared
  import opened XrFrame
  import opened NativeLog

  /** `WebXRReferenceSpaces`. */
  datatype ReferenceSpace = Viewer | LocalFloor

  const DATA_LENGTH: nat := 112
  const BYTE_LENGTH: nat := 50
  const HAND_LENGTH: nat := 400
  const USER_HEIGHT_FLOAT: nat := 100
  const HIT_TEST_FLOAT: nat := 105
  const HIT_TEST_BYTE: nat := 48
  const HIT_TEST_SUPPORTED_BYTE: nat := 49

  /**
   * The height `ToUnityPosition` adds: none in viewer space; on the local
   * floor the user height the browser reports, or the fallback when it
   * reports none (zero or less).
   */
  function HeightOffset(space: ReferenceSpace, userHeight: real, fallback: real): (y: real)
    ensures space == Viewer ==> y == 0.0
    ensures space == LocalFloor ==> y == userHeight || y == fallback
    ensures space == LocalFloor && fallback > 0.0 ==> y > 0.0
    ensures space == LocalFloor && userHeight > 0.0 ==> y == userHeight
  {
    if space == LocalFloor then (if userHeight <= 0.0 then fallback else userHeight) else 0.0
  }

  /** Every `InternalEndSession` call comes right after an `InternalHitTestCancel` call. */
  predicate CancelBeforeEnd(log: seq<XrEvent>)
  {
    forall i :: 0 <= i < |log| && log[i] == NativeEndSession ==> 0 < i && log[i - 1] == NativeHitTestCancel
  }

  /** Appending calls other than `InternalEndSession`, or a cancel and then an end, keeps the pairing. */
  lemma CancelBeforeEndAppend(log: seq<XrEvent>, more: seq<XrEvent>)
    requires CancelBeforeEnd(log)
    requires NativeEndSession !in more || more == [NativeHitTestCancel, NativeEndSession]
    ensures CancelBeforeEnd(log + more)
  {
    var l := log + more;
    forall i | 0 <= i < |l| && l[i] == NativeEndSession
      ensures 0 < i && l[i - 1] == NativeHitTestCancel
    {
      if i < |log| {
        assert log[i] == NativeEndSession;
      } else {
        assert l[i] == more[i - |log|];
      }
    }
  }

  /** An end of session right after a cancel keeps the pairing. */
  lemma EndAfterCancelAppend(log: seq<XrEvent>)
    requires CancelBeforeEnd(log) && |log| > 0 && log[|log| - 1] == NativeHitTestCancel
    ensures CancelBeforeEnd(log + [NativeEndSession])
  {
    var l := log + [NativeEndSession];
    forall i | 0 <= i < |l| && l[i] == NativeEndSession
      ensures 0 < i && l[i - 1] == NativeHitTestCancel
    {
      if i < |log| {
        assert log[i] == NativeEndSession;
      }
    }
  }

  /**
   * Whether `UpdateCamera` creates a camera this frame: an eye's bit is
   * set while it has none. Setting up a new camera asks whether AR is
   * supported, which initialises the binding.
   */
  predicate CameraCreated(cameras: (CameraState, CameraState), viewEye: byte)
  {
    (cameras.0.NoCamera? && HasEye(viewEye, 0)) || (cameras.1.NoCamera? && HasEye(viewEye, 1))
  }

  /** The browser calls of a frame's camera set-up: `Initialize` when a camera is created. */
  function CameraInit(cameras: (CameraState, CameraState), viewEye: byte, initialized: bool): (calls: seq<XrEvent>)
    ensures calls == [] || calls == [NativeInit]
    ensures NativeInit in calls <==> CameraCreated(cameras, viewEye) && !initialized
  {
    if CameraCreated(cameras, viewEye) then InitCall(initialized) else []
  }

  /**
   * The hit test pose after `UpdateHitTest`: while a hit test is in
   * progress, the pose the browser wrote in floats 105 to 111 (position,
   * then rotation) in Unity's axes; otherwise the previous one.
   */
  function HitTestPose(inProgress: bool, data: seq<real>, yOffset: real, position: Vec3, rotation: Quat): (r: (Vec3, Quat))
    requires |data| >= DATA_LENGTH
    ensures !inProgress ==> r == (position, rotation)
    ensures inProgress ==> r.0 == ToUnityPosition(data[HIT_TEST_FLOAT], data[HIT_TEST_FLOAT + 1], data[HIT_TEST_FLOAT + 2], yOffset)
    ensures inProgress ==> r.1 == ToUnityRotation(data[HIT_TEST_FLOAT + 3], data[HIT_TEST_FLOAT + 4], data[HIT_TEST_FLOAT + 5], data[HIT_TEST_FLOAT + 6])
  {
    if inProgress then
      (ToUnityPosition(data[105], data[106], data[107], yOffset), ToUnityRotation(data[108], data[109], data[110], data[111]))
    else (position, rotation)
  }

  class WebXr {
    /** `_dataArray`: views, input poses, axes and buttons, user height, haptics and hit test pose. */
    const dataArray: array<real>
    /** `_byteArray`: view count, event masks, input flags and counts, activity and hit test flags. */
    const byteArray: array<byte>
    /** `_handData`: eight floats per joint, twenty-five joints per hand. */
    const handData: array<real>
    /** `_orientationArray`: alpha, beta and gamma of the device orientation. */
    const orientationArray: array<real>
    /** `_orientationInfo`: whether the angles are valid. */
    const orientationInfo: array<byte>
    /** `_initialized`, and the browser calls made and Unity events raised, oldest first. */
    const bridge: Bridge

    /** `InSession`, `LeftInput`, `RightInput` and `_cameras`. */
    var frame: Frame
    var hitTestPosition: Vec3
    var hitTestRotation: Quat
    /** `_referenceSpace` and `_fallbackUserHeight`. */
    var referenceSpace: ReferenceSpace
    var fallbackUserHeight: real
    /** `_orientationDeviceStarted`. */
    var orientationStarted: bool

    /**
     * The arrays have their declared sizes; `InitWebXR` and
     * `InternalGetDeviceOrientation` have each been called once exactly
     * when their flag is set; no call that uses the arrays precedes
     * `InitWebXR`; every end of session cancels the hit test first.
     */
    ghost predicate Linked()
      reads this`orientationStarted, bridge
    {
      && dataArray.Length == DATA_LENGTH && byteArray.Length == BYTE_LENGTH && handData.Length == HAND_LENGTH
      && orientationArray.Length == 3 && orientationInfo.Length == 1
      && bridge.Valid()
      && Count(bridge.log, NativeDeviceOrientation) == (if orientationStarted then 1 else 0)
      && CancelBeforeEnd(bridge.log)
    }

    /** `Linked`, and the inputs are the left and the right one. */
    ghost predicate Valid()
      reads this`frame, this`orientationStarted, bridge
    {
      Linked() && FrameShaped(frame)
    }

    /** The static initial state: zeroed arrays, fresh inputs, no camera, viewer space. */
    constructor()
      ensures Valid() && fresh(dataArray) && fresh(byteArray) && fresh(handData) && fresh(bridge)
      ensures !bridge.initialized && !orientationStarted && bridge.log == []
      ensures frame == Frame(false, NewInputSource(Left), NewInputSource(Right), (NoCamera, NoCamera))
      ensures referenceSpace == Viewer && fallbackUserHeight == 0.0
      ensures forall k :: 0 <= k < byteArray.Length ==> byteArray[k] == 0
    {
      dataArray := new real[DATA_LENGTH](_ => 0.0);
      byteArray := new byte[BYTE_LENGTH](_ => 0);
      handData := new real[HAND_LENGTH](_ => 0.0);
      orientationArray := new real[3](_ => 0.0);
      orientationInfo := new byte[1](_ => 0);
      bridge := new Bridge();
      frame := Frame(false, NewInputSource(Left), NewInputSource(Right), (NoCamera, NoCamera));
      hitTestPosition := ORIGIN;
      hitTestRotation := ZERO_ROTATION;
      referenceSpace := Viewer;
      fallbackUserHeight := 0.0;
      orientationStarted := false;
    }

    /** `UserHeight`. */
    function UserHeight(): real
      requires Linked()
      reads this, bridge, dataArray
    {
      dataArray[USER_HEIGHT_FLOAT]
    }

    /** `InternalInSession`: the browser reports a non-zero view count. */
    predicate InternalInSession()
      requires Linked()
      reads this, bridge, byteArray
    {
      byteArray[0] != 0
    }

    /** `HitTestInProgress`. */
    predicate HitTestInProgress()
      requires Linked()
      reads this, bridge, byteArray
    {
      byteArray[HIT_TEST_BYTE] != 0
    }

    /** `HitTestSupported`. */
    predicate HitTestSupported()
      requires Linked()
      reads this, bridge, byteArray
    {
      byteArray[HIT_TEST_SUPPORTED_BYTE] != 0
    }

    /** `GetInput`: the input source of that hand. */
    function GetInput(h: Handedness): (s: InputSource)
      requires Valid()
      reads this, bridge
      ensures s.handedness == h && WellShaped(s)
    {
      if h == Left then frame.left else frame.right
    }

    /** `Initialize`: registers the arrays with the browser on the first call only. */
    method Initialize()
      requires Linked()
      modifies bridge
      ensures Linked() && bridge.initialized
      ensures bridge.log == old(bridge.log) + InitCall(old(bridge.initialized))
      ensures dataArray[..] == old(dataArray[..]) && byteArray[..] == old(byteArray[..]) && handData[..] == old(handData[..])
    {
      ghost var log0 := bridge.log;
      bridge.Initialize();
      CountAppend(log0, InitCall(old(bridge.initialized)), NativeDeviceOrientation);
      CancelBeforeEndAppend(log0, InitCall(old(bridge.initialized)));
    }

    /** A browser call other than `InitWebXR`, `InternalEndSession` and the orientation query. */
    method Call(e: XrEvent)
      requires Linked()
      requires e == NativeStartSession || e == NativeHitTestStart || e == NativeHitTestCancel
      requires NeedsInit(e) ==> bridge.initialized
      modifies bridge
      ensures Linked() && bridge.initialized == old(bridge.initialized)
      ensures bridge.log == old(bridge.log) + [e]
    {
      ghost var log0 := bridge.log;
      bridge.Call(e);
      CountAppend(log0, [e], NativeDeviceOrientation);
      CancelBeforeEndAppend(log0, [e]);
    }

    /**
     * `IsArSupported` and `IsVrSupported`: initialise, then return the
     * browser's answer, which is a parameter here (the editor's is false).
     */
    method QuerySupport(answer: bool) returns (supported: bool)
      requires Linked()
      modifies bridge
      ensures Linked() && bridge.initialized && supported == answer
      ensures bridge.log == old(bridge.log) + InitCall(old(bridge.initialized))
    {
      Initialize();
      supported := answer;
    }

    /** `StartSession`: initialise, then ask the browser for a session unless one runs. */
    method StartSession()
      requires Linked()
      modifies bridge
      ensures Linked() && bridge.initialized
      ensures bridge.log == old(bridge.log) + InitCall(old(bridge.initialized)) + (if byteArray[0] != 0 then [] else [NativeStartSession])
    {
      Initialize();
      if byteArray[0] != 0 {
        return;
      }
      Call(NativeStartSession);
    }

    /** `EndSession`: when a session runs, cancel the hit test, then end the session. */
    method EndSession()
      requires Linked()
      modifies bridge
      ensures Linked() && bridge.initialized == old(bridge.initialized)
      ensures bridge.log == old(bridge.log) + (if byteArray[0] != 0 then [NativeHitTestCancel, NativeEndSession] else [])
    {
      if byteArray[0] == 0 {
        return;
      }
      Call(NativeHitTestCancel);
      EndAfterCancel();
    }

    /** `InternalEndSession`, made right after `InternalHitTestCancel`. */
    method EndAfterCancel()
      requires Linked() && |bridge.log| > 0 && bridge.log[|bridge.log| - 1] == NativeHitTestCancel
      modifies bridge
      ensures Linked() && bridge.initialized == old(bridge.initialized)
      ensures bridge.log == old(bridge.log) + [NativeEndSession]
    {
      ghost var log0 := bridge.log;
      bridge.Call(NativeEndSession);
      CountAppend(log0, [NativeEndSession], NativeDeviceOrientation);
      EndAfterCancelAppend(log0);
    }

    /** `HitTestStart`: initialise, then start the hit test. */
    method HitTestStart()
      requires Linked()
      modifies bridge
      ensures Linked() && bridge.initialized
      ensures bridge.log == old(bridge.log) + InitCall(old(bridge.initialized)) + [NativeHitTestStart]
    {
      Initialize();
      Call(NativeHitTestStart);
    }

    /** `HitTestCancel`: initialise, then cancel the hit test. */
    method HitTestCancel()
      requires Linked()
      modifies bridge
      ensures Linked() && bridge.initialized
      ensures bridge.log == old(bridge.log) + InitCall(old(bridge.initialized)) + [NativeHitTestCancel]
    {
      Initialize();
      Call(NativeHitTestCancel);
    }

    /** `HapticPulse`: the intensity and the duration for that hand, for the browser to read. */
    method HapticPulse(h: Handedness, intensity: real, duration: real)
      requires Linked()
      modifies dataArray
      ensures dataArray[..] == old(dataArray[..])[101 + h.Index() := intensity][103 + h.Index() := duration]
    {
      dataArray[101 + h.Index()] := intensity;
      dataArray[103 + h.Index()] := duration;
    }

    /**
     * `OnGUI`: unless hidden or in a session, a start button captioned for
     * AR or VR, or a "not supported" button when neither is; clicking the
     * start button starts a session. Each support query initialises the
     * binding; the browser's answers are parameters.
     */
    method OnGui(hidden: bool, clicked: bool, arSupported: bool, vrSupported: bool) returns (caption: Option<string>)
      requires Linked()
      modifies bridge
      ensures Linked()
      ensures hidden || byteArray[0] != 0 ==> caption == None && bridge.log == old(bridge.log)
      ensures !hidden && byteArray[0] == 0 ==>
        && caption == Some(if arSupported || vrSupported then StartCaption(arSupported) else NOT_SUPPORTED_CAPTION)
        && bridge.log == old(bridge.log) + InitCall(old(bridge.initialized))
                         + (if clicked && (arSupported || vrSupported) then [NativeStartSession] else [])
    {
      if hidden || byteArray[0] != 0 {
        return None;
      }
      var supported := AnySupported(arSupported, vrSupported);
      if supported {
        var text := StartButton(arSupported, clicked);
        caption := Some(text);
      } else {
        caption := Some(NOT_SUPPORTED_CAPTION);
      }
    }

    /** The condition of `OnGUI`'s start button: `IsArSupported() || IsVrSupported()`, short-circuited. */
    method AnySupported(arSupported: bool, vrSupported: bool) returns (supported: bool)
      requires Linked()
      modifies bridge
      ensures Linked() && bridge.initialized && supported == (arSupported || vrSupported)
      ensures bridge.log == old(bridge.log) + InitCall(old(bridge.initialized))
    {
      supported := QuerySupport(arSupported);
      if !supported {
        supported := QuerySupport(vrSupported);
      }
    }

    /** The start button of `OnGUI`, once the binding is initialised: its caption, and a session start when clicked. */
    method StartButton(arSupported: bool, clicked: bool) returns (caption: string)
      requires Linked() && bridge.initialized && byteArray[0] == 0
      modifies bridge
      ensures Linked() && bridge.initialized
      ensures caption == StartCaption(arSupported)
      ensures bridge.log == old(bridge.log) + (if clicked then [NativeStartSession] else [])
    {
      var captionAr := QuerySupport(arSupported);
      caption := StartCaption(captionAr);
      if clicked {
        StartSession();
      }
    }

    /**
     * `UpdateHitTest`: while a hit test is in progress, its pose read from
     * floats 105 to 111. The ghost parameters name the arrays' contents.
     */
    method UpdateHitTest(yOffset: real, ghost d0: seq<real>, ghost b0: seq<byte>, ghost h0: seq<real>)
      requires Valid() && dataArray[..] == d0 && byteArray[..] == b0 && handData[..] == h0
      modifies this`hitTestPosition, this`hitTestRotation
      ensures Valid() && dataArray[..] == d0 && byteArray[..] == b0 && handData[..] == h0
      ensures (hitTestPosition, hitTestRotation)
           == HitTestPose(b0[HIT_TEST_BYTE] != 0, d0, yOffset, old(hitTestPosition), old(hitTestRotation))
    {
      if byteArray[HIT_TEST_BYTE] != 0 {
        hitTestPosition := ToUnityPosition(dataArray[105], dataArray[106], dataArray[107], yOffset);
        hitTestRotation := ToUnityRotation(dataArray[108], dataArray[109], dataArray[110], dataArray[111]);
      }
    }

    /** Raises the events of a frame. */
    method RaiseFrameEvents(events: seq<XrEvent>)
      requires Linked()
      requires forall e :: e in events ==> IsUnityEvent(e)
      modifies bridge
      ensures Linked() && bridge.initialized == old(bridge.initialized)
      ensures bridge.log == old(bridge.log) + events
    {
      ghost var log0 := bridge.log;
      bridge.Raise(events);
      CountAppend(log0, events, NativeDeviceOrientation);
      assert NativeDeviceOrientation !in events;
      CancelBeforeEndAppend(log0, events);
    }

    /**
     * `UpdateWebXR`: one frame of cameras, inputs, availability,
     * input-change event, hit test and session edge, with positions
     * raised by the height offset of the cached reference space. A camera
     * set up this frame initialises the binding first.
     */
    method UpdateWebXR()
      requires Valid()
      modifies this`frame, this`hitTestPosition, this`hitTestRotation, bridge, byteArray
      ensures Valid()
      ensures var y := HeightOffset(old(referenceSpace), old(dataArray[USER_HEIGHT_FLOAT]), old(fallbackUserHeight));
        frame == UpdatedFrame(old(frame), old(dataArray[..]), old(byteArray[..]), old(handData[..]), y)
      ensures byteArray[..] == ClearedBytes(old(byteArray[..]))
      ensures bridge.initialized == (old(bridge.initialized) || CameraCreated(old(frame.cameras), old(byteArray[0])))
      ensures bridge.log == old(bridge.log) + CameraInit(old(frame.cameras), old(byteArray[0]), old(bridge.initialized))
                            + FrameEvents(old(frame), old(byteArray[..]))
      ensures var y := HeightOffset(old(referenceSpace), old(dataArray[USER_HEIGHT_FLOAT]), old(fallbackUserHeight));
        (hitTestPosition, hitTestRotation)
          == HitTestPose(old(byteArray[HIT_TEST_BYTE]) != 0, old(dataArray[..]), y,
                         old(hitTestPosition), old(hitTestRotation))
    {
      var y := HeightOffset(referenceSpace, dataArray[USER_HEIGHT_FLOAT], fallbackUserHeight);
      AdvanceFrame(y, frame, dataArray[..], byteArray[..], handData[..], bridge.log, bridge.initialized);
    }

    /**
     * The body of `UpdateWebXR`: the hit test, then the frame. The ghost
     * parameters name the state it starts from. The hit test reads and
     * writes nothing the rest of the frame touches, so it is taken first
     * here.
     */
    method AdvanceFrame(y: real, ghost f0: Frame, ghost d0: seq<real>, ghost b0: seq<byte>, ghost h0: seq<real>,
                        ghost log0: seq<XrEvent>, ghost init0: bool)
      requires Valid()
      requires frame == f0 && dataArray[..] == d0 && byteArray[..] == b0 && handData[..] == h0
      requires bridge.log == log0 && bridge.initialized == init0
      modifies this`frame, this`hitTestPosition, this`hitTestRotation, bridge, byteArray
      ensures Valid()
      ensures (hitTestPosition, hitTestRotation)
           == HitTestPose(b0[HIT_TEST_BYTE] != 0, d0, y, old(hitTestPosition), old(hitTestRotation))
      ensures frame == UpdatedFrame(f0, d0, b0, h0, y)
      ensures byteArray[..] == ClearedBytes(b0)
      ensures bridge.initialized == (init0 || CameraCreated(f0.cameras, b0[0]))
      ensures bridge.log == log0 + CameraInit(f0.cameras, b0[0], init0) + FrameEvents(f0, b0)
    {
      UpdateHitTest(y, d0, b0, h0);
      StepFrame(y, f0, d0, b0, h0, log0, init0);
    }

    /**
     * The frame part of `UpdateWebXR`: the initialisation a camera created
     * this frame makes, then cameras, inputs, availability, input-change
     * event and session edge, and their events raised.
     */
    method StepFrame(y: real, ghost f0: Frame, ghost d0: seq<real>, ghost b0: seq<byte>, ghost h0: seq<real>,
                     ghost log0: seq<XrEvent>, ghost init0: bool)
      requires Valid()
      requires frame == f0 && dataArray[..] == d0 && byteArray[..] == b0 && handData[..] == h0
      requires bridge.log == log0 && bridge.initialized == init0
      modifies this`frame, bridge, byteArray
      ensures Valid()
      ensures frame == UpdatedFrame(f0, d0, b0, h0, y)
      ensures byteArray[..] == ClearedBytes(b0)
      ensures bridge.initialized == (init0 || CameraCreated(f0.cameras, b0[0]))
      ensures bridge.log == log0 + CameraInit(f0.cameras, b0[0], init0) + FrameEvents(f0, b0)
    {
      ghost var calls := CameraInit(f0.cameras, b0[0], init0);
      if CameraCreated(frame.cameras, byteArray[0]) {
        Initialize();
      }
      assert bridge.log == log0 + calls;
      DecodeFrame(y, f0, d0, b0, h0);
    }

    /** Cameras, inputs, availability, input-change event and session edge, and their events raised. */
    method DecodeFrame(y: real, ghost f0: Frame, ghost d0: seq<real>, ghost b0: seq<byte>, ghost h0: seq<real>)
      requires Valid()
      requires frame == f0 && dataArray[..] == d0 && byteArray[..] == b0 && handData[..] == h0
      modifies this`frame, bridge, byteArray
      ensures Valid()
      ensures frame == UpdatedFrame(f0, d0, b0, h0, y)
      ensures byteArray[..] == ClearedBytes(b0)
      ensures bridge.initialized == old(bridge.initialized)
      ensures bridge.log == old(bridge.log) + FrameEvents(f0, b0)
    {
      var f, events := UpdateFrame(dataArray, byteArray, handData, frame, y);
      assert dataArray[..] == d0 && handData[..] == h0;
      frame := f;
      FrameEventsKinds(f0, b0);
      RaiseFrameEvents(events);
    }

    /**
     * `LateUpdate`: caches the behaviour's reference space and fallback
     * height, then updates.
     */
    method LateUpdate(space: ReferenceSpace, fallback: real)
      requires Valid()
      modifies this`referenceSpace, this`fallbackUserHeight, this`frame, this`hitTestPosition, this`hitTestRotation
      modifies bridge, byteArray
      ensures Valid()
      ensures var y := HeightOffset(space, old(dataArray[USER_HEIGHT_FLOAT]), fallback);
        frame == UpdatedFrame(old(frame), old(dataArray[..]), old(byteArray[..]), old(handData[..]), y)
      ensures byteArray[..] == ClearedBytes(old(byteArray[..]))
      ensures bridge.initialized == (old(bridge.initialized) || CameraCreated(old(frame.cameras), old(byteArray[0])))
      ensures bridge.log == old(bridge.log) + CameraInit(old(frame.cameras), old(byteArray[0]), old(bridge.initialized))
                            + FrameEvents(old(frame), old(byteArray[..]))
      ensures var y := HeightOffset(space, old(dataArray[USER_HEIGHT_FLOAT]), fallback);
        (hitTestPosition, hitTestRotation)
          == HitTestPose(old(byteArray[HIT_TEST_BYTE]) != 0, old(dataArray[..]), y,
                         old(hitTestPosition), old(hitTestRotation))
      ensures referenceSpace == space && fallbackUserHeight == fallback
    {
      ghost var f0, d0, b0, h0 := frame, dataArray[..], byteArray[..], handData[..];
      CacheSettings(space, fallback);
      var y := HeightOffset(referenceSpace, dataArray[USER_HEIGHT_FLOAT], fallbackUserHeight);
      AdvanceFrame(y, f0, d0, b0, h0, bridge.log, bridge.initialized);
    }

    /** The two assignments of `LateUpdate`. */
    method CacheSettings(space: ReferenceSpace, fallback: real)
      requires Valid()
      modifies this`referenceSpace, this`fallbackUserHeight
      ensures Valid() && referenceSpace == space && fallbackUserHeight == fallback
      ensures dataArray[..] == old(dataArray[..]) && byteArray[..] == old(byteArray[..]) && handData[..] == old(handData[..])
    {
      referenceSpace := space;
      fallbackUserHeight := fallback;
    }

    /**
     * `GetDeviceOrientation`: starts listening to the device orientation
     * on the first call only, then returns the last angles and whether
     * they are valid.
     */
    method GetDeviceOrientation() returns (valid: bool, alpha: real, beta: real, gamma: real)
      requires Linked()
      modifies this`orientationStarted, bridge
      ensures Linked() && orientationStarted
      ensures bridge.log == old(bridge.log) + (if old(orientationStarted) then [] else [NativeDeviceOrientation])
      ensures bridge.initialized == old(bridge.initialized)
      ensures valid == (orientationInfo[0] != 0)
      ensures alpha == orientationArray[0] && beta == orientationArray[1] && gamma == orientationArray[2]
    {
      if !orientationStarted {
        ghost var log0 := bridge.log;
        bridge.Call(NativeDeviceOrientation);
        CountAppend(log0, [NativeDeviceOrientation], NativeDeviceOrientation);
        CancelBeforeEndAppend(log0, [NativeDeviceOrientation]);
        orientationStarted := true;
      }
      alpha := orientationArray[0];
      beta := orientationArray[1];
      gamma := orientationArray[2];
      valid := orientationInfo[0] != 0;
    }
  }
}
