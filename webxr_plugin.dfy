/**
 * The plugin's `SimpleWebXR`: the instance-based variant of the binding,
 * with its smaller arrays, no height offset and no hit test, and, in the
 * editor, an inline simulation of the browser. The browser calls it
 * makes are logged beside the Unity events it raises; in the editor
 * `InternalStartSession` and `InternalEndSession` switch the simulated
 * session.
 */
module WebXrPlugin {
  import opened Wrappers
  import opened Bytes
  import opened XrShared
  import opened XrFrame
  import opened XrSimulation
  import opened NativeLog

  const DATA_LENGTH: nat := 101
  const BYTE_LENGTH: nat := 48
  const HAND_LENGTH: nat := 400

  class SimpleWebXr {
    /** `_dataArray`: views, input poses, axes and buttons, user height. */
    const dataArray: array<real>
    /** `_byteArray`: view count, event masks, input flags and counts, activity. */
    const byteArray: array<byte>
    /** `_handData`: eight floats per joint, twenty-five joints per hand. */
    const handData: array<real>
    const orientationArray: array<real>
    const orientationInfo: array<byte>

    /** `InSession`, `LeftInput`, `RightInput` and `_cameras`. */
    var frame: Frame
    /** The browser calls made and the Unity events raised, oldest first. */
    var log: seq<XrEvent>
    /** `_orientationDeviceStarted`. */
    var orientationStarted: bool

    /** The editor simulation: its inspector fields, its support answers and `_sessionStarted`. */
    var settings: Settings
    var arSupported: bool
    var vrSupported: bool
    var sessionStarted: bool

    /**
     * The arrays have their declared sizes, the inputs are the left and
     * the right one, and the orientation hook was called once exactly
     * when its flag is set.
     */
    ghost predicate Valid()
      reads this`frame, this`log, this`orientationStarted
    {
      && dataArray.Length == DATA_LENGTH && byteArray.Length == BYTE_LENGTH && handData.Length == HAND_LENGTH
      && orientationArray.Length == 3 && orientationInfo.Length == 1
      && FrameShaped(frame)
      && Count(log, NativeDeviceOrientation) == (if orientationStarted then 1 else 0)
    }

    /** A new component: zeroed arrays, fresh inputs, no camera, and the simulation's defaults. */
    constructor()
      ensures Valid() && fresh(dataArray) && fresh(byteArray) && fresh(handData)
      ensures log == [] && !orientationStarted && !sessionStarted
      ensures frame == Frame(false, NewInputSource(Left), NewInputSource(Right), (NoCamera, NoCamera))
      ensures settings == DEFAULT_SETTINGS && arSupported && !vrSupported
    {
      dataArray := new real[DATA_LENGTH](_ => 0.0);
      byteArray := new byte[BYTE_LENGTH](_ => 0);
      handData := new real[HAND_LENGTH](_ => 0.0);
      orientationArray := new real[3](_ => 0.0);
      orientationInfo := new byte[1](_ => 0);
      frame := Frame(false, NewInputSource(Left), NewInputSource(Right), (NoCamera, NoCamera));
      log := [];
      orientationStarted := false;
      settings := DEFAULT_SETTINGS;
      arSupported := true;
      vrSupported := false;
      sessionStarted := false;
    }

    /** `GetInput`: the input source of that hand. */
    function GetInput(h: Handedness): (s: InputSource)
      requires Valid()
      reads this
      ensures s.handedness == h && WellShaped(s)
    {
      if h == Left then frame.left else frame.right
    }

    /** `UserHeight`. */
    function UserHeight(): real
      requires Valid()
      reads this, dataArray
    {
      dataArray[100]
    }

    /** `InternalInSession`: a non-zero view count. */
    predicate InternalInSession()
      requires Valid()
      reads this, byteArray
    {
      byteArray[0] != 0
    }

    /** `Start`: shares the arrays with the browser. */
    method Start()
      requires Valid()
      modifies this`log
      ensures Valid() && log == old(log) + [NativeInit]
    {
      CountAppend(log, [NativeInit], NativeDeviceOrientation);
      log := log + [NativeInit];
    }

    /** `InternalStartSession`: asks for a session; the editor's simulation starts one. */
    method InternalStartSession()
      requires Valid()
      modifies this`log, this`sessionStarted
      ensures Valid() && sessionStarted && log == old(log) + [NativeStartSession]
    {
      CountAppend(log, [NativeStartSession], NativeDeviceOrientation);
      log := log + [NativeStartSession];
      sessionStarted := true;
    }

    /** `InternalEndSession`: ends the session; the editor's simulation stops. */
    method InternalEndSession()
      requires Valid()
      modifies this`log, this`sessionStarted
      ensures Valid() && !sessionStarted && log == old(log) + [NativeEndSession]
    {
      CountAppend(log, [NativeEndSession], NativeDeviceOrientation);
      log := log + [NativeEndSession];
      sessionStarted := false;
    }

    /** `StartSession`: nothing unless AR or VR is supported; no check that a session already runs. */
    method StartSession()
      requires Valid()
      modifies this`log, this`sessionStarted
      ensures Valid()
      ensures log == old(log) + (if arSupported || vrSupported then [NativeStartSession] else [])
      ensures sessionStarted == (old(sessionStarted) || arSupported || vrSupported)
    {
      if !arSupported && !vrSupported {
        return;
      }
      InternalStartSession();
    }

    /** `EndSession`: nothing unless a session runs. */
    method EndSession()
      requires Valid()
      modifies this`log, this`sessionStarted
      ensures Valid()
      ensures log == old(log) + (if byteArray[0] != 0 then [NativeEndSession] else [])
      ensures sessionStarted == (old(sessionStarted) && byteArray[0] == 0)
    {
      if byteArray[0] == 0 {
        return;
      }
      InternalEndSession();
    }

    /**
     * `OnGUI`: unless hidden or in a session, a start button captioned for
     * AR or VR, or a "not supported" button when neither is; clicking the
     * start button starts a session.
     */
    method OnGui(hidden: bool, clicked: bool) returns (caption: Option<string>)
      requires Valid()
      modifies this`log, this`sessionStarted
      ensures Valid()
      ensures hidden || byteArray[0] != 0 ==> caption == None && log == old(log) && sessionStarted == old(sessionStarted)
      ensures !hidden && byteArray[0] == 0 ==>
        && caption == Some(if arSupported || vrSupported then StartCaption(arSupported) else NOT_SUPPORTED_CAPTION)
        && log == old(log) + (if clicked && (arSupported || vrSupported) then [NativeStartSession] else [])
    {
      if hidden || byteArray[0] != 0 {
        return None;
      }
      if arSupported || vrSupported {
        caption := Some(StartCaption(arSupported));
        if clicked {
          StartSession();
        }
      } else {
        caption := Some(NOT_SUPPORTED_CAPTION);
      }
    }

    /** The editor's `Update`: one simulated frame, the event bytes chosen from the current select states. */
    method Update(scene: Scene)
      requires Valid()
      modifies dataArray, byteArray
      ensures Valid()
      ensures dataArray[..] == SimulatedData(old(dataArray[..]), scene, settings, sessionStarted)
      ensures byteArray[..] == SimulatedBytes(old(byteArray[..]), settings, sessionStarted, frame.left.selected, frame.right.selected)
    {
      Simulate(dataArray, byteArray, scene, settings, sessionStarted, frame.left.selected, frame.right.selected);
    }

    /**
     * `LateUpdate`: both cameras, both inputs, their availability, the
     * input-change event and the session edge, with no height offset.
     */
    method LateUpdate()
      requires Valid()
      modifies this`frame, this`log, byteArray
      ensures Valid()
      ensures frame == UpdatedFrame(old(frame), dataArray[..], old(byteArray[..]), handData[..], 0.0)
      ensures log == old(log) + FrameEvents(old(frame), old(byteArray[..]))
      ensures byteArray[..] == ClearedBytes(old(byteArray[..]))
    {
      var f, events := UpdateFrame(dataArray, byteArray, handData, frame, 0.0);
      FrameEventsKinds(old(frame), old(byteArray[..]));
      frame := f;
      Record(events);
    }

    /** Appends the events of a frame, none of which starts the orientation hook, to the log. */
    method Record(events: seq<XrEvent>)
      requires Valid() && NativeDeviceOrientation !in events
      modifies this`log
      ensures Valid() && log == old(log) + events
    {
      CountAppend(log, events, NativeDeviceOrientation);
      log := log + events;
    }

    /**
     * One editor frame, `Update` then `LateUpdate`: during a simulated
     * session the binding sees it running and both select states follow
     * the simulated ones; otherwise it sees no session and no camera.
     */
    method EditorFrame(scene: Scene)
      requires Valid()
      modifies this`frame, this`log, dataArray, byteArray
      ensures Valid()
      ensures sessionStarted ==> frame.inSession && frame.left.selected == settings.leftSelect
                                 && frame.right.selected == settings.rightSelect && frame.cameras.0.Active?
      ensures !sessionStarted ==> !frame.inSession && frame.cameras == (NoCamera, NoCamera)
    {
      ghost var f0, d0, b0 := frame, dataArray[..], byteArray[..];
      Update(scene);
      LateUpdate();
      SimulatedFrame(f0, d0, b0, handData[..], scene, settings, sessionStarted, 0.0);
    }

    /**
     * `GetDeviceOrientation`: starts listening to the device orientation
     * on the first call only, then returns the last angles and whether
     * they are valid.
     */
    method GetDeviceOrientation() returns (valid: bool, alpha: real, beta: real, gamma: real)
      requires Valid()
      modifies this`orientationStarted, this`log
      ensures Valid() && orientationStarted
      ensures log == old(log) + (if old(orientationStarted) then [] else [NativeDeviceOrientation])
      ensures valid == (orientationInfo[0] != 0)
      ensures alpha == orientationArray[0] && beta == orientationArray[1] && gamma == orientationArray[2]
    {
      if !orientationStarted {
        CountAppend(log, [NativeDeviceOrientation], NativeDeviceOrientation);
        log := log + [NativeDeviceOrientation];
        orientationStarted := true;
      }
      alpha := orientationArray[0];
      beta := orientationArray[1];
      gamma := orientationArray[2];
      valid := orientationInfo[0] != 0;
    }
  }

  /** The "Set camera" menu items as written: the choice goes into float 0, not the view count byte. */
  method SetCamera(xr: SimpleWebXr, choice: CameraChoice)
    requires xr.Valid()
    modifies xr.dataArray
    ensures xr.Valid()
    ensures xr.dataArray[..] == old(xr.dataArray[..])[0 := choice.Value() as real]
    ensures xr.byteArray[..] == old(xr.byteArray[..])
  {
    xr.dataArray[0] := choice.Value() as real;
  }

  /** The menu items as evidently intended: the choice becomes the view count byte. */
  method SetViewCount(xr: SimpleWebXr, choice: CameraChoice)
    requires xr.Valid()
    modifies xr.byteArray
    ensures xr.Valid()
    ensures xr.byteArray[..] == old(xr.byteArray[..])[0 := choice.Value()]
    ensures xr.dataArray[..] == old(xr.dataArray[..])
  {
    xr.byteArray[0] := choice.Value();
  }
}
