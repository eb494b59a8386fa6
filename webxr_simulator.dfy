/**
 * `SimpleWebXRSimulator`: the editor component that plays the browser
 * for the runtime package, writing a simulated session into the arrays
 * `SimpleWebXR` shares with it, and its "Set camera" menu items.
 */
module WebXrSimulator {
  import opened Bytes
  import opened XrShared
  import opened XrFrame
  import opened XrSimulation
  import opened WebXrRuntime

  class Simulator {
    /** The simulation fields of the inspector. */
    var settings: Settings
    /** `_sessionStarted`: set once the simulated head and controllers exist. */
    var sessionStarted: bool

    /** A new component: default settings, no session until `Start`. */
    constructor()
      ensures settings == DEFAULT_SETTINGS && !sessionStarted
    {
      settings := DEFAULT_SETTINGS;
      sessionStarted := false;
    }

    /** `Start`: the simulated head and controllers are created and the session begins. */
    method Start()
      modifies this`sessionStarted
      ensures sessionStarted
    {
      sessionStarted := true;
    }

    /**
     * `Update`: one simulated frame written into the runtime's arrays,
     * the event bytes chosen from the runtime's current select states.
     */
    method Update(xr: WebXr, scene: Scene)
      requires xr.Valid()
      modifies xr.dataArray, xr.byteArray
      ensures xr.Valid()
      ensures xr.dataArray[..] == SimulatedData(old(xr.dataArray[..]), scene, settings, sessionStarted)
      ensures xr.byteArray[..] == SimulatedBytes(old(xr.byteArray[..]), settings, sessionStarted,
                                                 xr.frame.left.selected, xr.frame.right.selected)
    {
      Simulate(xr.dataArray, xr.byteArray, scene, settings, sessionStarted,
               xr.GetInput(Left).selected, xr.GetInput(Right).selected);
    }
  }

  /** The "Set camera" menu items as written: the choice goes into float 0, not the view count byte. */
  method SetCamera(xr: WebXr, choice: CameraChoice)
    requires xr.Valid()
    modifies xr.dataArray
    ensures xr.Valid()
    ensures xr.dataArray[..] == old(xr.dataArray[..])[0 := choice.Value() as real]
    ensures xr.byteArray[..] == old(xr.byteArray[..])
  {
    xr.dataArray[0] := choice.Value() as real;
  }

  /** The menu items as evidently intended: the choice becomes the view count byte. */
  method SetViewCount(xr: WebXr, choice: CameraChoice)
    requires xr.Valid()
    modifies xr.byteArray
    ensures xr.Valid()
    ensures xr.byteArray[..] == old(xr.byteArray[..])[0 := choice.Value()]
    ensures xr.dataArray[..] == old(xr.dataArray[..])
  {
    xr.byteArray[0] := choice.Value();
  }
}
