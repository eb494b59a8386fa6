/**
 * The editor simulation of a WebXR session, shared by the runtime
 * package's `SimpleWebXRSimulator` and the plugin's inline simulation:
 * each frame it writes into the shared arrays what a browser would, from
 * the main camera's projection, a simulated head and two simulated
 * controllers, and the decoder of the same package reads it back.
 */
module XrSimulation {
  import opened Bytes
  import opened XrShared
  import opened XrFrame

  /** `WebXRTargetRayModes`. */
  datatype TargetRayMode = NoMode | TrackedPointer | Screen | Gaze
  {
    /** The enum value, as `(byte)SimulationMode` writes it. */
    function Value(): (b: byte)
      ensures b < 4
    {
      match this
      case NoMode => 0
      case TrackedPointer => 1
      case Screen => 2
      case Gaze => 3
    }
  }

  /** What the simulation reads from the scene: the main camera's projection and the three simulated transforms. */
  datatype Scene = Scene(projection: Matrix4, head: Pose, left: Pose, right: Pose)

  /** The simulation fields of the inspector. */
  datatype Settings = Settings(render2Eyes: bool, mode: TargetRayMode, leftSelect: bool, rightSelect: bool, userHeight: real)

  /** The inspector's defaults: one eye, tracked pointer, nothing selected, 1.8 m. */
  const DEFAULT_SETTINGS: Settings := Settings(false, TrackedPointer, false, false, 1.8)

  /** The floats written for a matrix: column by column, entry `(r, c)` at `4 * c + r`. */
  function ProjectionFloats(m: Matrix4): (r: seq<real>)
    ensures |r| == 16
    ensures forall row, col :: 0 <= row < 4 && 0 <= col < 4 ==> r[4 * col + row] == Entry(m, row, col)
  {
    [m.m00, m.m10, m.m20, m.m30, m.m01, m.m11, m.m21, m.m31,
     m.m02, m.m12, m.m22, m.m32, m.m03, m.m13, m.m23, m.m33]
  }

  /** The seven floats of a pose: the position with z negated, then the rotation in WebXR's axes. */
  function PoseFloats(p: Pose): (r: seq<real>)
    ensures |r| == 7
  {
    var q := ToUnityQuat(p.rotation);
    [p.position.x, p.position.y, -p.position.z, q.x, q.y, q.z, q.w]
  }

  /** The twenty-seven floats of a view: projection, pose and viewport. */
  function ViewOf(m: Matrix4, p: Pose, viewport: Rect): (r: seq<real>)
    ensures |r| == 27
  {
    ProjectionFloats(m) + PoseFloats(p) + [viewport.x, viewport.y, viewport.width, viewport.height]
  }

  const FULL_VIEWPORT: Rect := Rect(0.0, 0.0, 1.0, 1.0)

  /** The first view as written before the two-eye adjustments: the head's, over the whole screen. */
  function ViewFloats(scene: Scene): (r: seq<real>)
    ensures |r| == 27
  {
    ViewOf(scene.projection, scene.head, FULL_VIEWPORT)
  }

  /** `d` with the floats from `start` on replaced by `v`. */
  function Overwrite(d: seq<real>, start: nat, v: seq<real>): (r: seq<real>)
    requires start + |v| <= |d|
    ensures |r| == |d|
    ensures forall k :: 0 <= k < |d| ==> r[k] == if start <= k < start + |v| then v[k - start] else d[k]
  {
    d[..start] + v + d[start + |v|..]
  }

  /** The float of the user height. */
  const USER_HEIGHT_FLOAT: nat := 100

  /**
   * The float array after one simulated frame: untouched without a
   * session; otherwise the views, both controller poses and the user
   * height.
   */
  function SimulatedData(d: seq<real>, scene: Scene, s: Settings, started: bool): (r: seq<real>)
    requires |d| >= 101
    ensures |r| == |d|
  {
    if !started then d
    else WithInputs(SimulatedViews(d, scene, s.render2Eyes), scene)[USER_HEIGHT_FLOAT := s.userHeight]
  }

  /**
   * The views of a session frame: the first view, and in two-eye mode
   * that view narrowed to half the width and copied to the second view,
   * whose viewport is then moved to the right half.
   */
  function SimulatedViews(d: seq<real>, scene: Scene, render2Eyes: bool): (r: seq<real>)
    requires |d| >= 101
    ensures |r| == |d|
  {
    var first := Overwrite(d, 0, ViewFloats(scene));
    if render2Eyes then SecondView(first[25 := 0.5]) else first
  }

  /** The copy loop of the two-eye mode: floats 0 to 26 copied to 27 to 53, then float 50 set to one half. */
  function SecondView(d: seq<real>): (r: seq<real>)
    requires |d| >= 101
    ensures |r| == |d|
  {
    Overwrite(d, 27, d[..27])[50 := 0.5]
  }

  /** The two controller poses. */
  function WithInputs(d: seq<real>, scene: Scene): (r: seq<real>)
    requires |d| >= 101
    ensures |r| == |d|
  {
    Overwrite(Overwrite(d, FloatStart(Left), PoseFloats(scene.left)), FloatStart(Right), PoseFloats(scene.right))
  }

  /** `WebXRViewEyes`: none without a session, both eyes in two-eye mode, the left one otherwise. */
  function ViewCount(started: bool, render2Eyes: bool): (b: byte)
    ensures b == 0 <==> !started
  {
    if started then (if render2Eyes then 3 else 1) else 0
  }

  /** The event byte of a controller: a select start to reach the wanted state, a select end to leave it, else nothing. */
  function EventMask(want: bool, selected: bool): (m: byte)
  {
    if want && !selected then SelectStart.Flag()
    else if !want && selected then SelectEnd.Flag()
    else 0
  }

  /**
   * The byte array after one simulated frame: the view count, and during
   * a session the tracking and activity flags, the two event bytes and
   * the target ray mode of both controllers.
   */
  function SimulatedBytes(b: seq<byte>, s: Settings, started: bool, leftSelected: bool, rightSelected: bool): (r: seq<byte>)
    requires |b| >= 48
    ensures |r| == |b|
  {
    var counted := b[0 := ViewCount(started, s.render2Eyes)];
    if !started then counted
    else
      counted[ByteStart(Left) := 1][ByteStart(Right) := 1][ActiveByte(Left) := 1][ActiveByte(Right) := 1]
        [EventByte(Left) := EventMask(s.leftSelect, leftSelected)]
        [EventByte(Right) := EventMask(s.rightSelect, rightSelected)]
        [ByteStart(Left) + 1 := s.mode.Value()][ByteStart(Right) + 1 := s.mode.Value()]
  }

  /**
   * One simulated frame (`Update`): the view count, then, during a
   * session, the first view, the second view in two-eye mode, both
   * controller poses, the user height and the controller bytes.
   */
  method Simulate(data: array<real>, bytes: array<byte>, scene: Scene, s: Settings, started: bool,
                  leftSelected: bool, rightSelected: bool)
    requires data.Length >= 101 && bytes.Length >= 48
    modifies data, bytes
    ensures data[..] == SimulatedData(old(data[..]), scene, s, started)
    ensures bytes[..] == SimulatedBytes(old(bytes[..]), s, started, leftSelected, rightSelected)
    ensures !started ==> data[..] == old(data[..]) && bytes[..] == old(bytes[..])[0 := 0]
  {
    bytes[0] := if started then (if s.render2Eyes then 3 else 1) else 0;
    if started {
      WriteFirstView(data, scene);
      if s.render2Eyes {
        data[25] := 0.5;
        CopyFirstView(data);
        data[50] := 0.5;
      }
      WritePose(data, 54, scene.left);
      WritePose(data, 77, scene.right);
      data[100] := s.userHeight;
      WriteInputBytes(bytes, s, leftSelected, rightSelected);
    }
  }

  /** The projection, head pose and viewport stores of the first view. */
  method WriteFirstView(data: array<real>, scene: Scene)
    requires data.Length >= 101
    modifies data
    ensures data[..] == Overwrite(old(data[..]), 0, ViewFloats(scene))
  {
    ghost var d0 := data[..];
    WriteProjection(data, scene.projection);
    ghost var d1 := data[..];
    WritePose(data, 16, scene.head);
    WriteViewport(data, 23, FULL_VIEWPORT);
    OverwriteAdjacent(d0, 0, ProjectionFloats(scene.projection), PoseFloats(scene.head));
    OverwriteAdjacent(d0, 0, ProjectionFloats(scene.projection) + PoseFloats(scene.head), [0.0, 0.0, 1.0, 1.0]);
  }

  /** The four stores of a viewport: x, y, width and height. */
  method WriteViewport(data: array<real>, start: nat, viewport: Rect)
    requires start + 4 <= data.Length
    modifies data
    ensures data[..] == Overwrite(old(data[..]), start, [viewport.x, viewport.y, viewport.width, viewport.height])
  {
    data[start] := viewport.x;
    data[start + 1] := viewport.y;
    data[start + 2] := viewport.width;
    data[start + 3] := viewport.height;
    assert data[..] == Overwrite(old(data[..]), start, [viewport.x, viewport.y, viewport.width, viewport.height]);
  }

  /** The sixteen stores of the projection matrix, a row of the matrix at a time. */
  method WriteProjection(data: array<real>, pm: Matrix4)
    requires data.Length >= 101
    modifies data
    ensures data[..] == Overwrite(old(data[..]), 0, ProjectionFloats(pm))
  {
    ghost var d0 := data[..];
    WriteRow(data, 0, pm.m00, pm.m01, pm.m02, pm.m03);
    ghost var d1 := data[..];
    WriteRow(data, 1, pm.m10, pm.m11, pm.m12, pm.m13);
    ghost var d2 := data[..];
    WriteRow(data, 2, pm.m20, pm.m21, pm.m22, pm.m23);
    ghost var d3 := data[..];
    WriteRow(data, 3, pm.m30, pm.m31, pm.m32, pm.m33);
    ProjectionRows(d0, d1, d2, d3, data[..], pm);
  }

  /** The four stores of row `r`: entry `(r, c)` at float `4 * c + r`. */
  method WriteRow(data: array<real>, r: nat, a: real, b: real, c: real, d: real)
    requires r < 4 && data.Length >= 16
    modifies data
    ensures data[..] == old(data[..])[r := a][4 + r := b][8 + r := c][12 + r := d]
  {
    data[r] := a;
    data[4 + r] := b;
    data[8 + r] := c;
    data[12 + r] := d;
  }

  /** The four rows written one after the other are the sixteen floats of the matrix. */
  lemma ProjectionRows(d0: seq<real>, d1: seq<real>, d2: seq<real>, d3: seq<real>, d4: seq<real>, pm: Matrix4)
    requires |d0| >= 16
    requires d1 == d0[0 := pm.m00][4 := pm.m01][8 := pm.m02][12 := pm.m03]
    requires d2 == d1[1 := pm.m10][5 := pm.m11][9 := pm.m12][13 := pm.m13]
    requires d3 == d2[2 := pm.m20][6 := pm.m21][10 := pm.m22][14 := pm.m23]
    requires d4 == d3[3 := pm.m30][7 := pm.m31][11 := pm.m32][15 := pm.m33]
    ensures d4 == Overwrite(d0, 0, ProjectionFloats(pm))
  {
    var p := ProjectionFloats(pm);
    assert d4[..16] == p;
    assert d4[16..] == d0[16..];
    assert d4 == d4[..16] + d4[16..];
  }

  /** Two writes side by side are one write of both. */
  lemma OverwriteAdjacent(d: seq<real>, start: nat, u: seq<real>, v: seq<real>)
    requires start + |u| + |v| <= |d|
    ensures Overwrite(Overwrite(d, start, u), start + |u|, v) == Overwrite(d, start, u + v)
  {
    var a := Overwrite(Overwrite(d, start, u), start + |u|, v);
    var b := Overwrite(d, start, u + v);
    forall k | 0 <= k < |d|
      ensures a[k] == b[k]
    {
      if start + |u| <= k < start + |u| + |v| {
        assert (u + v)[k - start] == v[k - start - |u|];
      } else if start <= k < start + |u| {
        assert (u + v)[k - start] == u[k - start];
      }
    }
  }

  /** The seven stores of a pose: x, y and negated z, then the converted rotation. */
  method WritePose(data: array<real>, start: nat, p: Pose)
    requires start + 7 <= data.Length
    modifies data
    ensures data[..] == Overwrite(old(data[..]), start, PoseFloats(p))
  {
    var rotation := ToUnityQuat(p.rotation);
    data[start] := p.position.x;
    data[start + 1] := p.position.y;
    data[start + 2] := -p.position.z;
    data[start + 3] := rotation.x;
    data[start + 4] := rotation.y;
    data[start + 5] := rotation.z;
    data[start + 6] := rotation.w;
    assert data[..] == Overwrite(old(data[..]), start, PoseFloats(p));
  }

  /** `for (int i = 0; i <= 26; i++) dataArray[27 + i] = dataArray[i];` */
  method CopyFirstView(data: array<real>)
    requires data.Length >= 101
    modifies data
    ensures data[..] == Overwrite(old(data[..]), 27, old(data[..27]))
  {
    for i := 0 to 27
      invariant forall k :: 0 <= k < data.Length ==>
        data[k] == if 27 <= k < 27 + i then old(data[k - 27]) else old(data[k])
    {
      data[27 + i] := data[i];
    }
    assert data[..] == Overwrite(old(data[..]), 27, old(data[..27]));
  }

  /** The byte stores of a session frame: tracking and activity flags, event masks, target ray modes. */
  method WriteInputBytes(bytes: array<byte>, s: Settings, leftSelected: bool, rightSelected: bool)
    requires bytes.Length >= 48
    modifies bytes
    ensures bytes[..] == old(bytes[..])[ByteStart(Left) := 1][ByteStart(Right) := 1][ActiveByte(Left) := 1]
      [ActiveByte(Right) := 1][EventByte(Left) := EventMask(s.leftSelect, leftSelected)]
      [EventByte(Right) := EventMask(s.rightSelect, rightSelected)]
      [ByteStart(Left) + 1 := s.mode.Value()][ByteStart(Right) + 1 := s.mode.Value()]
  {
    bytes[4] := 1;
    bytes[24] := 1;
    bytes[44] := 1;
    bytes[45] := 1;
    if s.leftSelect && !leftSelected {
      bytes[1] := 8;
    } else if !s.leftSelect && leftSelected {
      bytes[1] := 32;
    } else {
      bytes[1] := 0;
    }
    if s.rightSelect && !rightSelected {
      bytes[2] := 8;
    } else if !s.rightSelect && rightSelected {
      bytes[2] := 32;
    } else {
      bytes[2] := 0;
    }
    bytes[5] := s.mode.Value();
    bytes[25] := bytes[5];
  }

  /** A position as the decoder reads it back: the z axis flipped twice and the height offset added. */
  function Lifted(p: Vec3, yOffset: real): Vec3
  {
    Vec3(p.x, p.y + yOffset, p.z)
  }

  /** The seven floats of a pose decode back to that pose, raised by the height offset. */
  lemma PoseRoundTrip(d: seq<real>, start: nat, p: Pose, yOffset: real)
    requires start + 7 <= |d|
    requires forall k :: 0 <= k < 7 ==> d[start + k] == PoseFloats(p)[k]
    ensures ToUnityPosition(d[start], d[start + 1], d[start + 2], yOffset) == Lifted(p.position, yOffset)
    ensures ToUnityRotation(d[start + 3], d[start + 4], d[start + 5], d[start + 6]) == p.rotation
  {
    var f := PoseFloats(p);
    assert d[start + 0] == f[0] && d[start + 1] == f[1] && d[start + 2] == f[2];
    assert d[start + 3] == f[3] && d[start + 4] == f[4] && d[start + 5] == f[5] && d[start + 6] == f[6];
    RotationInvolution(p.rotation);
  }

  /** A view written as `ViewOf` decodes back to its projection, its raised pose and its viewport. */
  lemma ViewRoundTrip(d: seq<real>, id: nat, m: Matrix4, p: Pose, viewport: Rect, yOffset: real)
    requires id < 2 && |d| >= 54
    requires forall k :: 0 <= k < 27 ==> d[ViewStart(id) + k] == ViewOf(m, p, viewport)[k]
    ensures DecodeView(d, id, yOffset) == View(m, Pose(Lifted(p.position, yOffset), p.rotation), viewport)
  {
    var s := ViewStart(id);
    var v := ViewOf(m, p, viewport);
    forall k | 0 <= k < 7
      ensures d[s + 16 + k] == PoseFloats(p)[k]
    {
      assert d[s + (16 + k)] == v[16 + k];
    }
    PoseRoundTrip(d, s + 16, p, yOffset);
    var pf := ProjectionFloats(m);
    assert v[..16] == pf;
    assert d[s + 0] == pf[0] && d[s + 1] == pf[1] && d[s + 2] == pf[2] && d[s + 3] == pf[3];
    assert d[s + 4] == pf[4] && d[s + 5] == pf[5] && d[s + 6] == pf[6] && d[s + 7] == pf[7];
    assert d[s + 8] == pf[8] && d[s + 9] == pf[9] && d[s + 10] == pf[10] && d[s + 11] == pf[11];
    assert d[s + 12] == pf[12] && d[s + 13] == pf[13] && d[s + 14] == pf[14] && d[s + 15] == pf[15];
    assert d[s + 23] == v[23] && d[s + 24] == v[24] && d[s + 25] == v[25] && d[s + 26] == v[26];
  }

  /** The viewport of the first view: the left half in two-eye mode, the whole screen otherwise. */
  function FirstViewport(render2Eyes: bool): Rect
  {
    if render2Eyes then Rect(0.0, 0.0, 0.5, 1.0) else FULL_VIEWPORT
  }

  /** The viewport of the second view: the right half. */
  const SECOND_VIEWPORT: Rect := Rect(0.5, 0.0, 0.5, 1.0)

  /**
   * The views of a session frame: the first is the head's view over its
   * viewport; in two-eye mode the second is the same view over the right
   * half, and otherwise every float after the first view is left alone.
   */
  lemma SimulatedViewsShape(d: seq<real>, scene: Scene, render2Eyes: bool)
    requires |d| >= 101
    ensures forall k :: 0 <= k < 27 ==>
      SimulatedViews(d, scene, render2Eyes)[k] == ViewOf(scene.projection, scene.head, FirstViewport(render2Eyes))[k]
    ensures render2Eyes ==> forall k :: 0 <= k < 27 ==>
      SimulatedViews(d, scene, render2Eyes)[27 + k] == ViewOf(scene.projection, scene.head, SECOND_VIEWPORT)[k]
    ensures !render2Eyes ==> forall k :: 27 <= k < |d| ==> SimulatedViews(d, scene, render2Eyes)[k] == d[k]
  {
    var m, p := scene.projection, scene.head;
    var first := Overwrite(d, 0, ViewFloats(scene));
    if render2Eyes {
      var narrowed := first[25 := 0.5];
      assert narrowed[..27] == ViewOf(m, p, FirstViewport(true)) by {
        assert first[..27] == ViewFloats(scene);
      }
      var r := SecondView(narrowed);
      assert ViewOf(m, p, SECOND_VIEWPORT) == ViewOf(m, p, FirstViewport(true))[23 := 0.5];
      forall k | 0 <= k < 27
        ensures r[27 + k] == ViewOf(m, p, SECOND_VIEWPORT)[k]
      {
        assert r[27 + k] == (if k == 23 then 0.5 else narrowed[..27][k]);
      }
    }
  }

  /** The floats of a session frame after the views: both controller poses in their blocks, and the user height. */
  lemma SimulatedInputsShape(d: seq<real>, scene: Scene, s: Settings)
    requires |d| >= 101
    ensures var r := SimulatedData(d, scene, s, true);
      && (forall k :: 0 <= k < 54 ==> r[k] == SimulatedViews(d, scene, s.render2Eyes)[k])
      && (forall k :: 0 <= k < 7 ==> r[FloatStart(Left) + k] == PoseFloats(scene.left)[k])
      && (forall k :: 0 <= k < 7 ==> r[FloatStart(Right) + k] == PoseFloats(scene.right)[k])
      && r[USER_HEIGHT_FLOAT] == s.userHeight
  {
  }

  /**
   * Written then read: during a session the first camera's view is the
   * main camera's projection at the head's pose over the first viewport,
   * and in two-eye mode the second camera's is the same over the right half.
   */
  lemma SimulatedViewsDecode(d: seq<real>, scene: Scene, s: Settings, yOffset: real)
    requires |d| >= 101
    ensures var r := SimulatedData(d, scene, s, true);
      var head := Pose(Lifted(scene.head.position, yOffset), scene.head.rotation);
      && DecodeView(r, 0, yOffset) == View(scene.projection, head, FirstViewport(s.render2Eyes))
      && (s.render2Eyes ==> DecodeView(r, 1, yOffset) == View(scene.projection, head, SECOND_VIEWPORT))
  {
    var r := SimulatedData(d, scene, s, true);
    var views := SimulatedViews(d, scene, s.render2Eyes);
    SimulatedViewsShape(d, scene, s.render2Eyes);
    SimulatedInputsShape(d, scene, s);
    forall k | 0 <= k < 27
      ensures r[ViewStart(0) + k] == ViewOf(scene.projection, scene.head, FirstViewport(s.render2Eyes))[k]
    {
      assert r[k] == views[k];
    }
    ViewRoundTrip(r, 0, scene.projection, scene.head, FirstViewport(s.render2Eyes), yOffset);
    if s.render2Eyes {
      forall k | 0 <= k < 27
        ensures r[ViewStart(1) + k] == ViewOf(scene.projection, scene.head, SECOND_VIEWPORT)[k]
      {
        assert r[27 + k] == views[27 + k];
      }
      ViewRoundTrip(r, 1, scene.projection, scene.head, SECOND_VIEWPORT, yOffset);
    }
  }

  /**
   * The cameras the decoder sets up for a simulated frame: none without a
   * session; in two-eye mode two active cameras, the left over the left
   * half and the right over the right half; otherwise only the left one,
   * over the whole screen.
   */
  lemma SimulatedCameras(d: seq<real>, b: seq<byte>, scene: Scene, s: Settings, started: bool,
                         leftSelected: bool, rightSelected: bool, yOffset: real)
    requires |d| >= 101 && |b| >= 48
    ensures var head := Pose(Lifted(scene.head.position, yOffset), scene.head.rotation);
      var cameras := Cameras(SimulatedBytes(b, s, started, leftSelected, rightSelected)[0], SimulatedData(d, scene, s, started), yOffset);
      cameras == if !started then (NoCamera, NoCamera)
        else if s.render2Eyes then
          (Active(View(scene.projection, head, FirstViewport(true))), Active(View(scene.projection, head, SECOND_VIEWPORT)))
        else (Active(View(scene.projection, head, FULL_VIEWPORT)), NoCamera)
  {
    if started {
      var r := SimulatedData(d, scene, s, true);
      SimulatedViewsDecode(d, scene, s, yOffset);
      if s.render2Eyes {
        assert Viewport(r, 0) == FirstViewport(true) && Viewport(r, 1) == SECOND_VIEWPORT by {
          assert DecodeView(r, 0, yOffset).viewport == Viewport(r, 0);
          assert DecodeView(r, 1, yOffset).viewport == Viewport(r, 1);
        }
        TwoEyes(r, yOffset);
      }
    }
  }

  /**
   * The event byte the simulation writes brings the select state to the
   * wanted value through the decoder's state machine, leaves the squeeze
   * state alone, and raises exactly the select start or select end needed.
   */
  lemma EventMaskReachesWanted(src: InputSource, want: bool)
    ensures EventState(src, EventMask(want, src.selected)) == src.(selected := want)
    ensures InputEvents(src.handedness, EventMask(want, src.selected)) ==
      if want && !src.selected then [InputEvent(src.handedness, SelectStart)]
      else if !want && src.selected then [InputEvent(src.handedness, SelectEnd)]
      else []
    ensures EventMask(want, src.selected) == 0 <==> want == src.selected
  {
    var m := EventMask(want, src.selected);
    var h := src.handedness;
    if m == 8 {
      assert HasFlag(m, SelectStart) && !HasFlag(m, SelectEnd) && !HasFlag(m, Select);
      assert !HasFlag(m, SqueezeStart) && !HasFlag(m, SqueezeEnd) && !HasFlag(m, Squeeze);
      assert SelectEvents(h, m) == [InputEvent(h, SelectStart)];
    } else if m == 32 {
      assert !HasFlag(m, SelectStart) && HasFlag(m, SelectEnd) && !HasFlag(m, Select);
      assert !HasFlag(m, SqueezeStart) && !HasFlag(m, SqueezeEnd) && !HasFlag(m, Squeeze);
      assert SelectEvents(h, m) == [InputEvent(h, SelectEnd)];
    } else {
      RaiseAllIsEventState(src, m);
    }
  }

  /**
   * Written then read, for one controller: during a session the decoder
   * gives it the simulated transform (raised by the height offset), marks
   * it tracked and active, gives it the simulated target ray mode, and
   * moves its select state to the simulated one.
   */
  lemma SimulatedInputDecode(src: InputSource, d: seq<real>, b: seq<byte>, hand: seq<real>, scene: Scene, s: Settings,
                             leftSelected: bool, rightSelected: bool, yOffset: real)
    requires |d| >= 101 && |b| >= 48 && |hand| >= 400
    requires src.selected == if src.handedness == Left then leftSelected else rightSelected
    ensures var pose := if src.handedness == Left then scene.left else scene.right;
      var want := if src.handedness == Left then s.leftSelect else s.rightSelect;
      var r := Refreshed(src, SimulatedData(d, scene, s, true), SimulatedBytes(b, s, true, leftSelected, rightSelected), hand, yOffset);
      && r.position == Lifted(pose.position, yOffset) && r.rotation == pose.rotation
      && r.isPositionTracked && r.available && r.targetRayMode == s.mode.Value()
      && r.selected == want && r.squeezed == src.squeezed
  {
    var h := src.handedness;
    var pose := if h == Left then scene.left else scene.right;
    var want := if h == Left then s.leftSelect else s.rightSelect;
    SimulatedInputsShape(d, scene, s);
    SimulatedBytesShape(b, s, leftSelected, rightSelected);
    RefreshedInput(src, SimulatedData(d, scene, s, true), SimulatedBytes(b, s, true, leftSelected, rightSelected),
                   hand, pose, want, s.mode.Value(), yOffset);
  }

  /** The bytes of a session frame: the view count, and the tracking, activity, mode and event bytes of both controllers. */
  lemma SimulatedBytesShape(b: seq<byte>, s: Settings, leftSelected: bool, rightSelected: bool)
    requires |b| >= 48
    ensures var c := SimulatedBytes(b, s, true, leftSelected, rightSelected);
      && c[0] == ViewCount(true, s.render2Eyes)
      && c[ByteStart(Left)] == 1 && c[ByteStart(Right)] == 1 && c[ActiveByte(Left)] == 1 && c[ActiveByte(Right)] == 1
      && c[ByteStart(Left) + 1] == s.mode.Value() && c[ByteStart(Right) + 1] == s.mode.Value()
      && c[EventByte(Left)] == EventMask(s.leftSelect, leftSelected)
      && c[EventByte(Right)] == EventMask(s.rightSelect, rightSelected)
  {
  }

  /** An input source decoded from a written pose and written tracking, activity, mode and event bytes. */
  lemma RefreshedInput(src: InputSource, d: seq<real>, c: seq<byte>, hand: seq<real>, pose: Pose, want: bool,
                       mode: byte, yOffset: real)
    requires |d| >= 100 && |c| >= 48 && |hand| >= 400
    requires forall k :: 0 <= k < 7 ==> d[FloatStart(src.handedness) + k] == PoseFloats(pose)[k]
    requires c[ByteStart(src.handedness)] == 1 && c[ActiveByte(src.handedness)] == 1
    requires c[ByteStart(src.handedness) + 1] == mode && c[EventByte(src.handedness)] == EventMask(want, src.selected)
    ensures var r := Refreshed(src, d, c, hand, yOffset);
      && r.position == Lifted(pose.position, yOffset) && r.rotation == pose.rotation
      && r.isPositionTracked && r.available && r.targetRayMode == mode
      && r.selected == want && r.squeezed == src.squeezed
  {
    PoseRoundTrip(d, FloatStart(src.handedness), pose, yOffset);
    var p := DecodePose(src, d, c, yOffset);
    EventMaskReachesWanted(p, want);
  }

  /**
   * One simulated frame read by the decoder: the session runs, both
   * controllers take the simulated transforms, modes and select states,
   * the cameras are set up for the simulated views, and the user height
   * is the simulated one.
   */
  lemma SimulatedFrameDecode(f: Frame, d: seq<real>, b: seq<byte>, hand: seq<real>, scene: Scene, s: Settings, yOffset: real)
    requires |d| >= 101 && |b| >= 48 && |hand| >= 400 && FrameShaped(f)
    ensures var r := SimulatedData(d, scene, s, true);
      var c := SimulatedBytes(b, s, true, f.left.selected, f.right.selected);
      var g := UpdatedFrame(f, r, c, hand, yOffset);
      && g.inSession
      && g.left.selected == s.leftSelect && g.right.selected == s.rightSelect
      && g.left.position == Lifted(scene.left.position, yOffset) && g.left.rotation == scene.left.rotation
      && g.right.position == Lifted(scene.right.position, yOffset) && g.right.rotation == scene.right.rotation
      && g.left.targetRayMode == s.mode.Value() && g.right.targetRayMode == s.mode.Value()
      && g.cameras.0.Active? && (g.cameras.1.Active? <==> s.render2Eyes)
      && r[USER_HEIGHT_FLOAT] == s.userHeight
  {
    SimulatedInputDecode(f.left, d, b, hand, scene, s, f.left.selected, f.right.selected, yOffset);
    SimulatedInputDecode(f.right, d, b, hand, scene, s, f.left.selected, f.right.selected, yOffset);
    SimulatedCameras(d, b, scene, s, true, f.left.selected, f.right.selected, yOffset);
    SimulatedInputsShape(d, scene, s);
  }

  /**
   * Without a session only the view count byte is written, to zero, so the
   * decoder ends a running session and sets up no camera.
   */
  lemma SimulatedNoSession(f: Frame, d: seq<real>, b: seq<byte>, hand: seq<real>, scene: Scene, s: Settings,
                           leftSelected: bool, rightSelected: bool, yOffset: real)
    requires |d| >= 101 && |b| >= 48 && |hand| >= 400
    ensures SimulatedData(d, scene, s, false) == d
    ensures forall k :: 1 <= k < |b| ==> SimulatedBytes(b, s, false, leftSelected, rightSelected)[k] == b[k]
    ensures var c := SimulatedBytes(b, s, false, leftSelected, rightSelected);
      var g := UpdatedFrame(f, d, c, hand, yOffset);
      && !g.inSession && g.cameras == (NoCamera, NoCamera)
      && (SessionEnd in FrameEvents(f, c) <==> f.inSession)
  {
    var c := SimulatedBytes(b, s, false, leftSelected, rightSelected);
    SessionEdges(f, d, c, hand, yOffset);
  }

  /**
   * One simulated frame as the binding decodes it: with a session it runs
   * with the simulated select states and at least one camera, without one
   * it is not running and has no camera.
   */
  lemma SimulatedFrame(f: Frame, d: seq<real>, b: seq<byte>, hand: seq<real>, scene: Scene, s: Settings,
                       started: bool, yOffset: real)
    requires |d| >= 101 && |b| >= 48 && |hand| >= 400 && FrameShaped(f)
    ensures var g := UpdatedFrame(f, SimulatedData(d, scene, s, started),
                                  SimulatedBytes(b, s, started, f.left.selected, f.right.selected), hand, yOffset);
      && (started ==> g.inSession && g.left.selected == s.leftSelect && g.right.selected == s.rightSelect
                      && g.cameras.0.Active?)
      && (!started ==> !g.inSession && g.cameras == (NoCamera, NoCamera))
  {
    if started {
      SimulatedFrameDecode(f, d, b, hand, scene, s, yOffset);
    } else {
      SimulatedNoSession(f, d, b, hand, scene, s, f.left.selected, f.right.selected, yOffset);
    }
  }

  /** The "Set camera" menu items: none, left, right or both eyes, valued as `WebXRViewEyes`. */
  datatype CameraChoice = NoEye | LeftEye | RightEye | BothEyes
  {
    function Value(): (b: byte)
      ensures b < 4
    {
      match this
      case NoEye => 0
      case LeftEye => 1
      case RightEye => 2
      case BothEyes => 3
    }

    predicate HasLeft()
    {
      this == LeftEye || this == BothEyes
    }

    predicate HasRight()
    {
      this == RightEye || this == BothEyes
    }
  }

  /**
   * The menu items as written store the choice in float 0, the first
   * entry of the first projection matrix: which cameras the decoder sets
   * up does not change, and the next session frame overwrites the float.
   */
  lemma MenuFloatIgnored(d: seq<real>, b: seq<byte>, choice: CameraChoice, scene: Scene, s: Settings, yOffset: real)
    requires |d| >= 101 && |b| >= 48
    ensures var c := Cameras(b[0], d[0 := choice.Value() as real], yOffset);
      var c' := Cameras(b[0], d, yOffset);
      (c.0.NoCamera? <==> c'.0.NoCamera?) && (c.1.NoCamera? <==> c'.1.NoCamera?)
    ensures SimulatedData(d[0 := choice.Value() as real], scene, s, true) == SimulatedData(d, scene, s, true)
  {
    var d' := d[0 := choice.Value() as real];
    assert ViewStart(0) + 23 > 0;
    assert Overwrite(d', 0, ViewFloats(scene)) == Overwrite(d, 0, ViewFloats(scene));
  }

  /** As written, "Set camera none" during a one-eye session leaves the left camera rendering. */
  lemma MenuNoneKeepsCamera(d: seq<real>, yOffset: real)
    requires |d| >= 101
    ensures Cameras(ViewCount(true, false), d[0 := NoEye.Value() as real], yOffset).0.Active?
  {
  }

  /** Corrected, the choice is the view count byte: the decoder then sets up exactly the chosen cameras. */
  lemma MenuViewCountChoosesEyes(d: seq<real>, choice: CameraChoice, yOffset: real)
    requires |d| >= 54
    ensures var c := Cameras(choice.Value(), d, yOffset);
      (!c.0.NoCamera? <==> choice.HasLeft()) && (!c.1.NoCamera? <==> choice.HasRight())
  {
    var v := choice.Value();
    assert HasEye(v, 0) <==> choice.HasLeft();
    assert HasEye(v, 1) <==> choice.HasRight();
  }
}
