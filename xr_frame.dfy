/**
 * One frame of the runtime package's `UpdateWebXR` and of the plugin's
 * `LateUpdate`: both cameras, both input sources, their availability,
 * the input-change event and the session edge, read from the arrays the
 * browser shares.
 */
module XrFrame {
  import opened Bytes
  import opened XrShared
  import XrDecoder

  /** What survives from one frame to the next: `InSession`, the two input sources and the two cameras. */
  datatype Frame = Frame(inSession: bool, left: InputSource, right: InputSource, cameras: (CameraState, CameraState))

  /** The left source is the left hand's, the right the right hand's, both as allocated. */
  predicate FrameShaped(f: Frame)
  {
    f.left.handedness == Left && f.right.handedness == Right && WellShaped(f.left) && WellShaped(f.right)
  }

  /** The byte that flags a change of the browser's input sources. */
  const INPUT_CHANGE_BYTE: nat := 3

  /** The byte that says whether an input source is active. */
  function ActiveByte(h: Handedness): nat
  {
    44 + h.Index()
  }

  /** A session runs while the view count byte is non-zero. */
  predicate Running(bytes: seq<byte>)
    requires |bytes| >= 1
  {
    bytes[0] != 0
  }

  /** The frame after one update over the arrays as they were at its start. */
  function UpdatedFrame(f: Frame, data: seq<real>, bytes: seq<byte>, hand: seq<real>, yOffset: real): Frame
    requires |data| >= 100 && |bytes| >= 48 && |hand| >= 400
  {
    Frame(Running(bytes), Refreshed(f.left, data, bytes, hand, yOffset), Refreshed(f.right, data, bytes, hand, yOffset),
          Cameras(bytes[0], data, yOffset))
  }

  /** An input source decoded from the arrays, with the availability its active byte gives. */
  function Refreshed(src: InputSource, data: seq<real>, bytes: seq<byte>, hand: seq<real>, yOffset: real): InputSource
    requires |data| >= 100 && |bytes| >= 48 && |hand| >= 400
  {
    DecodeInput(src, data, bytes, hand, yOffset).(available := bytes[ActiveByte(src.handedness)] != 0)
  }

  /**
   * The events of one update, in order: the left source's, the right
   * source's, the input-change event, then the session edge.
   */
  function FrameEvents(f: Frame, bytes: seq<byte>): seq<XrEvent>
    requires |bytes| >= 48
  {
    (InputEvents(Left, bytes[EventByte(Left)]) + InputEvents(Right, bytes[EventByte(Right)])) + FrameTail(f, bytes)
  }

  /** The events after the input sources': the input-change event, then the session edge. */
  function FrameTail(f: Frame, bytes: seq<byte>): seq<XrEvent>
    requires |bytes| >= 48
  {
    (if bytes[INPUT_CHANGE_BYTE] != 0 then [InputSourcesChange] else []) + SessionEdge(f.inSession, Running(bytes))
  }

  /** The byte array after an update: both event bytes and the input-change byte consumed. */
  function ClearedBytes(bytes: seq<byte>): seq<byte>
    requires |bytes| >= 48
  {
    bytes[EventByte(Left) := 0][EventByte(Right) := 0][INPUT_CHANGE_BYTE := 0]
  }

  /**
   * One update: `UpdateCamera` for both eyes, `UpdateInput` for the left
   * then the right source, the availability bytes, the input-change byte
   * (raised and cleared when set) and the session edge.
   */
  method UpdateFrame(data: array<real>, bytes: array<byte>, hand: array<real>, f: Frame, yOffset: real)
    returns (r: Frame, events: seq<XrEvent>)
    requires data.Length >= 100 && bytes.Length >= 48 && hand.Length >= 400 && FrameShaped(f)
    modifies bytes
    ensures r == UpdatedFrame(f, data[..], old(bytes[..]), hand[..], yOffset)
    ensures events == FrameEvents(f, old(bytes[..]))
    ensures bytes[..] == ClearedBytes(old(bytes[..]))
    ensures FrameShaped(r)
  {
    ghost var b0 := bytes[..];
    var cameras := Cameras(bytes[0], data[..], yOffset);
    var left, right, inputEvents := UpdateInputs(data, bytes, hand, f, yOffset);
    assert bytes[INPUT_CHANGE_BYTE] == b0[INPUT_CHANGE_BYTE] && bytes[0] == b0[0];
    var tail := [];
    if bytes[INPUT_CHANGE_BYTE] != 0 {
      tail := [InputSourcesChange];
      bytes[INPUT_CHANGE_BYTE] := 0;
    }
    var inSession := f.inSession;
    if bytes[0] != 0 && !inSession {
      inSession := true;
      tail := tail + [SessionStart];
    } else if inSession && bytes[0] == 0 {
      inSession := false;
      tail := tail + [SessionEnd];
    }
    assert tail == FrameTail(f, b0);
    events := inputEvents + tail;
    r := Frame(inSession, left, right, cameras);
  }

  /** `UpdateInput` for the left then the right source, then their availability bytes. */
  method UpdateInputs(data: array<real>, bytes: array<byte>, hand: array<real>, f: Frame, yOffset: real)
    returns (left: InputSource, right: InputSource, events: seq<XrEvent>)
    requires data.Length >= 100 && bytes.Length >= 48 && hand.Length >= 400 && FrameShaped(f)
    modifies bytes
    ensures left == Refreshed(f.left, data[..], old(bytes[..]), hand[..], yOffset)
    ensures right == Refreshed(f.right, data[..], old(bytes[..]), hand[..], yOffset)
    ensures events == InputEvents(Left, old(bytes[EventByte(Left)])) + InputEvents(Right, old(bytes[EventByte(Right)]))
    ensures bytes[..] == old(bytes[..])[EventByte(Left) := 0][EventByte(Right) := 0]
    ensures left.handedness == Left && right.handedness == Right && WellShaped(left) && WellShaped(right)
  {
    ghost var b0 := bytes[..];
    var leftEvents, rightEvents;
    left, leftEvents := RefreshInput(data, bytes, hand, f.left, yOffset);
    ghost var b1 := bytes[..];
    right, rightEvents := RefreshInput(data, bytes, hand, f.right, yOffset);
    DecodeInputFrame(f.right, data[..], b0, b1, hand[..], yOffset);
    events := leftEvents + rightEvents;
  }

  /** `UpdateInput` for one source, then its availability byte. */
  method RefreshInput(data: array<real>, bytes: array<byte>, hand: array<real>, src: InputSource, yOffset: real)
    returns (r: InputSource, raised: seq<XrEvent>)
    requires data.Length >= 100 && bytes.Length >= 48 && hand.Length >= 400 && WellShaped(src)
    modifies bytes
    ensures r == Refreshed(src, data[..], old(bytes[..]), hand[..], yOffset)
    ensures raised == InputEvents(src.handedness, old(bytes[EventByte(src.handedness)]))
    ensures bytes[..] == old(bytes[..])[EventByte(src.handedness) := 0]
    ensures r.handedness == src.handedness && WellShaped(r)
  {
    ghost var b0 := bytes[..];
    r, raised := XrDecoder.UpdateInput(data, bytes, hand, src, yOffset);
    RefreshedShape(src, data[..], b0, hand[..], yOffset);
    r := r.(available := bytes[ActiveByte(src.handedness)] != 0);
  }

  /** Decoding keeps an input source's handedness and shape. */
  lemma RefreshedShape(src: InputSource, data: seq<real>, bytes: seq<byte>, hand: seq<real>, yOffset: real)
    requires |data| >= 100 && |bytes| >= 48 && |hand| >= 400 && WellShaped(src)
    ensures var r := Refreshed(src, data, bytes, hand, yOffset);
      r.handedness == src.handedness && WellShaped(r)
  {
  }

  /** No event of an update is a native call. */
  lemma FrameEventsKinds(f: Frame, bytes: seq<byte>)
    requires |bytes| >= 48
    ensures forall e :: e in FrameEvents(f, bytes) ==> e.InputEvent? || e == InputSourcesChange || e == SessionStart || e == SessionEnd
    ensures NativeInit !in FrameEvents(f, bytes)
  {
    InputEventsShape(Left, bytes[EventByte(Left)]);
    InputEventsShape(Right, bytes[EventByte(Right)]);
  }

  /** An event that no input source raises is raised by an update exactly when the tail raises it. */
  lemma OutsideInputs(f: Frame, bytes: seq<byte>, e: XrEvent)
    requires |bytes| >= 48 && !e.InputEvent?
    ensures e in FrameEvents(f, bytes) <==> e in FrameTail(f, bytes)
  {
    var a := InputEvents(Left, bytes[EventByte(Left)]);
    var b := InputEvents(Right, bytes[EventByte(Right)]);
    InputEventsShape(Left, bytes[EventByte(Left)]);
    InputEventsShape(Right, bytes[EventByte(Right)]);
    assert e !in a + b;
  }

  /**
   * After an update `InSession` is whether the view count byte is set;
   * `SessionStart` is raised exactly on a false-to-true change and
   * `SessionEnd` exactly on a true-to-false change.
   */
  lemma SessionEdges(f: Frame, data: seq<real>, bytes: seq<byte>, hand: seq<real>, yOffset: real)
    requires |data| >= 100 && |bytes| >= 48 && |hand| >= 400
    ensures UpdatedFrame(f, data, bytes, hand, yOffset).inSession <==> bytes[0] != 0
    ensures SessionStart in FrameEvents(f, bytes) <==> !f.inSession && bytes[0] != 0
    ensures SessionEnd in FrameEvents(f, bytes) <==> f.inSession && bytes[0] == 0
  {
    OutsideInputs(f, bytes, SessionStart);
    OutsideInputs(f, bytes, SessionEnd);
    SessionEdgeExact(f.inSession, Running(bytes));
  }

  /** `InputSourcesChange` is raised exactly when its byte is set, and then it is cleared. */
  lemma InputSourcesChangeExact(f: Frame, bytes: seq<byte>)
    requires |bytes| >= 48
    ensures InputSourcesChange in FrameEvents(f, bytes) <==> bytes[INPUT_CHANGE_BYTE] != 0
    ensures ClearedBytes(bytes)[INPUT_CHANGE_BYTE] == 0
  {
    OutsideInputs(f, bytes, InputSourcesChange);
  }

  /** An input source read a second time over arrays whose event byte was consumed stays as it is. */
  lemma DecodeInputAgain(src: InputSource, data: seq<real>, bytes: seq<byte>, bytes': seq<byte>, hand: seq<real>,
                         yOffset: real, available: bool)
    requires |data| >= 100 && |bytes| >= 48 && |hand| >= 400 && |bytes'| == |bytes|
    requires bytes'[EventByte(src.handedness)] == 0
    requires forall k :: ByteStart(src.handedness) <= k < ByteStart(src.handedness) + 20 ==> bytes'[k] == bytes[k]
    requires bytes'[HandAvailableByte(src.handedness)] == bytes[HandAvailableByte(src.handedness)]
    ensures var r := DecodeInput(src, data, bytes, hand, yOffset).(available := available);
      DecodeInput(r, data, bytes', hand, yOffset).(available := available) == r
  {
    var r := DecodeInput(src, data, bytes, hand, yOffset).(available := available);
    var t := ByteStart(src.handedness);
    assert bytes'[t] == bytes[t];
    var p := DecodePose(r, data, bytes', yOffset);
    assert p == r;
    RaiseAllIsEventState(p, 0);
    assert EventState(p, bytes'[EventByte(src.handedness)]) == r;
    DecodeControlsAgree(r, data, bytes, bytes', hand, yOffset);
    assert DecodeControls(r, data, bytes, hand, yOffset) == r;
  }

  /**
   * Nothing happens twice: a second update over the arrays the first one
   * left behind gives the same frame and raises no event.
   */
  lemma UpdateIdempotent(f: Frame, data: seq<real>, bytes: seq<byte>, hand: seq<real>, yOffset: real)
    requires |data| >= 100 && |bytes| >= 48 && |hand| >= 400 && FrameShaped(f)
    ensures var g := UpdatedFrame(f, data, bytes, hand, yOffset);
      && UpdatedFrame(g, data, ClearedBytes(bytes), hand, yOffset) == g
      && FrameEvents(g, ClearedBytes(bytes)) == []
  {
    var c := ClearedBytes(bytes);
    DecodeInputAgain(f.left, data, bytes, c, hand, yOffset, bytes[ActiveByte(Left)] != 0);
    DecodeInputAgain(f.right, data, bytes, c, hand, yOffset, bytes[ActiveByte(Right)] != 0);
    assert c[0] == bytes[0];
  }
}
