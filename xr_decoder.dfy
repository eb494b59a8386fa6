/**
 * `UpdateInput` and `RaiseInputSourceEvent` of the runtime package and of
 * the plugin, which are the same code over the respective arrays: the
 * input source is refreshed field by field from the shared arrays and its
 * pending event byte is consumed.
 */
module XrDecoder {
  import opened Wrappers
  import opened Bytes
  import opened XrShared

  /** `RaiseInputSourceEvent`: on a set flag, the state change of that type and the event raised. */
  method RaiseInputSourceEvent(mask: byte, t: EventType, s: InputSource) returns (r: InputSource, raised: seq<XrEvent>)
    ensures r == Raise(s, mask, t)
    ensures raised == RaisedBy(s.handedness, mask, t)
  {
    r, raised := s, [];
    if (mask / t.Flag()) % 2 == 1 {
      match t {
        case SelectStart => r := r.(selected := true);
        case SelectEnd => r := r.(selected := false);
        case SqueezeStart => r := r.(squeezed := true);
        case SqueezeEnd => r := r.(squeezed := false);
        case _ =>
      }
      raised := [InputEvent(s.handedness, t)];
    }
  }

  /** The six `RaiseInputSourceEvent` calls of a non-empty mask, in `EVENT_ORDER`. */
  method RaiseEvents(mask: byte, src: InputSource) returns (r: InputSource, raised: seq<XrEvent>)
    requires mask != 0
    ensures r == EventState(src, mask)
    ensures raised == InputEvents(src.handedness, mask)
  {
    var ev1, ev2, ev3, ev4, ev5, ev6;
    var s1, s2, s3, s4, s5;
    s1, ev1 := RaiseInputSourceEvent(mask, Select, src);
    s2, ev2 := RaiseInputSourceEvent(mask, SelectEnd, s1);
    s3, ev3 := RaiseInputSourceEvent(mask, SelectStart, s2);
    s4, ev4 := RaiseInputSourceEvent(mask, Squeeze, s3);
    s5, ev5 := RaiseInputSourceEvent(mask, SqueezeEnd, s4);
    r, ev6 := RaiseInputSourceEvent(mask, SqueezeStart, s5);
    raised := (ev1 + ev2 + ev3) + (ev4 + ev5 + ev6);
    SixStepsAreEventState(src, mask, s1, s2, s3, s4, s5, r);
    SixEventLists(src.handedness, mask, ev1, ev2, ev3, ev4, ev5, ev6);
  }

  /** The six raised lists, concatenated in call order, are the events of the mask. */
  lemma SixEventLists(h: Handedness, mask: byte, ev1: seq<XrEvent>, ev2: seq<XrEvent>, ev3: seq<XrEvent>,
                      ev4: seq<XrEvent>, ev5: seq<XrEvent>, ev6: seq<XrEvent>)
    requires mask != 0
    requires ev1 == RaisedBy(h, mask, Select) && ev2 == RaisedBy(h, mask, SelectEnd) && ev3 == RaisedBy(h, mask, SelectStart)
    requires ev4 == RaisedBy(h, mask, Squeeze) && ev5 == RaisedBy(h, mask, SqueezeEnd) && ev6 == RaisedBy(h, mask, SqueezeStart)
    ensures (ev1 + ev2 + ev3) + (ev4 + ev5 + ev6) == InputEvents(h, mask)
  {
  }

  /** The axes loop: all eight axes, whatever the axes count. */
  method CopyAxes(data: array<real>, s: nat, axes: seq<real>) returns (r: seq<real>)
    requires s + 15 <= data.Length && |axes| == AXES_BUTTON_COUNT
    ensures r == DecodeAxes(data[..], s)
  {
    r := axes;
    for i := 0 to AXES_BUTTON_COUNT
      invariant |r| == AXES_BUTTON_COUNT
      invariant forall k :: 0 <= k < i ==> r[k] == data[s + 7 + k]
    {
      r := r[i := data[s + 7 + i]];
    }
  }

  /** The buttons loop: all eight buttons, whatever the buttons count. */
  method CopyButtons(data: array<real>, bytes: array<byte>, s: nat, t: nat, buttons: seq<Button>) returns (r: seq<Button>)
    requires s + 23 <= data.Length && t + 20 <= bytes.Length && |buttons| == AXES_BUTTON_COUNT
    ensures r == DecodeButtons(data[..], bytes[..], s, t)
  {
    r := buttons;
    for i := 0 to AXES_BUTTON_COUNT
      invariant |r| == AXES_BUTTON_COUNT
      invariant forall k :: 0 <= k < i ==> r[k] == Button(data[s + 15 + k], bytes[t + 4 + k] != 0, bytes[t + 12 + k] != 0)
    {
      r := r[i := Button(data[s + 15 + i], bytes[t + 4 + i] != 0, bytes[t + 12 + i] != 0)];
    }
  }

  /** The joints loop of an available hand. */
  method CopyJoints(hand: array<real>, h: Handedness, yOffset: real, joints: seq<Joint>) returns (r: seq<Joint>)
    requires hand.Length >= 400 && |joints| == JOINT_COUNT
    ensures r == DecodeJoints(hand[..], h, yOffset)
  {
    r := joints;
    for j := 0 to JOINT_COUNT
      invariant |r| == JOINT_COUNT
      invariant forall k :: 0 <= k < j ==> r[k] == DecodeJoint(hand[..], JointStart(h, k), yOffset)
    {
      var i := h.Index() * 200 + j * 8;
      r := r[j := Joint(ToUnityPosition(hand[i], hand[i + 1], hand[i + 2], yOffset),
                        ToUnityRotation(hand[i + 3], hand[i + 4], hand[i + 5], hand[i + 6]),
                        Some(hand[i + 7]))];
    }
  }

  /**
   * `UpdateInput`: the source decoded from the arrays, the events its
   * mask raises, and its event byte set to zero (it is written only when
   * non-zero, which leaves the same array).
   */
  method UpdateInput(data: array<real>, bytes: array<byte>, hand: array<real>, src: InputSource, yOffset: real)
    returns (r: InputSource, raised: seq<XrEvent>)
    requires data.Length >= 100 && bytes.Length >= 48 && hand.Length >= 400 && WellShaped(src)
    modifies bytes
    ensures r == DecodeInput(src, data[..], old(bytes[..]), hand[..], yOffset)
    ensures raised == InputEvents(src.handedness, old(bytes[EventByte(src.handedness)]))
    ensures bytes[..] == old(bytes[..])[EventByte(src.handedness) := 0]
  {
    r := UpdatePose(data, bytes, src, yOffset);
    ghost var b := bytes[..];
    r, raised := ConsumeEvents(bytes, r);
    ghost var e := r;
    r := UpdateControls(data, bytes, hand, r, yOffset);
    DecodeControlsFrame(e, data[..], b, hand[..], yOffset, 0);
  }

  /** The pose statements of `UpdateInput`. */
  method UpdatePose(data: array<real>, bytes: array<byte>, src: InputSource, yOffset: real) returns (r: InputSource)
    requires data.Length >= 100 && bytes.Length >= 48
    ensures r == DecodePose(src, data[..], bytes[..], yOffset)
  {
    var floatStart := src.handedness.Index() * 23 + 54;
    var byteStart := src.handedness.Index() * 20 + 4;
    r := src.(position := ToUnityPosition(data[floatStart + 0], data[floatStart + 1], data[floatStart + 2], yOffset),
              rotation := ToUnityRotation(data[floatStart + 3], data[floatStart + 4], data[floatStart + 5], data[floatStart + 6]),
              isPositionTracked := bytes[byteStart + 0] != 0);
  }

  /** The event statements of `UpdateInput`: the six raises of a non-zero mask, then the mask cleared. */
  method ConsumeEvents(bytes: array<byte>, src: InputSource) returns (r: InputSource, raised: seq<XrEvent>)
    requires bytes.Length >= 48
    modifies bytes
    ensures r == EventState(src, old(bytes[EventByte(src.handedness)]))
    ensures raised == InputEvents(src.handedness, old(bytes[EventByte(src.handedness)]))
    ensures bytes[..] == old(bytes[..])[EventByte(src.handedness) := 0]
  {
    var eventId := src.handedness.Index() + 1;
    var mask := bytes[eventId];
    if mask != 0 {
      r, raised := RaiseEvents(mask, src);
      bytes[eventId] := 0;
    } else {
      r, raised := src, [];
      RaiseAllIsEventState(src, mask);
      assert bytes[..] == old(bytes[..])[eventId := 0];
    }
  }

  /** The statements of `UpdateInput` after the events: ray mode, counts, axes, buttons and hand. */
  method UpdateControls(data: array<real>, bytes: array<byte>, hand: array<real>, e: InputSource, yOffset: real)
    returns (r: InputSource)
    requires data.Length >= 100 && bytes.Length >= 48 && hand.Length >= 400 && WellShaped(e)
    ensures r == DecodeControls(e, data[..], bytes[..], hand[..], yOffset)
  {
    var h := e.handedness;
    var floatStart := h.Index() * 23 + 54;
    var byteStart := h.Index() * 20 + 4;
    var mode := bytes[byteStart + 1];
    var axesCount := bytes[byteStart + 2] as int;
    var axes := CopyAxes(data, floatStart, e.axes);
    var buttonsCount := bytes[byteStart + 3] as int;
    var buttons := CopyButtons(data, bytes, floatStart, byteStart, e.buttons);
    var handAvailable := 0 != bytes[46 + h.Index()];
    var joints := e.hand.joints;
    if handAvailable {
      joints := CopyJoints(hand, h, yOffset, joints);
    }
    r := e.(targetRayMode := mode, axesCount := axesCount, axes := axes,
            buttonsCount := buttonsCount, buttons := buttons, hand := Hand(handAvailable, joints));
  }
}
