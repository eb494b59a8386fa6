/**
 * The calls the C# side makes into the browser, logged beside the Unity
 * events in the order they happen, and the ordering rules the three
 * `SimpleWebXR` classes keep over that log, and the captions of the start
 * button all three draw.
 */
module NativeLog {
  import opened XrShared

  /** The caption of the start button the bindings draw: `Enter AR` when AR is supported, `Enter VR` otherwise. */
  function StartCaption(arSupported: bool): string
  {
    "Enter " + (if arSupported then "AR" else "VR")
  }

  /** The caption shown when neither session mode is supported. */
  const NOT_SUPPORTED_CAPTION: string := "WebXR\r\nNot supported"

  /** An event raised to Unity listeners rather than a call into the browser. */
  predicate IsUnityEvent(e: XrEvent)
  {
    e.InputEvent? || e == InputSourcesChange || e == SessionStart || e == SessionEnd
  }

  /** The browser calls that use the shared arrays, which `InitWebXR` registers. */
  predicate NeedsInit(e: XrEvent)
  {
    e == NativeStartSession || e == NativeHitTestStart
  }

  /** Every call that uses the shared arrays comes after an `InitWebXR` call. */
  predicate InitFirst(log: seq<XrEvent>)
  {
    forall i :: 0 <= i < |log| && NeedsInit(log[i]) ==> NativeInit in log[..i]
  }

  /** How many times `e` occurs in the log. */
  function Count(log: seq<XrEvent>, e: XrEvent): nat
  {
    multiset(log)[e]
  }

  /** The browser call of `Initialize`: `InitWebXR` on the first call, nothing afterwards. */
  function InitCall(initialized: bool): (calls: seq<XrEvent>)
    ensures NativeInit in calls <==> !initialized
    ensures forall e :: e in calls ==> e == NativeInit
  {
    if initialized then [] else [NativeInit]
  }

  /** `Initialize` after any history leaves exactly one `InitWebXR` call in the log. */
  lemma InitCallOnce(log: seq<XrEvent>, initialized: bool)
    requires Count(log, NativeInit) == (if initialized then 1 else 0)
    ensures Count(log + InitCall(initialized), NativeInit) == 1
    ensures NativeInit in log + InitCall(initialized)
  {
    assert multiset(log + InitCall(initialized)) == multiset(log) + multiset(InitCall(initialized));
  }

  /** Appending a call keeps the rule when that call needs nothing or `InitWebXR` was made. */
  lemma AppendCall(log: seq<XrEvent>, e: XrEvent)
    requires InitFirst(log)
    requires NeedsInit(e) ==> NativeInit in log
    ensures InitFirst(log + [e])
    ensures forall c :: c != e ==> Count(log + [e], c) == Count(log, c)
    ensures Count(log + [e], e) == Count(log, e) + 1
  {
    var l := log + [e];
    forall i | 0 <= i < |l| && NeedsInit(l[i])
      ensures NativeInit in l[..i]
    {
      if i < |log| {
        assert l[..i] == log[..i];
      } else {
        assert log <= l[..i];
      }
    }
    assert multiset(l) == multiset(log) + multiset{e};
  }

  /** Appending Unity events keeps the rule and the count of every browser call. */
  lemma AppendUnity(log: seq<XrEvent>, events: seq<XrEvent>)
    requires InitFirst(log)
    requires forall e :: e in events ==> IsUnityEvent(e)
    ensures InitFirst(log + events)
    ensures forall c :: !IsUnityEvent(c) ==> Count(log + events, c) == Count(log, c)
  {
    var l := log + events;
    forall k | 0 <= k < |events|
      ensures !NeedsInit(events[k])
    {
      assert events[k] in events;
    }
    forall i | 0 <= i < |l| && NeedsInit(l[i])
      ensures NativeInit in l[..i]
    {
      if i >= |log| {
        assert false;
      }
      assert l[..i] == log[..i];
    }
    assert multiset(l) == multiset(log) + multiset(events);
    forall c | !IsUnityEvent(c)
      ensures Count(l, c) == Count(log, c)
    {
      assert c !in events;
    }
  }

  /** The number of occurrences in a concatenation is the sum of both. */
  lemma CountAppend(log: seq<XrEvent>, more: seq<XrEvent>, e: XrEvent)
    ensures Count(log + more, e) == Count(log, e) + Count(more, e)
  {
    assert multiset(log + more) == multiset(log) + multiset(more);
  }

  /**
   * The binding's side of the browser: whether `InitWebXR` was called, and
   * the log of calls made and Unity events raised.
   */
  class Bridge {
    var initialized: bool
    var log: seq<XrEvent>

    /** `InitWebXR` was called once exactly when the flag is set, and before any call that needs it. */
    ghost predicate Valid()
      reads this
    {
      Count(log, NativeInit) == (if initialized then 1 else 0) && InitFirst(log)
    }

    constructor()
      ensures Valid() && !initialized && log == []
    {
      initialized := false;
      log := [];
    }

    /** `Initialize`: registers the arrays with the browser on the first call only. */
    method Initialize()
      requires Valid()
      modifies this
      ensures Valid() && initialized
      ensures log == old(log) + InitCall(old(initialized))
    {
      if initialized {
        return;
      }
      AppendCall(log, NativeInit);
      log := log + [NativeInit];
      initialized := true;
    }

    /** A browser call other than `InitWebXR`; one that uses the arrays only once they are registered. */
    method Call(e: XrEvent)
      requires Valid() && !IsUnityEvent(e) && e != NativeInit
      requires NeedsInit(e) ==> initialized
      modifies this
      ensures Valid() && initialized == old(initialized)
      ensures log == old(log) + [e]
    {
      AppendCall(log, e);
      log := log + [e];
    }

    /** Unity events raised, in order. */
    method Raise(events: seq<XrEvent>)
      requires Valid()
      requires forall e :: e in events ==> IsUnityEvent(e)
      modifies this
      ensures Valid() && initialized == old(initialized)
      ensures log == old(log) + events
    {
      AppendUnity(log, events);
      log := log + events;
    }
  }
}
