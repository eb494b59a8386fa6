/**
 * The spectator-view WebXR client: it reassembles the images the server
 * streams (a 7-byte header, then chunks copied into a buffer in place),
 * keeps a ring of the last four frame intervals, and leaves follow mode
 * when the user moves the camera.
 */
module SpectatorClient {
  import opened Wrappers
  import opened Bytes
  import opened SpectatorImage
  import ArrayCopy

  /** A message is an image header iff it is 7 bytes long and starts with the magic. */
  predicate IsImageHeader(msg: seq<byte>)
  {
    |msg| == 7 && msg[0] == 0x12 && msg[1] == 0x06 && msg[2] == 0x92
  }

  /**
   * `bytes[3] + (bytes[4] << 8) + (bytes[5] << 16) + (bytes[6] << 24)` in
   * C# `int` arithmetic: a top byte of 128 or more gives a negative length.
   */
  function HeaderLength(msg: seq<byte>): (r: int)
    requires |msg| == 7
    ensures IsInt32(r)
  {
    WrapInt32(msg[3] as int + ShiftLeftInt32(msg[4], 8) + ShiftLeftInt32(msg[5], 16) + ShiftLeftInt32(msg[6], 24))
  }

  /** The client reads back every length the server can announce. */
  lemma HeaderLengthInverts(len: nat)
    requires len <= INT32_MAX
    ensures IsImageHeader(ImageHeader(len))
    ensures HeaderLength(ImageHeader(len)) == len
  {
    ImageHeaderLayout(len);
    Pow256Values();
    var h := ImageHeader(len);
    assert h[6] < 128;
    assert ShiftLeftInt32(h[4], 8) == (h[4] as int) * 0x100;
    assert ShiftLeftInt32(h[5], 16) == (h[5] as int) * 0x1_0000;
    assert ShiftLeftInt32(h[6], 24) == (h[6] as int) * 0x100_0000;
  }

  /** A header whose top length byte has its high bit set announces a negative length. */
  lemma HeaderLengthNegative(msg: seq<byte>)
    requires |msg| == 7 && msg[6] >= 128
    ensures HeaderLength(msg) < 0
  {
    Pow256Values();
    var low := msg[3] as int + ShiftLeftInt32(msg[4], 8) + ShiftLeftInt32(msg[5], 16);
    assert 0 <= low < 0x100_0000;
    assert ShiftLeftInt32(msg[6], 24) == (msg[6] as int) * 0x100_0000 - 0x1_0000_0000;
  }

  /**
   * The reassembly state: the buffer being filled (`_tempPng`), the write
   * index (`_tempPngId`), the last published image (`_png`) and whether it
   * is new (`_tmpPngAvailable`).
   */
  datatype Reassembly = Reassembly(buffer: Option<seq<byte>>, index: nat, published: Option<seq<byte>>, available: bool)

  /** The write index never passes the end of the buffer. */
  predicate ValidReassembly(s: Reassembly)
  {
    s.buffer.Some? ==> s.index <= |s.buffer.value|
  }

  function Zeros(n: nat): (r: seq<byte>)
    ensures |r| == n
  {
    seq(n, _ => 0)
  }

  /**
   * `OnMessage`. A header allocates a zeroed buffer of the announced length
   * and rewinds the index; a negative length makes the allocation throw and
   * nothing changes. Any other message is copied at the index, which then
   * advances; the buffer becomes the published image once the index reaches
   * its end. A copy with no buffer, or one past its end, throws and changes
   * nothing.
   */
  function Receive(s: Reassembly, msg: seq<byte>): (r: Reassembly)
    ensures ValidReassembly(s) ==> ValidReassembly(r)
    ensures r.published != s.published ==> r.buffer.Some? && r.published == r.buffer && r.index == |r.buffer.value|
    ensures IsImageHeader(msg) ==> r.published == s.published && r.available == s.available
  {
    if IsImageHeader(msg) then
      var n := HeaderLength(msg);
      if n < 0 then s
      else s.(buffer := Some(Zeros(n)), index := 0)
    else match s.buffer
      case None => s
      case Some(buf) =>
        if s.index + |msg| > |buf| then s
        else
          var nb := buf[..s.index] + msg + buf[s.index + |msg|..];
          var ni := s.index + |msg|;
          if ni >= |nb| then Reassembly(Some(nb), ni, Some(nb), true)
          else s.(buffer := Some(nb), index := ni)
  }

  /** The messages received in order. */
  function ReceiveAll(s: Reassembly, msgs: seq<seq<byte>>): Reassembly
    decreases |msgs|
  {
    if msgs == [] then s else ReceiveAll(Receive(s, msgs[0]), msgs[1..])
  }

  /** Receiving keeps the write index inside the buffer. */
  lemma ReceiveValid(s: Reassembly, msg: seq<byte>)
    requires ValidReassembly(s)
    ensures ValidReassembly(Receive(s, msg))
  {
  }

  /**
   * A message changes the published image only by publishing a buffer that
   * is filled up to its end, and a message that does not fit changes nothing.
   */
  lemma ReceivePublishesOnlyFullBuffers(s: Reassembly, msg: seq<byte>)
    requires ValidReassembly(s)
    ensures var r := Receive(s, msg);
      (r.published != s.published || r.available != s.available) ==>
        r.available && r.buffer.Some? && r.published == r.buffer && r.index == |r.buffer.value|
    ensures !IsImageHeader(msg) && (s.buffer.None? || s.index + |msg| > |s.buffer.value|) ==> Receive(s, msg) == s
  {
  }

  /** The state after the first `filled` bytes of `png` have arrived. */
  function Partial(png: seq<byte>, filled: nat, published: Option<seq<byte>>, available: bool): Reassembly
    requires filled <= |png|
  {
    Reassembly(Some(png[..filled] + Zeros(|png| - filled)), filled, published, available)
  }

  /** One chunk lands at the index; the last one publishes the image. */
  lemma ReceiveChunk(png: seq<byte>, start: nat, len: nat, published: Option<seq<byte>>, available: bool)
    requires start + len <= |png|
    requires !IsImageHeader(png[start..start + len])
    ensures Receive(Partial(png, start, published, available), png[start..start + len])
      == if start + len == |png| then Partial(png, |png|, Some(png), true)
         else Partial(png, start + len, published, available)
  {
    var buf := png[..start] + Zeros(|png| - start);
    var msg := png[start..start + len];
    var nb := buf[..start] + msg + buf[start + len..];
    assert buf[..start] == png[..start];
    assert buf[start + len..] == Zeros(|png| - start - len);
    assert png[..start] + msg == png[..start + len];
    assert nb == png[..start + len] + Zeros(|png| - (start + len));
    if start + len == |png| {
      assert png[..|png|] == png;
      assert nb == png;
    }
  }

  /** The chunks from chunk `k` on complete the image. */
  lemma {:induction false} ReceiveChunksFrom(png: seq<byte>, k: nat, published: Option<seq<byte>>, available: bool)
    requires 1 <= |png|
    requires k < FrameCount(|png|)
    requires forall i :: 0 <= i < |Chunks(png)| ==> !IsImageHeader(Chunks(png)[i])
    ensures ReceiveAll(Partial(png, k * MAX_PACKET_SIZE, published, available), Chunks(png)[k..])
      == Partial(png, |png|, Some(png), true)
    decreases FrameCount(|png|) - k
  {
    ChunkBounds(|png|, k);
    var start := k * MAX_PACKET_SIZE;
    var len := ChunkLength(|png|, k);
    var cs := Chunks(png)[k..];
    assert cs[0] == Chunk(png, k) == png[start..start + len];
    ReceiveChunk(png, start, len, published, available);
    if k == FrameCount(|png|) - 1 {
      assert cs[1..] == [];
    } else {
      assert start + len == (k + 1) * MAX_PACKET_SIZE;
      assert cs[1..] == Chunks(png)[k + 1..];
      ReceiveChunksFrom(png, k + 1, published, available);
    }
  }

  /**
   * The server's header followed by its chunks leaves the image published,
   * whatever state came before, as long as no chunk looks like a header.
   */
  lemma Reassembles(s: Reassembly, png: seq<byte>)
    requires 1 <= |png| <= INT32_MAX
    requires forall i :: 0 <= i < |Chunks(png)| ==> !IsImageHeader(Chunks(png)[i])
    ensures var r := ReceiveAll(s, [ImageHeader(|png|)] + Chunks(png));
      r.published == Some(png) && r.available
  {
    var msgs := [ImageHeader(|png|)] + Chunks(png);
    assert msgs[1..] == Chunks(png)[0..];
    assert ReceiveAll(s, msgs) == ReceiveAll(Receive(s, msgs[0]), Chunks(png)[0..]);
    assert Receive(s, ImageHeader(|png|)) == Partial(png, 0, s.published, s.available) by {
      ReceiveHeader(s, png);
    }
    ReceiveChunksFrom(png, 0, s.published, s.available);
  }

  /** The header of `png` opens an empty buffer of its length. */
  lemma ReceiveHeader(s: Reassembly, png: seq<byte>)
    requires |png| <= INT32_MAX
    ensures Receive(s, ImageHeader(|png|)) == Partial(png, 0, s.published, s.available)
  {
    HeaderLengthInverts(|png|);
    assert png[..0] + Zeros(|png|) == Zeros(|png|);
  }

  /** A zero-length image allocates an empty buffer and publishes nothing. */
  lemma EmptyImageNotPublished(s: Reassembly)
    ensures var r := ReceiveAll(s, [ImageHeader(0)] + Chunks([]));
      r.published == s.published && r.available == s.available && r.buffer == Some([])
  {
    HeaderLengthInverts(0);
    assert Chunks([]) == [];
    assert ([ImageHeader(0)] + Chunks([]))[1..] == [];
  }

  /** A camera move handed to Unity's `Transform`. */
  datatype CameraMove = Translation(x: real, y: real, z: real) | Rotation(x: real, y: real, z: real)

  class SpectatorViewClient {
    var tempPng: array?<byte>
    var tempPngId: int
    var png: array?<byte>
    var tmpPngAvailable: bool
    var followMode: bool
    var iDeltaT: int
    const deltaT: array<real>
    var fpsStartT: real
    /** The moves applied to the main camera, oldest first. */
    var cameraMoves: seq<CameraMove>

    ghost predicate Valid()
      reads this, tempPng
    {
      && deltaT.Length == 4
      && 0 <= iDeltaT < deltaT.Length
      && 0 <= tempPngId
      && (tempPng != null ==> tempPngId <= tempPng.Length)
      && (png != null && png == tempPng ==> tempPngId == tempPng.Length)
    }

    /** The reassembly state the fields hold. */
    ghost function Abs(): (r: Reassembly)
      requires Valid()
      reads this, tempPng, png
      ensures ValidReassembly(r)
    {
      Reassembly(if tempPng == null then None else Some(tempPng[..]), tempPngId,
                 if png == null then None else Some(png[..]), tmpPngAvailable)
    }

    constructor ()
      ensures Valid() && fresh(deltaT)
      ensures Abs() == Reassembly(None, 0, None, false)
      ensures followMode && iDeltaT == 0 && cameraMoves == []
      ensures deltaT[..] == [0.0, 0.0, 0.0, 0.0]
    {
      tempPng, tempPngId, png, tmpPngAvailable := null, 0, null, false;
      followMode, iDeltaT, fpsStartT, cameraMoves := true, 0, 0.0, [];
      deltaT := new real[4](_ => 0.0);
    }

    /** The `OnMessage` handler, exceptions caught as the source catches them. */
    method OnMessage(bytes: seq<byte>)
      requires Valid()
      modifies this, tempPng
      ensures Valid()
      ensures Abs() == Receive(old(Abs()), bytes)
      ensures followMode == old(followMode) && iDeltaT == old(iDeltaT)
      ensures fpsStartT == old(fpsStartT) && cameraMoves == old(cameraMoves)
    {
      if |bytes| == 7 && bytes[0] == 0x12 && bytes[1] == 0x06 && bytes[2] == 0x92 {
        var imageLength := HeaderLength(bytes);
        if imageLength < 0 {
          return;
        }
        tempPng := new byte[imageLength](_ => 0);
        tempPngId := 0;
        assert tempPng[..] == Zeros(imageLength);
      } else {
        if tempPng == null || tempPngId + |bytes| > tempPng.Length {
          return;
        }
        ghost var before := png;
        ArrayCopy.CopySeq(bytes, tempPng, tempPngId);
        tempPngId := tempPngId + |bytes|;
        if tempPngId >= tempPng.Length {
          png := tempPng;
          tmpPngAvailable := true;
        }
      }
    }

    /**
     * The first block of `OnGUI`: a new image is shown, and the interval
     * since the previous one goes into the four-slot ring at `_iDeltaT`.
     * `now` is `Time.time`.
     */
    method PresentImage(now: real)
      requires Valid()
      modifies this, deltaT
      ensures Valid()
      ensures tempPng == old(tempPng) && tempPngId == old(tempPngId) && png == old(png)
      ensures followMode == old(followMode) && cameraMoves == old(cameraMoves)
      ensures old(png != null && tmpPngAvailable) ==>
        && !tmpPngAvailable
        && iDeltaT == (old(iDeltaT) + 1) % 4
        && deltaT[..] == old(deltaT[..])[old(iDeltaT) := now - old(fpsStartT)]
        && fpsStartT == now
      ensures !old(png != null && tmpPngAvailable) ==>
        tmpPngAvailable == old(tmpPngAvailable) && iDeltaT == old(iDeltaT)
        && deltaT[..] == old(deltaT[..]) && fpsStartT == old(fpsStartT)
    {
      if png != null && tmpPngAvailable {
        tmpPngAvailable := false;
        deltaT[iDeltaT] := now - fpsStartT;
        iDeltaT := iDeltaT + 1;
        if iDeltaT >= deltaT.Length {
          iDeltaT := 0;
        }
        fpsStartT := now;
      }
    }

    /** `Translate`: a non-zero move leaves follow mode; a zero move changes nothing. */
    method Translate(x: real, y: real, z: real)
      requires Valid()
      modifies this
      ensures Valid() && Abs() == old(Abs())
      ensures iDeltaT == old(iDeltaT) && fpsStartT == old(fpsStartT)
      ensures x != 0.0 || y != 0.0 || z != 0.0 ==>
        !followMode && cameraMoves == old(cameraMoves) + [Translation(x, y, z)]
      ensures x == 0.0 && y == 0.0 && z == 0.0 ==>
        followMode == old(followMode) && cameraMoves == old(cameraMoves)
    {
      if x != 0.0 || y != 0.0 || z != 0.0 {
        followMode := false;
        cameraMoves := cameraMoves + [Translation(x, y, z)];
      }
    }

    /** `Rotate`: a non-zero turn, applied as `(-rx, ry, 0)`, leaves follow mode. */
    method Rotate(rx: real, ry: real)
      requires Valid()
      modifies this
      ensures Valid() && Abs() == old(Abs())
      ensures iDeltaT == old(iDeltaT) && fpsStartT == old(fpsStartT)
      ensures rx != 0.0 || ry != 0.0 ==>
        !followMode && cameraMoves == old(cameraMoves) + [Rotation(-rx, ry, 0.0)]
      ensures rx == 0.0 && ry == 0.0 ==>
        followMode == old(followMode) && cameraMoves == old(cameraMoves)
    {
      if rx != 0.0 || ry != 0.0 {
        followMode := false;
        cameraMoves := cameraMoves + [Rotation(-rx, ry, 0.0)];
      }
    }

    /** The "Start follow" button of `OnGUI`. */
    method StartFollow()
      requires Valid()
      modifies this
      ensures Valid() && Abs() == old(Abs()) && followMode
      ensures iDeltaT == old(iDeltaT) && cameraMoves == old(cameraMoves)
    {
      followMode := true;
    }
  }
}
