/**
 * The image protocol the spectator-view server layers on WebSocket
 * binary frames: a 7-byte header (three magic bytes, then the image
 * length in little-endian order) followed by the image cut into chunks of
 * at most 60000 bytes, each chunk in a frame of its own.
 */
module SpectatorImage {
  import opened Bytes
  import opened WebSocketFrame

  const MAGIC: seq<byte> := [0x12, 0x06, 0x92]
  const MAX_PACKET_SIZE: nat := 60000

  /**
   * The header frame payload announcing an image of `len` bytes: seven
   * bytes after the magic, with a top length byte below 128, so a reader
   * of a signed 32-bit length gets a non-negative one.
   */
  function ImageHeader(len: nat): (h: seq<byte>)
    requires len <= INT32_MAX
    ensures |h| == 7 && h[..3] == MAGIC && h[6] < 128
  {
    TopLengthByte(len);
    MAGIC + [LengthByte(len, 0), LengthByte(len, 8), LengthByte(len, 16), LengthByte(len, 24)]
  }

  /** The top byte of a non-negative 32-bit length is below 128. */
  lemma TopLengthByte(len: nat)
    requires len <= INT32_MAX
    ensures LengthByte(len, 24) < 128
  {
    ShiftBytes(len);
    var q := len / 0x100_0000;
    assert q * 0x100_0000 <= len < 128 * 0x100_0000;
    assert q % 256 == q;
  }

  /** The header holds the magic and the 32-bit length, least significant byte first. */
  lemma ImageHeaderLayout(len: nat)
    requires len <= INT32_MAX
    ensures var h := ImageHeader(len);
      && |h| == 7 && h[..3] == MAGIC
      && h[3] as int + 256 * (h[4] as int) + 0x1_0000 * (h[5] as int) + 0x100_0000 * (h[6] as int) == len
  {
    Pow256Values();
    var q1, q2, q3 := len / 0x100, len / 0x1_0000, len / 0x100_0000;
    DivideTwice(len, 0x100);
    DivideTwice(len, 0x1_0000);
    assert q2 == q1 / 0x100 && q3 == q2 / 0x100;
    assert q3 < 0x100;
    var h := ImageHeader(len);
    assert h[3] as int == len % 0x100 && h[4] as int == q1 % 0x100;
    assert h[5] as int == q2 % 0x100 && h[6] as int == q3;
  }

  lemma DivideTwice(x: nat, a: nat)
    requires a == 0x100 || a == 0x1_0000
    ensures x / (a * 0x100) == (x / a) / 0x100
  {
    var q := x / a;
    assert x == q * a + x % a;
    assert q == (q / 0x100) * 0x100 + q % 0x100;
    assert x == (q / 0x100) * (a * 0x100) + ((q % 0x100) * a + x % a);
  }

  /** The number of chunk frames, the integer ceiling of `len / 60000`. */
  function FrameCount(len: nat): (c: nat)
  {
    (len + MAX_PACKET_SIZE - 1) / MAX_PACKET_SIZE
  }

  /** The length of chunk `i`: 60000, except for the last chunk, which gets the rest. */
  function ChunkLength(len: nat, i: nat): int
    requires i < FrameCount(len)
  {
    if i == FrameCount(len) - 1 then len - i * MAX_PACKET_SIZE else MAX_PACKET_SIZE
  }

  /** Each chunk holds 1 to 60000 bytes and lies inside the image. */
  lemma ChunkBounds(len: nat, i: nat)
    requires i < FrameCount(len)
    ensures 1 <= ChunkLength(len, i) <= MAX_PACKET_SIZE
    ensures i * MAX_PACKET_SIZE + ChunkLength(len, i) <= len
    ensures i < FrameCount(len) - 1 ==> (i + 1) * MAX_PACKET_SIZE < len
  {
    var c := FrameCount(len);
    assert c * MAX_PACKET_SIZE <= len + MAX_PACKET_SIZE - 1 < c * MAX_PACKET_SIZE + MAX_PACKET_SIZE;
    assert i * MAX_PACKET_SIZE <= (c - 1) * MAX_PACKET_SIZE;
  }

  /** Chunk `i` of the image `png`. */
  function Chunk(png: seq<byte>, i: nat): (r: seq<byte>)
    requires i < FrameCount(|png|)
    ensures |r| == ChunkLength(|png|, i)
  {
    ChunkBounds(|png|, i);
    png[i * MAX_PACKET_SIZE..i * MAX_PACKET_SIZE + ChunkLength(|png|, i)]
  }

  /** The chunks of `png`, in the order the server sends them. */
  function Chunks(png: seq<byte>): (r: seq<seq<byte>>)
    ensures |r| == FrameCount(|png|)
  {
    seq(FrameCount(|png|), i requires 0 <= i < FrameCount(|png|) => Chunk(png, i))
  }

  /** The concatenation of a sequence of chunks. */
  function Concat(ss: seq<seq<byte>>): seq<byte>
  {
    if ss == [] then [] else Concat(ss[..|ss| - 1]) + ss[|ss| - 1]
  }

  /** Every chunk holds 1 to 60000 bytes. */
  lemma ChunkSizes(png: seq<byte>)
    ensures forall i :: 0 <= i < |Chunks(png)| ==> 1 <= |Chunks(png)[i]| <= MAX_PACKET_SIZE
  {
    forall i | 0 <= i < |Chunks(png)| ensures 1 <= |Chunks(png)[i]| <= MAX_PACKET_SIZE {
      ChunkBounds(|png|, i);
    }
  }

  /** A zero-length image is sent as the header alone. */
  lemma EmptyImageHasNoChunks(png: seq<byte>)
    ensures Chunks(png) == [] <==> png == []
  {
    if png != [] {
      assert FrameCount(|png|) >= 1;
    }
  }

  /** The first `k` chunks are the image up to byte `k * 60000`, or the whole image. */
  lemma {:induction false} ChunksPrefix(png: seq<byte>, k: nat)
    requires k <= FrameCount(|png|)
    ensures Concat(Chunks(png)[..k]) == png[..if k == FrameCount(|png|) then |png| else k * MAX_PACKET_SIZE]
  {
    if k > 0 {
      var cs := Chunks(png);
      assert cs[..k][..k - 1] == cs[..k - 1];
      ChunksPrefix(png, k - 1);
      ChunkBounds(|png|, k - 1);
      var start := (k - 1) * MAX_PACKET_SIZE;
      assert Concat(cs[..k]) == png[..start] + Chunk(png, k - 1);
    }
  }

  /** The chunks concatenate to the image. */
  lemma ChunksConcat(png: seq<byte>)
    ensures Concat(Chunks(png)) == png
  {
    ChunksPrefix(png, FrameCount(|png|));
    assert Chunks(png)[..FrameCount(|png|)] == Chunks(png);
  }

  /** The frames the server sends for `png`: the header frame, then one frame per chunk. */
  function ImageFrames(png: seq<byte>): (r: seq<seq<byte>>)
    requires |png| <= INT32_MAX
    ensures |r| == 1 + FrameCount(|png|)
  {
    [EncodeFrameAsWritten(ImageHeader(|png|))]
      + seq(FrameCount(|png|), i requires 0 <= i < FrameCount(|png|) => EncodeFrameAsWritten(Chunk(png, i)))
  }

  /**
   * No frame of the image stream is longer than 65535 bytes, so all of them
   * are the frames of section 5.2 of RFC 6455, whatever the shifts of the
   * 64-bit length form do.
   */
  lemma ImageFramesConform(png: seq<byte>)
    requires |png| <= INT32_MAX
    ensures ImageFrames(png)[0] == EncodeFrame(ImageHeader(|png|))
    ensures forall i :: 0 <= i < FrameCount(|png|) ==> ImageFrames(png)[i + 1] == EncodeFrame(Chunks(png)[i])
  {
    EncodersAgreeUpTo65535(ImageHeader(|png|));
    forall i | 0 <= i < FrameCount(|png|)
      ensures ImageFrames(png)[i + 1] == EncodeFrame(Chunks(png)[i])
    {
      ChunkBounds(|png|, i);
      EncodersAgreeUpTo65535(Chunk(png, i));
    }
  }

  /**
   * The send loop after rendering: the header frame, then the chunk frames
   * in order. `sent` lists the frames handed to the socket.
   */
  method SendImage(png: array<byte>) returns (sent: seq<seq<byte>>)
    requires png.Length <= INT32_MAX
    ensures sent == ImageFrames(png[..])
  {
    ghost var image := png[..];
    var header := NewImageHeader(png.Length);
    var frame := CreateFrameFromByte(header, 0, header.Length);
    assert header[0..header.Length] == header[..];
    sent := [frame[..]];
    var nbFrame := (png.Length + MAX_PACKET_SIZE - 1) / MAX_PACKET_SIZE;
    var i := 0;
    while i < nbFrame
      invariant 0 <= i <= nbFrame == FrameCount(png.Length)
      invariant |sent| == i + 1 && sent[0] == EncodeFrameAsWritten(ImageHeader(png.Length))
      invariant png[..] == image
      invariant forall k :: 0 <= k < i ==> sent[k + 1] == EncodeFrameAsWritten(Chunk(image, k))
    {
      var encoded := SendChunk(png, i, nbFrame);
      sent := sent + [encoded];
      i := i + 1;
    }
    ImageFramesAre(image, sent);
  }

  /** One pass of the send loop: chunk `i` of `png`, framed. */
  method SendChunk(png: array<byte>, i: nat, nbFrame: nat) returns (frame: seq<byte>)
    requires png.Length <= INT32_MAX && nbFrame == FrameCount(png.Length) && i < nbFrame
    ensures frame == EncodeFrameAsWritten(Chunk(png[..], i))
  {
    ChunkBounds(png.Length, i);
    var n := if i == nbFrame - 1 then png.Length - i * MAX_PACKET_SIZE else MAX_PACKET_SIZE;
    var encoded := CreateFrameFromByte(png, i * MAX_PACKET_SIZE, n);
    assert png[i * MAX_PACKET_SIZE..i * MAX_PACKET_SIZE + n] == Chunk(png[..], i);
    frame := encoded[..];
  }

  /** The 7-byte header array. */
  method NewImageHeader(len: nat) returns (header: array<byte>)
    requires len <= INT32_MAX
    ensures fresh(header) && header[..] == ImageHeader(len)
  {
    header := new byte[7];
    header[0], header[1], header[2] := 0x12, 0x06, 0x92;
    header[3], header[4] := LengthByte(len, 0), LengthByte(len, 8);
    header[5], header[6] := LengthByte(len, 16), LengthByte(len, 24);
  }

  /** The frames of `png` are the header frame followed by the chunk frames, one per chunk. */
  lemma ImageFramesAre(png: seq<byte>, sent: seq<seq<byte>>)
    requires |png| <= INT32_MAX
    requires |sent| == FrameCount(|png|) + 1 && sent[0] == EncodeFrameAsWritten(ImageHeader(|png|))
    requires forall k :: 0 <= k < FrameCount(|png|) ==> sent[k + 1] == EncodeFrameAsWritten(Chunk(png, k))
    ensures sent == ImageFrames(png)
  {
    var f := ImageFrames(png);
    forall k | 0 <= k < |sent| ensures sent[k] == f[k] {
      if k > 0 {
        assert sent[(k - 1) + 1] == EncodeFrameAsWritten(Chunk(png, k - 1));
      }
    }
  }
}
