/**
 * WebSocket framing of the spectator-view server: the encoder of the
 * unmasked binary frames it sends (section 5.2 of RFC 6455) and the decoder
 * of the masked frames it receives (section 5.3 of RFC 6455).
 *
 * Two definitions exist for each direction. `EncodeFrameAsWritten` and
 * `DecodeFrame` follow the C# code, including its 32-bit shift masking and
 * its signed 16-bit length read. `EncodeFrame` and `DecodeFrameCorrected`
 * are what the RFC asks for; lemmas below show where the two agree and
 * exhibit where they do not.
 */
module WebSocketFrame {
  import opened Wrappers
  import opened Bytes
  import Str = Text
  import ArrayCopy

  /** The opcodes the server names. */
  datatype Opcode = Fragment | Text | Binary | CloseConnection | Ping | Pong

  function OpcodeValue(op: Opcode): (r: byte)
    ensures r < 16
  {
    match op
    case Fragment => 0
    case Text => 1
    case Binary => 2
    case CloseConnection => 8
    case Ping => 9
    case Pong => 10
  }

  /** First byte of every frame the server sends: FIN bit and opcode Binary. */
  const FIN_BINARY: byte := 0x82

  /**
   * The receive loop stops streaming when the first byte of a received
   * frame has the bit of `CloseConnection` (8) set.
   */
  predicate StopsStreaming(firstByte: byte)
  {
    (firstByte / 8) % 2 == 1
  }

  /**
   * For a final frame of each named opcode, streaming stops exactly for
   * Close, Ping and Pong: the test is a bit test, not an equality.
   */
  lemma StopsStreamingOpcodes(op: Opcode)
    ensures StopsStreaming(0x80 + OpcodeValue(op)) <==> op in {CloseConnection, Ping, Pong}
    ensures StopsStreaming(OpcodeValue(op)) <==> op in {CloseConnection, Ping, Pong}
  {
  }

  // ---------------------------------------------------------------- encoding

  /** Header bytes in front of a payload of `n` bytes. */
  function HeaderSize(n: nat): nat
  {
    if n < 126 then 2 else if n <= 65535 then 4 else 10
  }

  /** `(byte)((length >> shift) & 255)` for a C# `int` length. */
  function LengthByte(length: nat, shift: nat): byte
    requires length <= INT32_MAX && shift % 8 == 0
  {
    LowByte(ShiftRightInt32(length, shift))
  }

  /** The length bytes `EncodeFrameAsWritten` writes for a payload of `n` bytes. */
  function FrameLengthBytes(n: nat): seq<byte>
    requires n <= INT32_MAX
  {
    if n < 126 then [n]
    else if n <= 65535 then [126, LengthByte(n, 8), LengthByte(n, 0)]
    else [127, LengthByte(n, 56), LengthByte(n, 48), LengthByte(n, 40), LengthByte(n, 32),
          LengthByte(n, 24), LengthByte(n, 16), LengthByte(n, 8), LengthByte(n, 0)]
  }

  /** The frame `CreateFrameFromByte` builds around `p`, as written. */
  function EncodeFrameAsWritten(p: seq<byte>): (f: seq<byte>)
    requires |p| <= INT32_MAX
    ensures |f| == HeaderSize(|p|) + |p| && f[HeaderSize(|p|)..] == p
    ensures f[0] == FIN_BINARY && f[1] < 128
  {
    [FIN_BINARY] + FrameLengthBytes(|p|) + p
  }

  /** The length bytes of section 5.2 of RFC 6455: 7 bits, or 126 and 16 bits, or 127 and 64 bits. */
  function RfcLengthBytes(n: nat): seq<byte>
    requires n <= INT64_MAX
  {
    if n < 126 then [n]
    else if n <= 65535 then [126] + ToBigEndian(n, 2)
    else [127] + ToBigEndian(n, 8)
  }

  /** The final unmasked binary frame section 5.2 of RFC 6455 gives `p`. */
  function EncodeFrame(p: seq<byte>): (f: seq<byte>)
    requires |p| <= INT64_MAX
    ensures |f| == HeaderSize(|p|) + |p| && f[HeaderSize(|p|)..] == p
    ensures f[0] == FIN_BINARY && f[1] < 128
  {
    [FIN_BINARY] + RfcLengthBytes(|p|) + p
  }

  lemma ShiftBytes(n: nat)
    requires n <= INT32_MAX
    ensures LengthByte(n, 0) == n % 256
    ensures LengthByte(n, 8) == (n / 256) % 256
    ensures LengthByte(n, 16) == (n / 0x1_0000) % 256
    ensures LengthByte(n, 24) == (n / 0x100_0000) % 256
    ensures LengthByte(n, 32) == LengthByte(n, 0) && LengthByte(n, 40) == LengthByte(n, 8)
    ensures LengthByte(n, 48) == LengthByte(n, 16) && LengthByte(n, 56) == LengthByte(n, 24)
  {
    assert 32 % 32 == 0 && 40 % 32 == 8 && 48 % 32 == 16 && 56 % 32 == 24;
  }

  lemma ToBigEndian2(n: nat)
    ensures ToBigEndian(n, 2) == [(n / 256) % 256, n % 256]
  {
  }

  lemma ToBigEndian4(n: nat)
    ensures ToBigEndian(n, 4) == [(n / 0x100_0000) % 256, (n / 0x1_0000) % 256, (n / 256) % 256, n % 256]
  {
    assert n / 256 / 256 == n / 0x1_0000;
    assert n / 0x1_0000 / 256 == n / 0x100_0000;
    assert ToBigEndian(n / 0x1_0000, 2) == [(n / 0x100_0000) % 256, (n / 0x1_0000) % 256];
    assert ToBigEndian(n / 256, 3) == ToBigEndian(n / 0x1_0000, 2) + [(n / 256) % 256];
  }

  /**
   * The layout of every frame `CreateFrameFromByte` builds: first byte
   * 0x82, mask bit clear, the payload unchanged after a header of 2, 4 or
   * 10 bytes, and the length in the form the payload size selects. In the
   * 64-bit form the low four bytes carry the length and, because C# masks
   * the shift count to five bits, the high four bytes repeat them.
   */
  lemma {:induction false} EncodeFrameAsWrittenLayout(p: seq<byte>)
    requires |p| <= INT32_MAX
    ensures var f := EncodeFrameAsWritten(p);
      && |f| == HeaderSize(|p|) + |p|
      && f[0] == FIN_BINARY && f[1] < 128
      && f[HeaderSize(|p|)..] == p
      && (|p| < 126 ==> f[1] == |p|)
      && (126 <= |p| <= 65535 ==> f[1] == 126 && BigEndian(f[2..4]) == |p|)
      && (|p| > 65535 ==> f[1] == 127 && BigEndian(f[6..10]) == |p| && f[2..6] == f[6..10])
  {
    var f := EncodeFrameAsWritten(p);
    var n := |p|;
    ShiftBytes(n);
    if 126 <= n <= 65535 {
      assert f[2..4] == ToBigEndian(n, 2);
      BigEndianRoundTrip(n, 2);
    } else if n > 65535 {
      ToBigEndian4(n);
      assert f[6..10] == ToBigEndian(n, 4);
      BigEndianRoundTrip(n, 4);
    }
  }

  /** Up to 65535 payload bytes the code builds exactly the RFC frame. */
  lemma EncodersAgreeUpTo65535(p: seq<byte>)
    requires |p| <= 65535
    ensures EncodeFrameAsWritten(p) == EncodeFrame(p)
  {
    ShiftBytes(|p|);
    ToBigEndian2(|p|);
  }

  /**
   * A reader of server-to-client frames (unmasked, section 5.2 of RFC 6455):
   * the payload the 7-, 16- or 64-bit length announces, if the frame holds it.
   */
  function ReadServerFrame(f: seq<byte>): (r: Option<seq<byte>>)
  {
    if |f| < 2 then None
    else
      var selector := f[1] % 128;
      var headerSize := if selector < 126 then 2 else if selector == 126 then 4 else 10;
      if |f| < headerSize then None
      else
        var length := if selector < 126 then selector else BigEndian(f[2..headerSize]);
        if headerSize + length == |f| then Some(f[headerSize..]) else None
  }

  /** Reading a frame whose header announces exactly the bytes after it. */
  lemma ReadKnownFrame(f: seq<byte>, headerSize: nat, p: seq<byte>)
    requires |f| >= 2 && headerSize == (if f[1] % 128 < 126 then 2 else if f[1] % 128 == 126 then 4 else 10)
    requires |f| == headerSize + |p| && f[headerSize..] == p
    requires (if f[1] % 128 < 126 then f[1] % 128 else BigEndian(f[2..headerSize])) == |p|
    ensures ReadServerFrame(f) == Some(p)
  {
  }

  /** The RFC encoder is inverted by the RFC reader, for every payload. */
  lemma EncodeFrameRoundTrip(p: seq<byte>)
    requires |p| <= INT64_MAX
    ensures ReadServerFrame(EncodeFrame(p)) == Some(p)
  {
    var f := EncodeFrame(p);
    var n := |p|;
    var lb := RfcLengthBytes(n);
    FramePieces(lb, p);
    Pow256Values();
    if n < 126 {
      ReadKnownFrame(f, 2, p);
    } else if n <= 65535 {
      assert lb[1..] == ToBigEndian(n, 2);
      BigEndianRoundTrip(n, 2);
      ReadKnownFrame(f, 4, p);
    } else {
      assert lb[1..] == ToBigEndian(n, 8);
      BigEndianRoundTrip(n, 8);
      ReadKnownFrame(f, 10, p);
    }
  }

  /** Where the second byte, the extended length and the payload sit in a frame. */
  lemma FramePieces(lb: seq<byte>, p: seq<byte>)
    requires |lb| >= 1
    ensures var f := [FIN_BINARY] + lb + p;
      && |f| == 1 + |lb| + |p| && f[1] == lb[0]
      && f[2..1 + |lb|] == lb[1..] && f[1 + |lb|..] == p
  {
  }

  /** The frames the code builds are read back correctly up to 65535 bytes. */
  lemma EncodeFrameAsWrittenRoundTrip(p: seq<byte>)
    requires |p| <= 65535
    ensures ReadServerFrame(EncodeFrameAsWritten(p)) == Some(p)
  {
    EncodersAgreeUpTo65535(p);
    EncodeFrameRoundTrip(p);
  }

  /**
   * Above 65535 bytes the 64-bit length the code writes is
   * `length * 2^32 + length`, so no RFC reader gets the payload back.
   */
  lemma {:induction false} EncodeFrameAsWrittenLongMisread(p: seq<byte>)
    requires 65535 < |p| <= INT32_MAX
    ensures BigEndian(EncodeFrameAsWritten(p)[2..10]) == |p| * 0x1_0000_0000 + |p|
    ensures ReadServerFrame(EncodeFrameAsWritten(p)) == None
  {
    var f := EncodeFrameAsWritten(p);
    var n := |p|;
    EncodeFrameAsWrittenLayout(p);
    BigEndianSplit(f[2..10], 4);
    assert f[2..10][..4] == f[2..6] && f[2..10][4..] == f[6..10];
  }

  // ---------------------------------------------------------------- decoding

  /** The exceptions `ParsePayloadFromFrame` can end in. */
  datatype FrameError =
    | IndexOutOfRange        // a header or key byte beyond the buffer
    | DataLongerThanBuffer   // the explicit length check
    | Overflow               // `new byte[payloadLength]` with no valid size

  /** Section 5.3 of RFC 6455: byte `i` is combined with key byte `i mod 4`. */
  function Unmask(data: seq<byte>, key: seq<byte>): (r: seq<byte>)
    requires |key| == 4
    ensures |r| == |data|
    ensures forall i :: 0 <= i < |data| ==> r[i] == Xor(data[i], key[i % 4])
  {
    seq(|data|, i requires 0 <= i < |data| => Xor(data[i], key[i % 4]))
  }

  /** Masking is its own inverse. */
  lemma UnmaskInvolution(data: seq<byte>, key: seq<byte>)
    requires |key| == 4
    ensures Unmask(Unmask(data, key), key) == data
  {
    forall i | 0 <= i < |data| ensures Unmask(Unmask(data, key), key)[i] == data[i] {
      XorInvolution(data[i], key[i % 4]);
    }
  }

  /** The header bytes the decoder reads are inside the buffer. */
  predicate HeaderReadable(buf: seq<byte>)
  {
    |buf| >= 2 && (buf[1] % 128 == 126 ==> |buf| >= 4) && (buf[1] % 128 == 127 ==> |buf| >= 10)
  }

  /** Where the masking key starts: 2, 4 or 10. */
  function KeyStart(buf: seq<byte>): (r: nat)
    requires HeaderReadable(buf)
    ensures r == 2 || r == 4 || r == 10
  {
    var selector := buf[1] % 128;
    if selector < 126 then 2 else if selector == 126 then 4 else 10
  }

  /**
   * The payload length as the decoder reads it: the selector itself, or
   * `BitConverter.ToInt16`/`ToInt64` over the reversed length bytes, i.e. a
   * big-endian read that is signed unless `unsigned16` asks for the
   * unsigned 16-bit read of the RFC.
   */
  function DeclaredLength(buf: seq<byte>, unsigned16: bool): int
    requires HeaderReadable(buf)
  {
    var selector := buf[1] % 128;
    Pow256Values();
    if selector < 126 then selector
    else if selector == 126 then
      (if unsigned16 then BigEndian(buf[2..4]) else Int16(BigEndian(buf[2..4])))
    else Int64(BigEndian(buf[2..10]))
  }

  /**
   * The decoder, with the 16-bit read chosen by `unsigned16`. A short
   * header is an index error; a payload is the declared number of bytes
   * after the key, and masking it again gives back the bytes on the wire.
   */
  function Decode(buf: seq<byte>, unsigned16: bool): (r: Result<seq<byte>, FrameError>)
    ensures !HeaderReadable(buf) ==> r == Err(IndexOutOfRange)
    ensures r.Ok? ==> HeaderReadable(buf) && |r.value| == DeclaredLength(buf, unsigned16)
                      && KeyStart(buf) + 4 + |r.value| <= |buf|
    ensures r.Ok? ==> var ks := KeyStart(buf);
      Unmask(r.value, buf[ks..ks + 4]) == buf[ks + 4..ks + 4 + |r.value|]
  {
    if !HeaderReadable(buf) then Err(IndexOutOfRange)
    else
      var keyStart := KeyStart(buf);
      var length := DeclaredLength(buf, unsigned16);
      var total := WrapInt64(length + keyStart + 4);
      if total > |buf| then Err(DataLongerThanBuffer)
      else if keyStart + 4 > |buf| then Err(IndexOutOfRange)
      else if length < 0 || length > INT32_MAX then Err(Overflow)
      else
        var wire, key := buf[keyStart + 4..keyStart + 4 + length], buf[keyStart..keyStart + 4];
        UnmaskInvolution(wire, key);
        Ok(Unmask(wire, key))
  }

  /**
   * `ParsePayloadFromFrame` as written: because of the signed 16-bit read,
   * a payload announced in the 16-bit form is shorter than 32768 bytes.
   */
  function DecodeFrame(buf: seq<byte>): (r: Result<seq<byte>, FrameError>)
    ensures r.Ok? ==> |buf| >= 2 && |r.value| <= |buf|
    ensures r.Ok? && buf[1] % 128 == 126 ==> |r.value| < 0x8000
  {
    Decode(buf, false)
  }

  /** The decoder with the unsigned 16-bit length of section 5.2 of RFC 6455. */
  function DecodeFrameCorrected(buf: seq<byte>): Result<seq<byte>, FrameError>
  {
    Decode(buf, true)
  }

  /**
   * Decoding succeeds exactly when the header is inside the buffer, the
   * declared length is not negative and key plus payload fit in the buffer
   * (which holds at most `int.MaxValue` bytes, as a C# array does); the
   * payload then has the declared length and is the unmasked data.
   */
  lemma DecodeSucceedsIff(buf: seq<byte>, unsigned16: bool)
    requires |buf| <= INT32_MAX
    ensures Decode(buf, unsigned16).Ok? <==>
      HeaderReadable(buf) && DeclaredLength(buf, unsigned16) >= 0
      && KeyStart(buf) + 4 + DeclaredLength(buf, unsigned16) <= |buf|
    ensures Decode(buf, unsigned16).Ok? ==>
      var ks := KeyStart(buf);
      var n := DeclaredLength(buf, unsigned16);
      && |Decode(buf, unsigned16).value| == n
      && Decode(buf, unsigned16).value == Unmask(buf[ks + 4..ks + 4 + n], buf[ks..ks + 4])
  {
    if HeaderReadable(buf) {
      var n := DeclaredLength(buf, unsigned16);
      }
  }

  /** A successful decode unmasks the declared number of bytes after the key. */
  lemma DecodeWellFormed(buf: seq<byte>, unsigned16: bool)
    requires HeaderReadable(buf)
    requires 0 <= DeclaredLength(buf, unsigned16) <= INT32_MAX
    requires KeyStart(buf) + 4 + DeclaredLength(buf, unsigned16) <= |buf|
    ensures var ks := KeyStart(buf);
      var n := DeclaredLength(buf, unsigned16);
      Decode(buf, unsigned16) == Ok(Unmask(buf[ks + 4..ks + 4 + n], buf[ks..ks + 4]))
  {
  }

  /** A masked client frame (section 5.3 of RFC 6455) carrying `p`. */
  function MaskedFrame(first: byte, p: seq<byte>, key: seq<byte>): seq<byte>
    requires |key| == 4 && |p| <= INT64_MAX
  {
    var n := |p|;
    var lengthBytes :=
      if n < 126 then [0x80 + n]
      else if n <= 65535 then [0x80 + 126] + ToBigEndian(n, 2)
      else [0x80 + 127] + ToBigEndian(n, 8);
    [first] + lengthBytes + key + Unmask(p, key)
  }

  /** Decoding, once the header of `buf` is known to announce `p` masked with `key`. */
  lemma DecodeKnownHeader(buf: seq<byte>, unsigned16: bool, p: seq<byte>, key: seq<byte>)
    requires HeaderReadable(buf) && |key| == 4
    requires DeclaredLength(buf, unsigned16) == |p| && |p| <= INT32_MAX
    requires KeyStart(buf) + 4 + |p| <= |buf|
    requires buf[KeyStart(buf)..KeyStart(buf) + 4] == key
    requires buf[KeyStart(buf) + 4..KeyStart(buf) + 4 + |p|] == Unmask(p, key)
    ensures Decode(buf, unsigned16) == Ok(p)
  {
    UnmaskInvolution(p, key);
  }

  /** Where the parts of a frame laid out as first byte, length bytes, key and data sit. */
  lemma FrameParts(first: byte, lengthBytes: seq<byte>, key: seq<byte>, data: seq<byte>, rest: seq<byte>)
    requires |lengthBytes| >= 1 && |key| == 4
    ensures var buf := [first] + lengthBytes + key + data + rest;
      var hs := 1 + |lengthBytes|;
      && |buf| == hs + 4 + |data| + |rest|
      && buf[1] == lengthBytes[0]
      && buf[2..hs] == lengthBytes[1..]
      && buf[hs..hs + 4] == key
      && buf[hs + 4..hs + 4 + |data|] == data
  {
    var buf := [first] + lengthBytes + key + data + rest;
    var hs := 1 + |lengthBytes|;
    assert buf[hs..] == key + data + rest;
  }

  /** The header fields of a masked frame, as the decoder reads them. */
  lemma MaskedFrameHeader(first: byte, p: seq<byte>, key: seq<byte>, rest: seq<byte>, unsigned16: bool)
    requires |key| == 4 && |p| <= INT32_MAX
    requires unsigned16 || |p| < 0x8000 || |p| > 65535
    ensures var buf := MaskedFrame(first, p, key) + rest;
      && HeaderReadable(buf)
      && KeyStart(buf) == HeaderSize(|p|)
      && DeclaredLength(buf, unsigned16) == |p|
      && buf[HeaderSize(|p|)..HeaderSize(|p|) + 4] == key
      && buf[HeaderSize(|p|) + 4..HeaderSize(|p|) + 4 + |p|] == Unmask(p, key)
  {
    var n := |p|;
    var data := Unmask(p, key);
    Pow256Values();
    var lengthBytes: seq<byte> :=
      if n < 126 then [0x80 + n]
      else if n <= 65535 then [0x80 + 126] + ToBigEndian(n, 2)
      else [0x80 + 127] + ToBigEndian(n, 8);
    assert MaskedFrame(first, p, key) == [first] + lengthBytes + key + data;
    FrameParts(first, lengthBytes, key, data, rest);
    if 126 <= n <= 65535 {
      BigEndianRoundTrip(n, 2);
    } else if n > 65535 {
      BigEndianRoundTrip(n, 8);
    }
  }

  lemma MaskedFrameDecodes(first: byte, p: seq<byte>, key: seq<byte>, rest: seq<byte>, unsigned16: bool)
    requires |key| == 4 && |p| <= INT32_MAX
    requires unsigned16 || |p| < 0x8000 || |p| > 65535
    ensures Decode(MaskedFrame(first, p, key) + rest, unsigned16) == Ok(p)
  {
    MaskedFrameHeader(first, p, key, rest, unsigned16);
    DecodeKnownHeader(MaskedFrame(first, p, key) + rest, unsigned16, p, key);
  }

  /**
   * The decoder as written returns every payload a client masks with any
   * key, except those of 32768 to 65535 bytes, whatever follows the frame
   * in the receive buffer.
   */
  lemma DecodeFrameRoundTrip(first: byte, p: seq<byte>, key: seq<byte>, rest: seq<byte>)
    requires |key| == 4 && |p| <= INT32_MAX
    requires |p| < 0x8000 || |p| > 65535
    ensures DecodeFrame(MaskedFrame(first, p, key) + rest) == Ok(p)
  {
    MaskedFrameDecodes(first, p, key, rest, false);
  }

  /** The corrected decoder returns every masked payload. */
  lemma DecodeFrameCorrectedRoundTrip(first: byte, p: seq<byte>, key: seq<byte>, rest: seq<byte>)
    requires |key| == 4 && |p| <= INT32_MAX
    ensures DecodeFrameCorrected(MaskedFrame(first, p, key) + rest) == Ok(p)
  {
    MaskedFrameDecodes(first, p, key, rest, true);
  }

  /**
   * A correctly masked client frame of 32768 to 65535 bytes is rejected by
   * the decoder as written: `BitConverter.ToInt16` reads its length as
   * negative and `new byte[]` overflows.
   */
  lemma DecodeFrameRejectsMidSizedFrames(first: byte, p: seq<byte>, key: seq<byte>, rest: seq<byte>)
    requires |key| == 4 && 0x8000 <= |p| <= 65535
    ensures DecodeFrame(MaskedFrame(first, p, key) + rest) == Err(Overflow)
  {
    var buf := MaskedFrame(first, p, key) + rest;
    var n := |p|;
    assert buf[1] == 0x80 + 126;
    assert buf[2..4] == ToBigEndian(n, 2);
    BigEndianRoundTrip(n, 2);
    assert DeclaredLength(buf, false) == n - 0x1_0000;
  }

  // ---------------------------------------------------------------- methods

  /**
   * `CreateFrameFromByte(payload, start, length)`: a fresh frame around
   * `payload[start..start + length]`.
   */
  method CreateFrameFromByte(payload: array<byte>, start: int, length: int) returns (frame: array<byte>)
    requires 0 <= start && 0 <= length && start + length <= payload.Length
    requires payload.Length <= INT32_MAX
    ensures fresh(frame)
    ensures frame[..] == EncodeFrameAsWritten(payload[start..start + length])
  {
    var n := length;
    if n < 126 {
      frame := new byte[2 + n](_ => 0);
      frame[1] := n;
      WritePayload(payload, start, n, frame, 2);
    } else if n <= 65535 {
      frame := new byte[4 + n](_ => 0);
      frame[1] := 126;
      frame[2] := LengthByte(n, 8);
      frame[3] := LengthByte(n, 0);
      WritePayload(payload, start, n, frame, 4);
    } else {
      frame := LongFrame(payload, start, n);
    }
    ghost var copied := frame[..];
    frame[0] := FIN_BINARY;
    FirstByteSet(copied, frame[..], FrameLengthBytes(n), payload[start..start + n]);
  }

  /** The branch of `CreateFrameFromByte` for the 64-bit length form, up to the first byte. */
  method LongFrame(payload: array<byte>, start: int, n: int) returns (frame: array<byte>)
    requires 0 <= start && 65535 < n && start + n <= payload.Length && n <= INT32_MAX
    ensures fresh(frame)
    ensures frame[..] == [0] + FrameLengthBytes(n) + payload[start..start + n]
  {
    frame := new byte[10 + n](_ => 0);
    frame[1] := 127;
    frame[2] := LengthByte(n, 56);
    frame[3] := LengthByte(n, 48);
    frame[4] := LengthByte(n, 40);
    frame[5] := LengthByte(n, 32);
    frame[6] := LengthByte(n, 24);
    frame[7] := LengthByte(n, 16);
    frame[8] := LengthByte(n, 8);
    frame[9] := LengthByte(n, 0);
    LongHeader(frame[..10], n);
    WritePayload(payload, start, n, frame, 10);
  }

  /** Ten bytes holding 0, 127 and the eight length bytes of `n`, as `CreateFrameFromByte` writes them. */
  lemma LongHeader(w: seq<byte>, n: nat)
    requires 65535 < n <= INT32_MAX && |w| == 10 && w[0] == 0 && w[1] == 127
    requires w[2] == LengthByte(n, 56) && w[3] == LengthByte(n, 48) && w[4] == LengthByte(n, 40)
    requires w[5] == LengthByte(n, 32) && w[6] == LengthByte(n, 24) && w[7] == LengthByte(n, 16)
    requires w[8] == LengthByte(n, 8) && w[9] == LengthByte(n, 0)
    ensures w == [0] + FrameLengthBytes(n)
  {
  }

  /**
   * The frame once its length bytes are written: its first byte still 0,
   * the length bytes of `n`, and room for the payload, which is copied in.
   */
  method WritePayload(payload: array<byte>, start: int, n: int, frame: array<byte>, offset: nat)
    requires 0 <= start && 0 <= n && start + n <= payload.Length && n <= INT32_MAX
    requires payload != frame && frame.Length == offset + n
    requires frame[..offset] == [0] + FrameLengthBytes(n)
    modifies frame
    ensures frame[..] == [0] + FrameLengthBytes(n) + payload[start..start + n]
  {
    ghost var head := frame[..offset];
    ArrayCopy.Copy(payload, start, frame, offset, n);
    FrameAfterCopy(frame[..], head, payload[start..start + n], FrameLengthBytes(n));
  }

  lemma FrameAfterCopy(f: seq<byte>, head: seq<byte>, slice: seq<byte>, lengthBytes: seq<byte>)
    requires head == [0] + lengthBytes
    requires |f| == |head| + |slice|
    requires f == head + slice + f[|head| + |slice|..]
    ensures f == [0] + lengthBytes + slice
  {
  }

  lemma FirstByteSet(f: seq<byte>, g: seq<byte>, lengthBytes: seq<byte>, slice: seq<byte>)
    requires f == [0] + lengthBytes + slice
    requires g == f[0 := FIN_BINARY]
    ensures g == [FIN_BINARY] + lengthBytes + slice
  {
  }

  /** `CreateFrameFromString`: the UTF-8 bytes of `message` in one frame. */
  method CreateFrameFromString(message: string) returns (frame: array<byte>)
    requires |Str.Utf8(message)| <= INT32_MAX
    ensures fresh(frame)
    ensures frame[..] == EncodeFrameAsWritten(Str.Utf8(message))
  {
    var bytes := Str.Utf8(message);
    var payload := new byte[|bytes|](i requires 0 <= i < |bytes| => bytes[i]);
    assert payload[0..payload.Length] == bytes;
    frame := CreateFrameFromByte(payload, 0, payload.Length);
  }

  /** `ParsePayloadFromFrame`: unmasks the payload of a received frame into a fresh array. */
  method ParsePayloadFromFrame(buf: array<byte>) returns (r: Result<array<byte>, FrameError>)
    ensures r.Ok? ==> fresh(r.value) && DecodeFrame(buf[..]) == Ok(r.value[..])
    ensures r.Err? ==> DecodeFrame(buf[..]) == Err(r.error)
  {
    ghost var s := buf[..];
    var readable, length, keyStart := ReadHeader(buf);
    if !readable {
      return Err(IndexOutOfRange);
    }
    var total := WrapInt64(length + keyStart + 4);
    if total > buf.Length {
      return Err(DataLongerThanBuffer);
    }
    if keyStart + 4 > buf.Length {
      return Err(IndexOutOfRange);
    }
    var key := [buf[keyStart], buf[keyStart + 1], buf[keyStart + 2], buf[keyStart + 3]];
    if length < 0 || length > INT32_MAX {
      return Err(Overflow);
    }
    SliceOfFour(s, keyStart);
    var payload := new byte[length];
    ArrayCopy.Copy(buf, keyStart + 4, payload, 0, length);
    assert payload[..] == s[keyStart + 4..keyStart + 4 + length];
    UnmaskLoop(payload, key);
    assert DecodeFrame(s) == Ok(Unmask(s[keyStart + 4..keyStart + 4 + length], key)) by {
      DecodeWellFormed(s, false);
    }
    return Ok(payload);
  }

  lemma SliceOfFour(s: seq<byte>, i: nat)
    requires i + 4 <= |s|
    ensures s[i..i + 4] == [s[i], s[i + 1], s[i + 2], s[i + 3]]
  {
  }

  /** The length and key position the three length forms of the header give. */
  method ReadHeader(buf: array<byte>) returns (readable: bool, length: int, keyStart: int)
    ensures readable == HeaderReadable(buf[..])
    ensures readable ==> keyStart == KeyStart(buf[..]) && length == DeclaredLength(buf[..], false)
  {
    if buf.Length < 2 {
      return false, 0, 0;
    }
    var selector := buf[1] % 128;
    if selector < 126 {
      return true, selector, 2;
    } else if selector == 126 {
      if buf.Length < 4 {
        return false, 0, 0;
      }
      return true, Int16(BigEndian(buf[2..4])), 4;
    } else {
      if buf.Length < 10 {
        return false, 0, 0;
      }
      Pow256Values();
      return true, Int64(BigEndian(buf[2..10])), 10;
    }
  }

  /** The unmasking loop of `ParsePayloadFromFrame`, in place. */
  method UnmaskLoop(payload: array<byte>, key: seq<byte>)
    requires |key| == 4
    modifies payload
    ensures payload[..] == Unmask(old(payload[..]), key)
  {
    var i := 0;
    while i < payload.Length
      invariant 0 <= i <= payload.Length
      invariant forall j :: 0 <= j < i ==> payload[j] == Xor(old(payload[j]), key[j % 4])
      invariant forall j :: i <= j < payload.Length ==> payload[j] == old(payload[j])
    {
      payload[i] := Xor(payload[i], key[i % 4]);
      i := i + 1;
    }
  }
}
