/**
 * The opening handshake of the spectator-view server (section 4.2.2 of
 * RFC 6455): the `Sec-WebSocket-Key` value it extracts from the request,
 * the Base64 text of `Convert.ToBase64String`, and the exact reply.
 * SHA-1 is a parameter of the model.
 */
module WebSocketHandshake {
  import opened Wrappers
  import opened Bytes
  import opened Text

  const KEY_HEADER: string := "Sec-WebSocket-Key: "
  const ACCEPT_GUID: string := "258EAFA5-E914-47DA-95CA-C5AB0DC85B11"

  /** What `.*` matches: the characters before the first line feed. */
  function RestOfLine(s: string): (r: string)
    ensures |r| <= |s| && r == s[..|r|]
    ensures forall i :: 0 <= i < |r| ==> r[i] != '\n'
    ensures |r| < |s| ==> s[|r|] == '\n'
  {
    if s == [] || s[0] == '\n' then [] else [s[0]] + RestOfLine(s[1..])
  }

  /**
   * `Match(request).Groups[1].Value.Trim()` for the pattern
   * `Sec-WebSocket-Key: (.*)`: the trimmed rest of the line after the first
   * occurrence of the header name, or "" when there is none.
   */
  function WebSocketKey(request: string): (k: string)
    ensures IndexOf(request, KEY_HEADER).None? ==> k == ""
    ensures NoLineFeed(k)
    ensures k != [] ==> !IsWhiteSpace(k[0]) && !IsWhiteSpace(k[|k| - 1])
  {
    match IndexOf(request, KEY_HEADER)
    case None => ""
    case Some(i) => Trim(RestOfLine(request[i + |KEY_HEADER|..]))
  }

  /**
   * The key comes back exactly from a request whose first
   * `Sec-WebSocket-Key: ` line carries it between white space (such as the
   * `\r` before the line feed).
   */
  lemma WebSocketKeyOfLine(before: string, ws1: string, key: string, ws2: string, after: string)
    requires IndexOf(before + KEY_HEADER + ws1 + key + ws2 + "\n" + after, KEY_HEADER) == Some(|before|)
    requires AllWhiteSpace(ws1) && AllWhiteSpace(ws2)
    requires key != [] ==> !IsWhiteSpace(key[0]) && !IsWhiteSpace(key[|key| - 1])
    requires NoLineFeed(ws1) && NoLineFeed(key) && NoLineFeed(ws2)
    ensures WebSocketKey(before + KEY_HEADER + ws1 + key + ws2 + "\n" + after) == key
  {
    var line := ws1 + key + ws2;
    NoLineFeedJoin(ws1, key, ws2);
    AfterPrefix(before + KEY_HEADER, ws1, key, ws2, "\n", after);
    RestOfLineStops(line, after);
    TrimSurrounded(ws1, key, ws2);
  }

  lemma NoLineFeedJoin(a: string, b: string, c: string)
    requires NoLineFeed(a) && NoLineFeed(b) && NoLineFeed(c)
    ensures NoLineFeed(a + b + c)
  {
  }

  /** What follows a prefix in a concatenation. */
  lemma AfterPrefix(p: string, a: string, b: string, c: string, d: string, e: string)
    ensures (p + a + b + c + d + e)[|p|..] == a + b + c + d + e
  {
    assert p + a + b + c + d + e == p + (a + b + c + d + e);
  }

  predicate NoLineFeed(s: string)
  {
    forall i :: 0 <= i < |s| ==> s[i] != '\n'
  }

  lemma {:induction false} RestOfLineStops(line: string, after: string)
    requires NoLineFeed(line)
    ensures RestOfLine(line + "\n" + after) == line
  {
    if line != [] {
      assert (line + "\n" + after)[1..] == line[1..] + "\n" + after;
      RestOfLineStops(line[1..], after);
    } else {
      assert line + "\n" + after == "\n" + after;
    }
  }

  /** A request without the header name yields the empty key. */
  lemma WebSocketKeyAbsent(request: string)
    requires forall j :: !OccursAt(request, KEY_HEADER, j)
    ensures WebSocketKey(request) == ""
  {
  }

  // ------------------------------------------------------------------ Base64

  /** The Base64 digit for a six-bit value (section 4 of RFC 4648). */
  function Base64Digit(v: nat): (c: char)
    requires v < 64
  {
    if v < 26 then ('A' as int + v) as char
    else if v < 52 then ('a' as int + v - 26) as char
    else if v < 62 then ('0' as int + v - 52) as char
    else if v == 62 then '+' else '/'
  }

  /** The six-bit value of a Base64 digit. */
  function Base64Value(c: char): (v: int)
  {
    if 'A' <= c <= 'Z' then c as int - 'A' as int
    else if 'a' <= c <= 'z' then c as int - 'a' as int + 26
    else if '0' <= c <= '9' then c as int - '0' as int + 52
    else if c == '+' then 62
    else if c == '/' then 63
    else -1
  }

  /** `Convert.ToBase64String`: four digits per three bytes, `=` padding. */
  function Base64(b: seq<byte>): (r: string)
    ensures |r| == 4 * ((|b| + 2) / 3)
  {
    if |b| == 0 then ""
    else if |b| == 1 then
      [Base64Digit(b[0] / 4), Base64Digit((b[0] % 4) * 16), '=', '=']
    else if |b| == 2 then
      [Base64Digit(b[0] / 4), Base64Digit((b[0] % 4) * 16 + b[1] / 16), Base64Digit((b[1] % 16) * 4), '=']
    else
      [Base64Digit(b[0] / 4), Base64Digit((b[0] % 4) * 16 + b[1] / 16),
       Base64Digit((b[1] % 16) * 4 + b[2] / 64), Base64Digit(b[2] % 64)] + Base64(b[3..])
  }

  /** Decoding of well-formed Base64 text, the inverse of `Base64`. */
  function Base64Decode(s: string): (r: Option<seq<byte>>)
    decreases |s|
  {
    if s == [] then Some([])
    else if |s| < 4 then None
    else
      var v0, v1, v2, v3 := Base64Value(s[0]), Base64Value(s[1]), Base64Value(s[2]), Base64Value(s[3]);
      if v0 < 0 || v1 < 0 then None
      else if s[2] == '=' && s[3] == '=' && |s| == 4 then Some([v0 * 4 + v1 / 16])
      else if v2 < 0 then None
      else if s[3] == '=' && |s| == 4 then Some([v0 * 4 + v1 / 16, (v1 % 16) * 16 + v2 / 4])
      else if v3 < 0 then None
      else
        match Base64Decode(s[4..])
        case None => None
        case Some(rest) => Some([v0 * 4 + v1 / 16, (v1 % 16) * 16 + v2 / 4, (v2 % 4) * 64 + v3] + rest)
  }

  lemma DigitValue(v: nat)
    requires v < 64
    ensures Base64Value(Base64Digit(v)) == v
  {
  }

  /** Every byte sequence comes back from its Base64 text. */
  lemma {:induction false} Base64RoundTrip(b: seq<byte>)
    ensures Base64Decode(Base64(b)) == Some(b)
    decreases |b|
  {
    if |b| == 1 {
      Base64RoundTripOne(b);
    } else if |b| == 2 {
      Base64RoundTripTwo(b);
    } else if |b| >= 3 {
      Base64RoundTrip(b[3..]);
      ThreeBytesRoundTrip(b[0], b[1], b[2], b[3..]);
      FirstThree(b);
    }
  }

  lemma FirstThree(b: seq<byte>)
    requires |b| >= 3
    ensures b == [b[0], b[1], b[2]] + b[3..]
  {
  }

  lemma Base64RoundTripOne(b: seq<byte>)
    requires |b| == 1
    ensures Base64Decode(Base64(b)) == Some(b)
  {
    assert b == [b[0]];
    OneByteRoundTrip(b[0]);
  }

  lemma OneByteRoundTrip(b0: byte)
    ensures Base64Decode(Base64([b0])) == Some([b0])
  {
    var v0, v1 := b0 / 4, (b0 % 4) * 16;
    assert Base64([b0]) == [Base64Digit(v0), Base64Digit(v1), '=', '='];
    DecodeTwoPads(v0, v1);
    OneArithmetic(b0);
  }

  lemma Base64RoundTripTwo(b: seq<byte>)
    requires |b| == 2
    ensures Base64Decode(Base64(b)) == Some(b)
  {
    assert b == [b[0], b[1]];
    TwoBytesRoundTrip(b[0], b[1]);
  }

  lemma TwoBytesRoundTrip(b0: byte, b1: byte)
    ensures Base64Decode(Base64([b0, b1])) == Some([b0, b1])
  {
    var v0, v1, v2 := b0 / 4, (b0 % 4) * 16 + b1 / 16, (b1 % 16) * 4;
    assert Base64([b0, b1]) == [Base64Digit(v0), Base64Digit(v1), Base64Digit(v2), '='];
    DecodeOnePad(v0, v1, v2);
    TwoArithmetic(b0, b1);
  }

  /** Two digits and two pad characters decode to one byte. */
  lemma DecodeTwoPads(v0: nat, v1: nat)
    requires v0 < 64 && v1 < 64
    ensures Base64Decode([Base64Digit(v0), Base64Digit(v1), '=', '=']) == Some([v0 * 4 + v1 / 16])
  {
    DigitValue(v0);
    DigitValue(v1);
  }

  /** Three digits and one pad character decode to two bytes. */
  lemma DecodeOnePad(v0: nat, v1: nat, v2: nat)
    requires v0 < 64 && v1 < 64 && v2 < 64
    ensures Base64Decode([Base64Digit(v0), Base64Digit(v1), Base64Digit(v2), '='])
      == Some([v0 * 4 + v1 / 16, (v1 % 16) * 16 + v2 / 4])
  {
    DigitValue(v0);
    DigitValue(v1);
    DigitValue(v2);
  }

  lemma ThreeBytesRoundTrip(b0: byte, b1: byte, b2: byte, rest: seq<byte>)
    requires Base64Decode(Base64(rest)) == Some(rest)
    ensures Base64Decode(Base64([b0, b1, b2] + rest)) == Some([b0, b1, b2] + rest)
  {
    Base64Group([b0, b1, b2], rest);
    DecodeGroup(b0, b1, b2, Base64(rest));
  }

  /** The four digits of three bytes, then more text, decode to the bytes and the rest. */
  lemma DecodeGroup(b0: byte, b1: byte, b2: byte, rest: string)
    requires Base64Decode(rest).Some?
    ensures Base64Decode(Base64([b0, b1, b2]) + rest) == Some([b0, b1, b2] + Base64Decode(rest).value)
  {
    var v0, v1 := b0 / 4, (b0 % 4) * 16 + b1 / 16;
    var v2, v3 := (b1 % 16) * 4 + b2 / 64, b2 % 64;
    GroupArithmetic(b0, b1, b2);
    GroupDigits(b0, b1, b2);
    var digits := [Base64Digit(v0), Base64Digit(v1), Base64Digit(v2), Base64Digit(v3)];
    assert Base64([b0, b1, b2]) + rest == digits + rest;
    DecodeFourDigits(v0, v1, v2, v3, rest);
    var decoded: seq<byte> := [v0 * 4 + v1 / 16, (v1 % 16) * 16 + v2 / 4, (v2 % 4) * 64 + v3];
    assert decoded == [b0, b1, b2];
  }

  /** Three bytes give four digits and no padding. */
  lemma GroupDigits(b0: byte, b1: byte, b2: byte)
    ensures Base64([b0, b1, b2]) == [Base64Digit(b0 / 4), Base64Digit((b0 % 4) * 16 + b1 / 16),
      Base64Digit((b1 % 16) * 4 + b2 / 64), Base64Digit(b2 % 64)]
  {
    assert [b0, b1, b2][3..] == [];
  }

  lemma OneArithmetic(b0: byte)
    ensures (b0 / 4) * 4 + ((b0 % 4) * 16) / 16 == b0
  {
    assert ((b0 % 4) * 16) / 16 == b0 % 4;
  }

  lemma TwoArithmetic(b0: byte, b1: byte)
    ensures var v0, v1, v2 := b0 / 4, (b0 % 4) * 16 + b1 / 16, (b1 % 16) * 4;
      v0 * 4 + v1 / 16 == b0 && (v1 % 16) * 16 + v2 / 4 == b1
  {
    var v1 := (b0 % 4) * 16 + b1 / 16;
    assert v1 / 16 == b0 % 4 && v1 % 16 == b1 / 16;
    assert ((b1 % 16) * 4) / 4 == b1 % 16;
  }

  lemma GroupArithmetic(b0: byte, b1: byte, b2: byte)
    ensures var v0, v1 := b0 / 4, (b0 % 4) * 16 + b1 / 16;
      var v2, v3 := (b1 % 16) * 4 + b2 / 64, b2 % 64;
      && v0 < 64 && v1 < 64 && v2 < 64 && v3 < 64
      && v0 * 4 + v1 / 16 == b0 && (v1 % 16) * 16 + v2 / 4 == b1 && (v2 % 4) * 64 + v3 == b2
  {
  }

  /** Four digits followed by more text decode to three bytes followed by the rest. */
  lemma DecodeFourDigits(v0: nat, v1: nat, v2: nat, v3: nat, rest: string)
    requires v0 < 64 && v1 < 64 && v2 < 64 && v3 < 64
    requires Base64Decode(rest).Some?
    ensures Base64Decode([Base64Digit(v0), Base64Digit(v1), Base64Digit(v2), Base64Digit(v3)] + rest)
      == Some([v0 * 4 + v1 / 16, (v1 % 16) * 16 + v2 / 4, (v2 % 4) * 64 + v3] + Base64Decode(rest).value)
  {
    var s := [Base64Digit(v0), Base64Digit(v1), Base64Digit(v2), Base64Digit(v3)] + rest;
    DigitValue(v0);
    DigitValue(v1);
    DigitValue(v2);
    DigitValue(v3);
    assert Base64Value(s[0]) == v0 && Base64Value(s[1]) == v1;
    assert Base64Value(s[2]) == v2 && Base64Value(s[3]) == v3;
    assert s[2] != '=' && s[3] != '=';
    assert s[4..] == rest;
    var b0, b1, b2 := v0 * 4 + v1 / 16, (v1 % 16) * 16 + v2 / 4, (v2 % 4) * 64 + v3;
    assert b0 < 256 && b1 < 256 && b2 < 256;
    assert Base64Decode(s) == Some([b0, b1, b2] + Base64Decode(rest).value);
  }

  // --------------------------------------------------------------- the reply

  /** The `Sec-WebSocket-Accept` value: Base64 of SHA-1 of key and GUID. */
  function AcceptValue(key: string, sha1: seq<byte> -> seq<byte>): string
  {
    Base64(sha1(Utf8(key + ACCEPT_GUID)))
  }

  /** The status line and headers of the reply, up to the accept value. */
  const SWITCHING_LINE: string := "HTTP/1.1 101 Switching Protocols\r\n"
  const REPLY_HEAD: string := SWITCHING_LINE + "Connection: Upgrade\r\nUpgrade: websocket\r\nSec-WebSocket-Accept: "
  const BLANK_LINE: string := "\r\n\r\n"

  /**
   * The reply the server sends to a request that starts with "GET"; for
   * any other request it sends nothing.
   */
  function HandshakeResponse(request: string, sha1: seq<byte> -> seq<byte>): (r: Option<string>)
    ensures r.Some? <==> StartsWith(request, "GET")
    ensures r.Some? ==> StartsWith(r.value, SWITCHING_LINE) && EndsWith(r.value, BLANK_LINE)
    ensures r.Some? ==> |r.value| == |REPLY_HEAD| + |AcceptValue(WebSocketKey(request), sha1)| + |BLANK_LINE|
    ensures r.Some? ==> r.value[|REPLY_HEAD|..|r.value| - |BLANK_LINE|] == AcceptValue(WebSocketKey(request), sha1)
  {
    if StartsWith(request, "GET") then
      var accept := AcceptValue(WebSocketKey(request), sha1);
      ReplyLayout(accept);
      Some(REPLY_HEAD + accept + BLANK_LINE)
    else None
  }

  /** The reply opens with the status line, ends with the empty line, and holds the accept value in between. */
  lemma ReplyLayout(accept: string)
    ensures var t := REPLY_HEAD + accept + BLANK_LINE;
      && StartsWith(t, SWITCHING_LINE) && EndsWith(t, BLANK_LINE)
      && t[|REPLY_HEAD|..|t| - |BLANK_LINE|] == accept
  {
    var t := REPLY_HEAD + accept + BLANK_LINE;
    assert t == SWITCHING_LINE + (REPLY_HEAD[|SWITCHING_LINE|..] + accept + BLANK_LINE);
  }

  /**
   * A reply exists exactly for "GET" requests, and a 20-byte digest gives
   * the 28-character accept value of section 4.2.2 of RFC 6455.
   */
  lemma HandshakeResponseShape(request: string, sha1: seq<byte> -> seq<byte>)
    ensures HandshakeResponse(request, sha1).Some? <==> StartsWith(request, "GET")
    ensures |sha1(Utf8(WebSocketKey(request) + ACCEPT_GUID))| == 20 ==>
      |AcceptValue(WebSocketKey(request), sha1)| == 28
  {
    var digest := sha1(Utf8(WebSocketKey(request) + ACCEPT_GUID));
    if |digest| == 20 {
      DigestTextLength(digest);
    }
  }

  /** Base64 of a 20-byte digest has 28 characters. */
  lemma DigestTextLength(digest: seq<byte>)
    requires |digest| == 20
    ensures |Base64(digest)| == 28
  {
    assert (|digest| + 2) / 3 == 7;
  }

  /** Base64 works three bytes at a time. */
  lemma Base64Group(g: seq<byte>, rest: seq<byte>)
    requires |g| == 3
    ensures Base64(g + rest) == Base64(g) + Base64(rest)
  {
    assert (g + rest)[3..] == rest;
    assert (g + rest)[..3] == g;
  }

  /**
   * The SHA-1 digest of the sample key of section 1.3 of RFC 6455 followed
   * by the GUID, three bytes at a time.
   */
  const SAMPLE_DIGEST: seq<byte> :=
    [0xb3, 0x7a, 0x4f] + ([0x2c, 0xc0, 0x62] + ([0x4f, 0x16, 0x90] + ([0xf6, 0x46, 0x06] + ([0xcf, 0x38, 0x59] + ([0x45, 0xb2, 0xbe] + ([0xc4, 0xea]))))))

  /**
   * The sample digest encodes to the accept value the RFC gives,
   * `s3pPLMBiTxaQ9kYGzzhZRbK+xOo=`.
   */
  lemma SampleAcceptValue()
    ensures Base64(SAMPLE_DIGEST) ==
      "s3pP" + ("LMBi" + ("TxaQ" + ("9kYG" + ("zzhZ" + ("RbK+" + ("xOo="))))))
  {
    SampleGroup1();
    SampleGroup2();
    SampleGroup3();
    SampleGroup4();
    SampleGroup5();
    SampleGroup6();
    SampleGroup7();
    Base64Group([0x45, 0xb2, 0xbe], [0xc4, 0xea]);
    Base64Group([0xcf, 0x38, 0x59], [0x45, 0xb2, 0xbe] + ([0xc4, 0xea]));
    Base64Group([0xf6, 0x46, 0x06], [0xcf, 0x38, 0x59] + ([0x45, 0xb2, 0xbe] + ([0xc4, 0xea])));
    Base64Group([0x4f, 0x16, 0x90], [0xf6, 0x46, 0x06] + ([0xcf, 0x38, 0x59] + ([0x45, 0xb2, 0xbe] + ([0xc4, 0xea]))));
    Base64Group([0x2c, 0xc0, 0x62], [0x4f, 0x16, 0x90] + ([0xf6, 0x46, 0x06] + ([0xcf, 0x38, 0x59] + ([0x45, 0xb2, 0xbe] + ([0xc4, 0xea])))));
    Base64Group([0xb3, 0x7a, 0x4f], [0x2c, 0xc0, 0x62] + ([0x4f, 0x16, 0x90] + ([0xf6, 0x46, 0x06] + ([0xcf, 0x38, 0x59] + ([0x45, 0xb2, 0xbe] + ([0xc4, 0xea]))))));
  }

  /** The seven Base64 groups of the sample digest. */
  lemma SampleGroup1()
    ensures Base64([0xb3, 0x7a, 0x4f]) == "s3pP"
  {
    assert Base64Digit(44) == 's';
    assert Base64Digit(55) == '3';
    assert Base64Digit(41) == 'p';
    assert Base64Digit(15) == 'P';
  }

  lemma SampleGroup2()
    ensures Base64([0x2c, 0xc0, 0x62]) == "LMBi"
  {
    assert Base64Digit(11) == 'L';
    assert Base64Digit(12) == 'M';
    assert Base64Digit(1) == 'B';
    assert Base64Digit(34) == 'i';
  }

  lemma SampleGroup3()
    ensures Base64([0x4f, 0x16, 0x90]) == "TxaQ"
  {
    assert Base64Digit(19) == 'T';
    assert Base64Digit(49) == 'x';
    assert Base64Digit(26) == 'a';
    assert Base64Digit(16) == 'Q';
  }

  lemma SampleGroup4()
    ensures Base64([0xf6, 0x46, 0x6]) == "9kYG"
  {
    assert Base64Digit(61) == '9';
    assert Base64Digit(36) == 'k';
    assert Base64Digit(24) == 'Y';
    assert Base64Digit(6) == 'G';
  }

  lemma SampleGroup5()
    ensures Base64([0xcf, 0x38, 0x59]) == "zzhZ"
  {
    assert Base64Digit(51) == 'z';
    assert Base64Digit(51) == 'z';
    assert Base64Digit(33) == 'h';
    assert Base64Digit(25) == 'Z';
  }

  lemma SampleGroup6()
    ensures Base64([0x45, 0xb2, 0xbe]) == "RbK+"
  {
    assert Base64Digit(17) == 'R';
    assert Base64Digit(27) == 'b';
    assert Base64Digit(10) == 'K';
    assert Base64Digit(62) == '+';
  }

  lemma SampleGroup7()
    ensures Base64([0xc4, 0xea]) == "xOo="
  {
    assert Base64Digit(49) == 'x';
    assert Base64Digit(14) == 'O';
    assert Base64Digit(40) == 'o';
  }
}
