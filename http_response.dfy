/**
 * `uHTTP.Response`: a status, a header dictionary kept in insertion order
 * and a body, serialised by `ToBinary` as the status line, one
 * `key: value` line per header, an empty line and the body bytes.
 */
module HttpResponse {
  import opened Bytes
  import opened Text
  import opened Http
  import opened HttpRequest
  import ArrayCopy

  /** `HTTP/1.1 {code} {description}`. */
  function StatusLine(s: StatusCode): string
  {
    "HTTP/1.1 " + s.CodeText() + " " + s.Description()
  }

  /** CRLF and a header line for each header, in order. */
  function HeaderBlock(headers: seq<Header>): string
  {
    if headers == [] then ""
    else HeaderBlock(headers[..|headers| - 1]) + EOL + HeaderLine(headers[|headers| - 1])
  }

  /** The head `ToBinary` writes before the body: the status line first, an empty line last. */
  function Head(s: StatusCode, headers: seq<Header>): (h: string)
    ensures StartsWith(h, StatusLine(s)) && EndsWith(h, EOL + EOL)
  {
    var block := HeaderBlock(headers);
    assert StatusLine(s) + block + EOL + EOL == StatusLine(s) + (block + EOL + EOL);
    assert StatusLine(s) + block + EOL + EOL == (StatusLine(s) + block) + (EOL + EOL);
    StatusLine(s) + block + EOL + EOL
  }

  class Response {
    const statusCode: StatusCode
    /** The header dictionary, in the order entries were added. */
    var headers: seq<Header>
    /** The contents of the body array. */
    var body: seq<byte>

    /** A new response has the given status, no headers and an empty body. */
    constructor(statusCode: StatusCode)
      ensures this.statusCode == statusCode && headers == [] && body == []
    {
      this.statusCode := statusCode;
      headers := [];
      body := [];
    }

    /**
     * `Headers.Add(key, value)`: appends the entry, or throws (reported as
     * `added == false`, nothing changed) when the key is present.
     */
    method AddHeader(key: string, value: string) returns (added: bool)
      modifies this
      ensures added <==> !HasKey(old(headers), key)
      ensures headers == if added then old(headers) + [Header(key, value)] else old(headers)
      ensures body == old(body)
    {
      if HasKey(headers, key) {
        return false;
      }
      headers := headers + [Header(key, value)];
      return true;
    }

    /** Sets the `Body` property. */
    method SetBody(bytes: seq<byte>)
      modifies this
      ensures body == bytes && headers == old(headers)
    {
      body := bytes;
    }

    /**
     * `ToBinary`: the head built header by header in a string builder,
     * encoded as UTF-8, then both copied into a fresh array.
     */
    method ToBinary() returns (bytes: array<byte>)
      ensures fresh(bytes)
      ensures bytes[..] == Utf8(Head(statusCode, headers)) + body
    {
      var head := HeadText();
      var encoded := Utf8(head);
      var headBytes := new byte[|encoded|](k requires 0 <= k < |encoded| => encoded[k]);
      bytes := Concatenate(headBytes, body);
    }

    /** The string builder part of `ToBinary`: the status line, then CRLF and a line per header, then two CRLFs. */
    method HeadText() returns (head: string)
      ensures head == Head(statusCode, headers)
    {
      head := StatusLine(statusCode);
      var i := 0;
      while i < |headers|
        invariant 0 <= i <= |headers|
        invariant head == StatusLine(statusCode) + HeaderBlock(headers[..i])
      {
        assert headers[..i + 1][..i] == headers[..i];
        head := head + EOL + HeaderLine(headers[i]);
        i := i + 1;
      }
      assert headers[..i] == headers;
      head := head + EOL + EOL;
    }
  }

  /** The two copies of `ToBinary`: the head bytes, then the body, into a fresh array. */
  method Concatenate(headBytes: array<byte>, body: seq<byte>) returns (bytes: array<byte>)
    ensures fresh(bytes)
    ensures bytes[..] == headBytes[..] + body
  {
    bytes := new byte[headBytes.Length + |body|](_ => 0);
    ArrayCopy.Copy(headBytes, 0, bytes, 0, headBytes.Length);
    assert headBytes[0..headBytes.Length] == headBytes[..];
    ghost var copied := bytes[..];
    assert copied[..headBytes.Length] == headBytes[..];
    ArrayCopy.CopySeq(body, bytes, headBytes.Length);
    assert bytes[headBytes.Length + |body|..] == [];
  }

  const GREETING: string := "Hello, &#181;HTTP!"

  /** `Response.Default`: 200 OK, closed connection, an HTML greeting. */
  method Default() returns (response: Response)
    ensures fresh(response)
    ensures response.statusCode == OK
    ensures response.headers == [Header("Connection", "Closed"), Header("Content-Type", "text/html")]
    ensures response.body == Utf8(GREETING)
  {
    response := new Response(OK);
    var added := response.AddHeader("Connection", "Closed");
    assert response.headers == [Header("Connection", "Closed")];
    assert "Connection"[3] != "Content-Type"[3];
    OneKey(Header("Connection", "Closed"), "Content-Type");
    added := response.AddHeader("Content-Type", "text/html");
    assert added;
    response.SetBody(Utf8(GREETING));
  }

  /** A one-entry dictionary holds exactly its own key. */
  lemma OneKey(h: Header, key: string)
    ensures HasKey([h], key) <==> h.key == key
  {
    if h.key == key {
      assert [h][0].key == key;
    }
  }

  /** A line, the header block and two CRLFs are those lines joined by CRLF. */
  lemma HeadShapeIsJoin(first: string, headers: seq<Header>)
    ensures first + HeaderBlock(headers) + EOL + EOL == Join([first] + HeaderLines(headers) + ["", ""], EOL)
  {
    HeaderBlockJoin(first, headers, ["", ""]);
    assert Join(["", ""], EOL) == EOL;
  }

  /** The head is the status line, the header lines and two empty lines, joined by CRLF. */
  lemma HeadIsJoin(s: StatusCode, headers: seq<Header>)
    ensures Head(s, headers) == Join([StatusLine(s)] + HeaderLines(headers) + ["", ""], EOL)
  {
    HeadShapeIsJoin(StatusLine(s), headers);
  }

  /** Appending the header block and then more lines is joining all of them. */
  lemma {:induction false} HeaderBlockJoin(first: string, headers: seq<Header>, rest: seq<string>)
    requires |rest| >= 1
    ensures first + HeaderBlock(headers) + EOL + Join(rest, EOL) == Join([first] + HeaderLines(headers) + rest, EOL)
    decreases |headers|
  {
    if headers == [] {
      JoinCons(first, rest);
      assert [first] + HeaderLines(headers) + rest == [first] + rest;
    } else {
      var n := |headers|;
      var init := headers[..n - 1];
      var last := headers[n - 1];
      var rest' := [HeaderLine(last)] + rest;
      HeaderBlockJoin(first, init, rest');
      JoinCons(HeaderLine(last), rest);
      assert HeaderBlock(headers) == HeaderBlock(init) + EOL + HeaderLine(last);
      Regroup(first, HeaderBlock(init), HeaderLine(last), Join(rest, EOL));
      assert [first] + HeaderLines(init) + rest' == [first] + HeaderLines(headers) + rest by {
        HeaderLinesAppend(init, last);
        assert headers == init + [last];
      }
    }
  }

  lemma JoinCons(first: string, rest: seq<string>)
    requires |rest| >= 1
    ensures Join([first] + rest, EOL) == first + EOL + Join(rest, EOL)
  {
    assert ([first] + rest)[1..] == rest;
  }

  lemma Regroup(a: string, b: string, c: string, d: string)
    ensures a + (b + EOL + c) + EOL + d == a + b + EOL + (c + EOL + d)
  {
  }

  lemma {:induction false} HeaderLinesAppend(init: seq<Header>, last: Header)
    ensures HeaderLines(init + [last]) == HeaderLines(init) + [HeaderLine(last)]
    decreases |init|
  {
    if init == [] {
      assert init + [last] == [last];
    } else {
      assert (init + [last])[1..] == init[1..] + [last];
      HeaderLinesAppend(init[1..], last);
    }
  }

  /** A response without headers has the status line and an empty line as its head. */
  lemma NoHeadersHead(s: StatusCode)
    ensures Head(s, []) == StatusLine(s) + "\r\n\r\n"
  {
  }

  /** The head of the 200 response without headers, spelled out. */
  lemma OkHead()
    ensures Head(OK, []) == "HTTP/1.1 200 OK\r\n\r\n"
  {
  }

  /** The status line holds no CR. */
  lemma StatusLineNoCr(s: StatusCode)
    ensures !Contains(StatusLine(s), EOL)
  {
    var digits := s.CodeText();
    assert NoCr("HTTP/1.1 ") && NoCr(" ") && NoCr(digits);
    DescriptionNoCr(s);
    NoCrAppend("HTTP/1.1 ", digits);
    NoCrAppend("HTTP/1.1 " + digits, " ");
    NoCrAppend("HTTP/1.1 " + digits + " ", s.Description());
    NoCrNoEol(StatusLine(s));
  }

  lemma DescriptionNoCr(s: StatusCode)
    ensures NoCr(s.Description())
  {
    match s
    case SwitchingProtocols =>
    case OK =>
    case NotFound =>
    case InternalError =>
  }

  /** A CRLF-free first line, plain header lines and two empty lines split back apart. */
  lemma HeadShapeReadsBack(first: string, headers: seq<Header>)
    requires !Contains(first, EOL)
    requires forall k :: 0 <= k < |headers| ==> PlainHeader(headers[k])
    ensures SplitOn(first + HeaderBlock(headers) + EOL + EOL, EOL) == [first] + HeaderLines(headers) + ["", ""]
  {
    HeadShapeIsJoin(first, headers);
    PlainHeaderLines(headers);
    JoinedLinesSplit(first, HeaderLines(headers));
  }

  /** A CRLF-free first line, CRLF-free lines and two empty lines, joined by CRLF, split back apart. */
  lemma JoinedLinesSplit(first: string, hs: seq<string>)
    requires !Contains(first, EOL)
    requires forall k :: 0 <= k < |hs| ==> !Contains(hs[k], EOL)
    ensures SplitOn(Join([first] + hs + ["", ""], EOL), EOL) == [first] + hs + ["", ""]
  {
    LinesNoEol(first, hs);
    assert FirstCharUnique(EOL);
    SplitJoin([first] + hs + ["", ""], EOL);
  }

  /** No line of the head holds a CRLF. */
  lemma LinesNoEol(first: string, hs: seq<string>)
    requires !Contains(first, EOL)
    requires forall k :: 0 <= k < |hs| ==> !Contains(hs[k], EOL)
    ensures forall k :: 0 <= k < |[first] + hs + ["", ""]| ==> !Contains(([first] + hs + ["", ""])[k], EOL)
  {
    var parts := [first] + hs + ["", ""];
    NoCrNoEol("");
    forall k | 0 <= k < |parts| ensures !Contains(parts[k], EOL) {
      if k == 0 {
        assert parts[k] == first;
      } else if k <= |hs| {
        assert parts[k] == hs[k - 1];
      } else {
        assert parts[k] == "";
      }
    }
  }

  /**
   * The head reads back as the status line and then the headers: split at
   * CRLF it gives the status line, one line per plain header (each parsing
   * back to that header) and two empty lines.
   */
  lemma HeadReadsBack(s: StatusCode, headers: seq<Header>)
    requires forall k :: 0 <= k < |headers| ==> PlainHeader(headers[k])
    ensures SplitOn(Head(s, headers), EOL) == [StatusLine(s)] + HeaderLines(headers) + ["", ""]
    ensures Separated(HeaderLines(headers)) && HeaderList(HeaderLines(headers)) == headers
  {
    StatusLineNoCr(s);
    HeadShapeReadsBack(StatusLine(s), headers);
    HeaderListOfLines(headers);
  }

  /** For an ASCII head, the output is one byte per head character followed by the body. */
  lemma AsciiOutputLength(s: StatusCode, headers: seq<Header>, body: seq<byte>)
    requires IsAscii(Head(s, headers))
    ensures |Utf8(Head(s, headers)) + body| == |Head(s, headers)| + |body|
    ensures (Utf8(Head(s, headers)) + body)[|Head(s, headers)|..] == body
  {
    Utf8Ascii(Head(s, headers));
  }
}
