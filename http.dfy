/**
 * The constants of the micro HTTP server: the line terminator and the
 * closed set of status codes it answers with.
 */
module Http {
  import opened Text

  /** The line terminator of the HTTP message layer. */
  const EOL: string := "\r\n"

  /**
   * The four status values `uHTTP.StatusCode` defines as static instances;
   * its constructor is private, so no other value exists, and a datatype
   * with one constructor per instance models that closed set.
   */
  datatype StatusCode = SwitchingProtocols | OK | NotFound | InternalError
  {
    /** The numeric status code. */
    function Code(): (c: int)
      ensures 100 <= c < 600
    {
      match this
      case SwitchingProtocols => 101
      case OK => 200
      case NotFound => 404
      case InternalError => 500
    }

    /** The code as `string.Format` writes it, in decimal. */
    function CodeText(): (t: string)
      ensures |t| == 3 && forall k :: 0 <= k < 3 ==> '0' <= t[k] <= '9'
    {
      match this
      case SwitchingProtocols => "101"
      case OK => "200"
      case NotFound => "404"
      case InternalError => "500"
    }

    /** The reason phrase sent after the code. */
    function Description(): (d: string)
      ensures |d| > 0
    {
      match this
      case SwitchingProtocols => "Switching Protocols"
      case OK => "OK"
      case NotFound => "Not Found"
      case InternalError => "Internal Server Error"
    }
  }

  /** Two status values are the same exactly when their codes are. */
  lemma CodeInjective(a: StatusCode, b: StatusCode)
    ensures a.Code() == b.Code() <==> a == b
  {
  }

  /** The code text is the decimal representation of the code. */
  lemma CodeTextDecimal(s: StatusCode)
    ensures s.CodeText() == NatToString(s.Code())
  {
    ThreeDigits(s.Code());
  }

  /** A three-digit number is written as its hundreds, tens and units digits. */
  lemma ThreeDigits(n: nat)
    requires 100 <= n < 1000
    ensures NatToString(n) == [DigitChar(n / 100), DigitChar(n / 10 % 10), DigitChar(n % 10)]
  {
    assert n / 10 / 10 == n / 100;
    assert NatToString(n / 100) == [DigitChar(n / 100)];
  }

  /** The codes in use are 101, 200, 404 and 500; each has one reason phrase. */
  lemma StatusCodeTable(s: StatusCode)
    ensures s.Code() in {101, 200, 404, 500}
    ensures s.Code() == 101 <==> s.Description() == "Switching Protocols"
    ensures s.Code() == 200 <==> s.Description() == "OK"
    ensures s.Code() == 404 <==> s.Description() == "Not Found"
    ensures s.Code() == 500 <==> s.Description() == "Internal Server Error"
  {
  }
}
