/**
 * `uHTTP.Request.TryParse`: the request text is cut into lines at every
 * CRLF; the first line must match the request-line pattern, the lines up
 * to the first empty line are `": "`-separated headers, and the non-empty
 * lines after it form the body.
 */
module HttpRequest {
  import opened Wrappers
  import opened Text
  import opened Http

  datatype Header = Header(key: string, value: string)

  /** A parsed request; its properties are only set while parsing. */
  datatype Request = Request(verb: string, url: string, headers: seq<Header>, body: string)

  /**
   * Why parsing throws: a header line without `": "` (the index of the
   * value is out of range) or a key already present in the dictionary.
   */
  datatype ParseError = MissingSeparator | DuplicateKey

  /** `null` for a text that is not a request, a request, or an exception. */
  datatype ParseOutcome = NotHttp | Parsed(request: Request) | Throws(error: ParseError)

  /**
   * The pattern `[GET|HEAD|POST|PUT|DELETE] /.* HTTP/1.1` opens with a
   * character class, so it asks for ONE of these characters, not one of
   * the method names.
   */
  predicate MethodClassChar(c: char)
  {
    c in "GET|HEAD|POST|PUT|DELETE"
  }

  /**
   * The pattern matches `line` from position `i`, with `.*` covering
   * `line[i + 3..j]`; `.` matches any character but a line feed.
   */
  predicate MatchesAt(line: string, i: nat, j: nat)
  {
    && i + 3 <= j && j + 9 <= |line|
    && MethodClassChar(line[i]) && line[i + 1] == ' ' && line[i + 2] == '/'
    && (forall k :: i + 3 <= k < j ==> line[k] != '\n')
    && line[j..j + 7] == " HTTP/1" && line[j + 7] != '\n' && line[j + 8] == '1'
  }

  /** `Regex.IsMatch`: the pattern is not anchored, so it may match anywhere. */
  predicate RequestLineMatches(line: string)
  {
    exists i, j | 0 <= i < |line| && 0 <= j < |line| :: MatchesAt(line, i, j)
  }

  /** Whether some header already has key `k`. */
  predicate HasKey(headers: seq<Header>, k: string)
  {
    exists i :: 0 <= i < |headers| && headers[i].key == k
  }

  /** No two headers share a key. */
  predicate DistinctKeys(headers: seq<Header>)
  {
    forall a, b :: 0 <= a < b < |headers| ==> headers[a].key != headers[b].key
  }

  /** A header line: the key before the first `": "`, the value up to the next one. */
  function KeyValue(line: string): (h: Header)
    requires Contains(line, ": ")
  {
    SplitOnSome(line, ": ");
    var kv := SplitOn(line, ": ");
    Header(kv[0], kv[1])
  }

  /**
   * The loop of `TryParse` from line `i` on, with `isData` set once an
   * empty line was seen; `headers` and `body` are what was gathered so far.
   */
  function ParseLines(lines: seq<string>, i: nat, isData: bool, headers: seq<Header>, body: string)
    : (r: Result<(seq<Header>, string), ParseError>)
    requires i <= |lines|
    decreases |lines| - i
  {
    if i == |lines| then Ok((headers, body))
    else if lines[i] == "" then ParseLines(lines, i + 1, true, headers, body)
    else if isData then
      ParseLines(lines, i + 1, true, headers, body + (if body == "" then "" else EOL) + lines[i])
    else
      var kv := SplitOn(lines[i], ": ");
      if |kv| < 2 then Err(MissingSeparator)
      else if HasKey(headers, kv[0]) then Err(DuplicateKey)
      else ParseLines(lines, i + 1, false, headers + [Header(kv[0], kv[1])], body)
  }

  /** The first line of a match holds a space, so its `Split(' ')` has two fields. */
  lemma MatchHasTwoFields(line: string)
    requires RequestLineMatches(line)
    ensures |SplitChar(line, ' ')| >= 2
  {
    var i, j :| 0 <= i < |line| && 0 <= j < |line| && MatchesAt(line, i, j);
    assert OccursAt(line, " ", i + 1) by { assert line[i + 1..i + 2] == [line[i + 1]]; }
    SplitOnSome(line, " ");
  }

  /** What `TryParse` does with the text `str`. */
  function ParseRequest(str: string): (r: ParseOutcome)
    ensures r.NotHttp? <==> !RequestLineMatches(SplitOn(str, EOL)[0])
    ensures r.Parsed? ==> DistinctKeys(r.request.headers)
  {
    var lines := SplitOn(str, EOL);
    if !RequestLineMatches(lines[0]) then NotHttp
    else
      MatchHasTwoFields(lines[0]);
      ParseLinesShape(lines);
      var e := FirstEmpty(lines, 1);
      assert HeadersOk(lines[1..e], []) ==> [] + HeaderList(lines[1..e]) == HeaderList(lines[1..e]);
      var fields := SplitChar(lines[0], ' ');
      match ParseLines(lines, 1, false, [], "")
      case Ok((headers, body)) => Parsed(Request(fields[0], fields[1], headers, body))
      case Err(e) => Throws(e)
  }

  /**
   * `TryParse`: the loop over the lines, flipping `isData` at the first
   * empty line, appending body lines and adding header entries.
   */
  method TryParse(str: string) returns (r: ParseOutcome)
    ensures r == ParseRequest(str)
  {
    var lines := SplitOn(str, EOL);
    if !RequestLineMatches(lines[0]) {
      return NotHttp;
    }
    MatchHasTwoFields(lines[0]);
    var verb := SplitChar(lines[0], ' ')[0];
    var url := SplitChar(lines[0], ' ')[1];
    var parsed := ParseLineLoop(lines);
    match parsed
    case Ok((headers, body)) =>
      return Parsed(Request(verb, url, headers, body));
    case Err(e) =>
      return Throws(e);
  }

  /** The loop of `TryParse` over the lines after the request line. */
  method ParseLineLoop(lines: seq<string>) returns (r: Result<(seq<Header>, string), ParseError>)
    requires 1 <= |lines|
    ensures r == ParseLines(lines, 1, false, [], "")
  {
    var headers: seq<Header> := [];
    var body := "";
    var isData := false;
    var i := 1;
    while i < |lines|
      invariant 1 <= i <= |lines|
      invariant ParseLines(lines, i, isData, headers, body) == ParseLines(lines, 1, false, [], "")
      decreases |lines| - i
    {
      if lines[i] == "" {
        isData := true;
      } else if isData {
        body := body + (if body == "" then "" else EOL) + lines[i];
      } else {
        var keyValuePair := SplitOn(lines[i], ": ");
        if |keyValuePair| < 2 {
          return Err(MissingSeparator);
        }
        if HasKey(headers, keyValuePair[0]) {
          return Err(DuplicateKey);
        }
        headers := headers + [Header(keyValuePair[0], keyValuePair[1])];
      }
      i := i + 1;
    }
    return Ok((headers, body));
  }

  // Declarative description of the parse.

  /** The lines that are not empty, in order. */
  function NonEmpty(lines: seq<string>): (r: seq<string>)
    ensures forall k :: 0 <= k < |r| ==> r[k] != ""
    ensures |r| <= |lines|
  {
    if lines == [] then []
    else if lines[0] == "" then NonEmpty(lines[1..])
    else [lines[0]] + NonEmpty(lines[1..])
  }

  /** Every line holds the separator `": "`. */
  predicate Separated(lines: seq<string>)
  {
    forall k :: 0 <= k < |lines| ==> Contains(lines[k], ": ")
  }

  /** The headers of a run of header lines, in order. */
  function HeaderList(lines: seq<string>): (r: seq<Header>)
    requires Separated(lines)
    ensures |r| == |lines|
  {
    if lines == [] then [] else [KeyValue(lines[0])] + HeaderList(lines[1..])
  }

  /** The header lines all hold the separator and add no key twice to `headers`. */
  predicate HeadersOk(lines: seq<string>, headers: seq<Header>)
  {
    Separated(lines) && DistinctKeys(headers + HeaderList(lines))
  }

  /** `b` and `t` joined by CRLF, where an empty side adds no terminator. */
  function AppendLine(b: string, t: string): string
  {
    if b == "" then t else if t == "" then b else b + EOL + t
  }

  lemma JoinNonEmpty(ls: seq<string>)
    requires forall k :: 0 <= k < |ls| ==> ls[k] != ""
    ensures Join(ls, EOL) == "" <==> ls == []
  {
  }

  /** After the first empty line, the non-empty lines are joined with CRLF. */
  lemma {:induction false} BodyPhase(lines: seq<string>, i: nat, headers: seq<Header>, body: string)
    requires i <= |lines|
    ensures ParseLines(lines, i, true, headers, body)
      == Ok((headers, AppendLine(body, Join(NonEmpty(lines[i..]), EOL))))
    decreases |lines| - i
  {
    if i == |lines| {
      assert lines[i..] == [];
    } else {
      assert lines[i..][1..] == lines[i + 1..];
      var l := lines[i];
      var rest := NonEmpty(lines[i + 1..]);
      if l == "" {
        BodyPhase(lines, i + 1, headers, body);
      } else {
        var body' := body + (if body == "" then "" else EOL) + l;
        BodyPhase(lines, i + 1, headers, body');
        JoinNonEmpty(rest);
        assert NonEmpty(lines[i..]) == [l] + rest;
        assert |body'| > 0;
        if rest != [] {
          var t := Join(rest, EOL);
          assert ([l] + rest)[1..] == rest;
          assert Join([l] + rest, EOL) == l + EOL + t;
          assert AppendLine(body', t) == body' + EOL + t;
          if body == "" {
            assert body' == l;
          } else {
            assert body' + EOL + t == body + EOL + (l + EOL + t);
          }
        } else {
          assert Join([l], EOL) == l;
          assert AppendLine(body', "") == body';
          if body == "" {
            assert body' == l;
          } else {
            assert body' == body + EOL + l;
          }
        }
      }
    }
  }

  /** A key already present among `headers` repeats in any extension of them. */
  lemma RepeatedKey(headers: seq<Header>, h: Header, tail: seq<Header>)
    requires HasKey(headers, h.key)
    ensures !DistinctKeys(headers + ([h] + tail))
  {
    var a :| 0 <= a < |headers| && headers[a].key == h.key;
    var all := headers + ([h] + tail);
    assert all[a].key == all[|headers|].key;
  }

  /** A key new to distinct headers keeps them distinct. */
  lemma FreshKey(headers: seq<Header>, h: Header)
    requires DistinctKeys(headers) && !HasKey(headers, h.key)
    ensures DistinctKeys(headers + [h])
  {
    var all := headers + [h];
    forall a, b | 0 <= a < b < |all| ensures all[a].key != all[b].key {
      if b == |headers| {
        assert all[a] == headers[a];
      } else {
        assert all[a] == headers[a] && all[b] == headers[b];
      }
    }
  }

  /** A header line without the separator throws. */
  lemma HeaderStepMissing(lines: seq<string>, i: nat, e: nat, headers: seq<Header>)
    requires i < e <= |lines| && lines[i] != "" && !Contains(lines[i], ": ")
    ensures ParseLines(lines, i, false, headers, "").Err?
    ensures !Separated(lines[i..e])
  {
    SplitOnNone(lines[i], ": ");
    assert lines[i..e][0] == lines[i];
  }

  /** A header line repeating a key throws. */
  lemma HeaderStepDuplicate(lines: seq<string>, i: nat, e: nat, headers: seq<Header>)
    requires i < e <= |lines| && lines[i] != "" && Contains(lines[i], ": ")
    requires HasKey(headers, KeyValue(lines[i]).key)
    ensures ParseLines(lines, i, false, headers, "").Err?
    ensures !HeadersOk(lines[i..e], headers)
  {
    SplitOnSome(lines[i], ": ");
    var ls := lines[i..e];
    assert ls[0] == lines[i];
    if Separated(ls) {
      RepeatedKey(headers, KeyValue(lines[i]), HeaderList(ls[1..]));
    }
  }

  /** A header line with a new key is added, and the rest is checked against the extended headers. */
  lemma HeaderStepFresh(lines: seq<string>, i: nat, e: nat, headers: seq<Header>)
    requires i < e <= |lines| && lines[i] != "" && Contains(lines[i], ": ")
    requires !HasKey(headers, KeyValue(lines[i]).key)
    ensures ParseLines(lines, i, false, headers, "")
      == ParseLines(lines, i + 1, false, headers + [KeyValue(lines[i])], "")
    ensures HeadersOk(lines[i..e], headers) <==> HeadersOk(lines[i + 1..e], headers + [KeyValue(lines[i])])
    ensures HeadersOk(lines[i..e], headers) ==>
      headers + HeaderList(lines[i..e]) == headers + [KeyValue(lines[i])] + HeaderList(lines[i + 1..e])
  {
    SplitOnSome(lines[i], ": ");
    var ls := lines[i..e];
    assert ls[0] == lines[i];
    assert ls[1..] == lines[i + 1..e];
    assert Separated(ls) <==> Separated(ls[1..]);
    if Separated(ls) {
      assert headers + HeaderList(ls) == headers + [KeyValue(lines[i])] + HeaderList(ls[1..]);
    }
  }

  /**
   * Before the first empty line at `e`, parsing goes on to `e` with the
   * headers of the lines when every line has the separator and no key
   * repeats, and throws otherwise.
   */
  lemma {:induction false} HeaderPhase(lines: seq<string>, i: nat, e: nat, headers: seq<Header>)
    requires i <= e <= |lines|
    requires forall k :: i <= k < e ==> lines[k] != ""
    requires DistinctKeys(headers)
    ensures HeadersOk(lines[i..e], headers) ==>
      ParseLines(lines, i, false, headers, "") == ParseLines(lines, e, false, headers + HeaderList(lines[i..e]), "")
    ensures !HeadersOk(lines[i..e], headers) ==> ParseLines(lines, i, false, headers, "").Err?
    decreases e - i
  {
    if i == e {
      assert lines[i..e] == [];
      assert headers + [] == headers;
    } else if !Contains(lines[i], ": ") {
      HeaderStepMissing(lines, i, e, headers);
    } else if HasKey(headers, KeyValue(lines[i]).key) {
      HeaderStepDuplicate(lines, i, e, headers);
    } else {
      FreshKey(headers, KeyValue(lines[i]));
      HeaderStepFresh(lines, i, e, headers);
      HeaderPhase(lines, i + 1, e, headers + [KeyValue(lines[i])]);
    }
  }

  /** At the first empty line, or at the end, the header loop is over and cannot throw. */
  lemma AfterHeaders(lines: seq<string>, e: nat, headers: seq<Header>)
    requires e <= |lines| && (e < |lines| ==> lines[e] == "")
    ensures ParseLines(lines, e, false, headers, "")
      == Ok((headers, if e == |lines| then "" else Join(NonEmpty(lines[e + 1..]), EOL)))
  {
    if e < |lines| {
      BodyPhase(lines, e + 1, headers, "");
    }
  }

  /** The index of the first empty line at or after `i`, or `|lines|`. */
  function FirstEmpty(lines: seq<string>, i: nat): (e: nat)
    requires i <= |lines|
    ensures i <= e <= |lines|
    ensures forall k :: i <= k < e ==> lines[k] != ""
    ensures e < |lines| ==> lines[e] == ""
    decreases |lines| - i
  {
    if i == |lines| || lines[i] == "" then i else FirstEmpty(lines, i + 1)
  }

  /** The body gathered after the first empty line at `e`: its non-empty lines joined by CRLF. */
  function BodyOf(lines: seq<string>, e: nat): string
    requires e <= |lines|
  {
    if e == |lines| then "" else Join(NonEmpty(lines[e + 1..]), EOL)
  }

  /**
   * The line loop succeeds exactly when the header lines before the first
   * empty line all hold `": "` and repeat no key, and then yields their
   * headers and the body after that line.
   */
  lemma ParseLinesShape(lines: seq<string>)
    requires |lines| >= 1
    ensures var e := FirstEmpty(lines, 1);
      && (ParseLines(lines, 1, false, [], "").Ok? <==> HeadersOk(lines[1..e], []))
      && (HeadersOk(lines[1..e], []) ==>
            ParseLines(lines, 1, false, [], "") == Ok((HeaderList(lines[1..e]), BodyOf(lines, e))))
  {
    var e := FirstEmpty(lines, 1);
    HeaderPhase(lines, 1, e, []);
    if HeadersOk(lines[1..e], []) {
      assert [] + HeaderList(lines[1..e]) == HeaderList(lines[1..e]);
      AfterHeaders(lines, e, HeaderList(lines[1..e]));
    }
  }

  /**
   * The headers are the lines between the request line and the first empty
   * line, the body the non-empty lines after it joined by CRLF; parsing
   * throws exactly when one of those header lines lacks `": "` or repeats
   * a key.
   */
  lemma ParseShape(str: string)
    ensures var lines := SplitOn(str, EOL);
      var e := FirstEmpty(lines, 1);
      && (ParseRequest(str) == NotHttp <==> !RequestLineMatches(lines[0]))
      && (ParseRequest(str).Throws? <==> RequestLineMatches(lines[0]) && !HeadersOk(lines[1..e], []))
      && (ParseRequest(str).Parsed? ==>
            && Separated(lines[1..e])
            && ParseRequest(str).request.headers == HeaderList(lines[1..e])
            && ParseRequest(str).request.body == BodyOf(lines, e))
  {
    ParseLinesShape(SplitOn(str, EOL));
  }

  /** With no empty line, every line after the first is a header and the body is empty. */
  lemma NoEmptyLineNoBody(str: string)
    requires forall k :: 0 <= k < |SplitOn(str, EOL)| ==> SplitOn(str, EOL)[k] != ""
    requires ParseRequest(str).Parsed?
    ensures ParseRequest(str).request.body == ""
    ensures |ParseRequest(str).request.headers| == |SplitOn(str, EOL)| - 1
  {
    ParseShape(str);
  }

  // Round trip: a request written out in this format parses back.

  /** A header line `key: value`. */
  function HeaderLine(h: Header): string
  {
    h.key + ": " + h.value
  }

  /** The header lines of `headers`, in order. */
  function HeaderLines(headers: seq<Header>): (r: seq<string>)
    ensures |r| == |headers|
    ensures forall k :: 0 <= k < |headers| ==> r[k] == HeaderLine(headers[k])
  {
    if headers == [] then [] else [HeaderLine(headers[0])] + HeaderLines(headers[1..])
  }

  /** The request text: request line, header lines, an empty line, the body lines. */
  function FormatRequest(verb: string, url: string, headers: seq<Header>, bodyLines: seq<string>): string
  {
    Join([verb + " " + url + " HTTP/1.1"] + HeaderLines(headers) + [""] + bodyLines, EOL)
  }

  predicate NoCr(s: string)
  {
    forall k :: 0 <= k < |s| ==> s[k] != '\r'
  }

  /** Texts without CR concatenate to a text without CR. */
  lemma NoCrAppend(a: string, b: string)
    requires NoCr(a) && NoCr(b)
    ensures NoCr(a + b)
  {
    forall k | 0 <= k < |a + b| ensures (a + b)[k] != '\r' {
      if k < |a| {
        assert (a + b)[k] == a[k];
      } else {
        assert (a + b)[k] == b[k - |a|];
      }
    }
  }

  lemma NoCrNoEol(s: string)
    requires NoCr(s)
    ensures !Contains(s, EOL)
  {
    forall j ensures !OccursAt(s, EOL, j) {
      if 0 <= j && j + 2 <= |s| {
        assert s[j..j + 2][0] == s[j];
      }
    }
    NotContains(s, EOL);
  }

  /** A request method the pattern accepts: ending in a class character, without spaces. */
  predicate MethodToken(m: string)
  {
    |m| > 0 && MethodClassChar(m[|m| - 1]) && NoCr(m) && forall k :: 0 <= k < |m| ==> m[k] != ' '
  }

  /** A URL the pattern accepts: rooted, without spaces or line breaks. */
  predicate UrlToken(u: string)
  {
    |u| > 0 && u[0] == '/' && forall k :: 0 <= k < |u| ==> u[k] != ' ' && u[k] != '\n' && u[k] != '\r'
  }

  /** A header whose line parses back to it. */
  predicate PlainHeader(h: Header)
  {
    NoCr(h.key) && NoCr(h.value) && !Contains(h.key, ": ") && !Contains(h.value, ": ")
  }

  lemma NoSpaceNoSplit(s: string)
    requires forall k :: 0 <= k < |s| ==> s[k] != ' '
    ensures SplitOn(s, " ") == [s] && !Contains(s, " ")
  {
    forall j ensures !OccursAt(s, " ", j) {
      if 0 <= j && j + 1 <= |s| {
        assert s[j..j + 1][0] == s[j];
      }
    }
    NotContains(s, " ");
    SplitOnNone(s, " ");
  }

  /** The request line of a formatted request matches the pattern. */
  lemma RequestLineMatchesFormat(m: string, u: string)
    requires MethodToken(m) && UrlToken(u)
    ensures RequestLineMatches(m + " " + u + " HTTP/1.1")
  {
    var line := m + " " + u + " HTTP/1.1";
    var i, j := |m| - 1, |m| + 1 + |u|;
    assert line[j..j + 7] == " HTTP/1";
    assert line[j + 7] == '.' && line[j + 8] == '1';
    assert line[i] == m[|m| - 1] && line[i + 1] == ' ' && line[i + 2] == u[0];
    assert forall k :: i + 3 <= k < j ==> line[k] == u[k - |m| - 1];
    assert MatchesAt(line, i, j);
  }

  /** The request line of a formatted request splits into method and URL. */
  lemma RequestLineSplit(m: string, u: string)
    requires MethodToken(m) && UrlToken(u)
    ensures var f := SplitChar(m + " " + u + " HTTP/1.1", ' '); |f| >= 2 && f[0] == m && f[1] == u
  {
    NoSpaceNoSplit(m);
    NoSpaceNoSplit(u);
    assert FirstCharUnique(" ");
    assert m + " " + u + " HTTP/1.1" == m + " " + (u + " " + "HTTP/1.1");
    SplitTwoSeparators(m, " ", u, "HTTP/1.1");
  }

  /** Two pieces without the separator come out first when split off a text. */
  lemma SplitTwoSeparators(a: string, sep: string, b: string, c: string)
    requires FirstCharUnique(sep) && !Contains(a, sep) && !Contains(b, sep)
    ensures var f := SplitOn(a + sep + (b + sep + c), sep); |f| >= 2 && f[0] == a && f[1] == b
  {
    SplitOnAfter(a, sep, b + sep + c);
    SplitOnAfter(b, sep, c);
  }

  /** The request line of a formatted request holds no CRLF. */
  lemma RequestLineNoEol(m: string, u: string)
    requires MethodToken(m) && UrlToken(u)
    ensures !Contains(m + " " + u + " HTTP/1.1", EOL)
  {
    var line := m + " " + u + " HTTP/1.1";
    assert NoCr(line) by {
      forall k | 0 <= k < |line| ensures line[k] != '\r' {
        if k < |m| {
          assert line[k] == m[k];
        } else if |m| < k < |m| + 1 + |u| {
          assert line[k] == u[k - |m| - 1];
        }
      }
    }
    NoCrNoEol(line);
  }

  /** A plain header's line holds the separator and no CRLF and parses back to it. */
  lemma HeaderLineParses(h: Header)
    requires PlainHeader(h)
    ensures Contains(HeaderLine(h), ": ") && HeaderLine(h) != ""
    ensures KeyValue(HeaderLine(h)) == h
    ensures !Contains(HeaderLine(h), EOL)
  {
    var line := HeaderLine(h);
    assert FirstCharUnique(": ");
    SplitOnAppend(h.key, ": ", h.value);
    SplitOnNone(h.key, ": ");
    SplitOnNone(h.value, ": ");
    assert OccursAt(line, ": ", |h.key|) by { assert line[|h.key|..|h.key| + 2] == ": "; }
    assert NoCr(line) by {
      forall k | 0 <= k < |line| ensures line[k] != '\r' {
        if k < |h.key| {
          assert line[k] == h.key[k];
        } else if k >= |h.key| + 2 {
          assert line[k] == h.value[k - |h.key| - 2];
        }
      }
    }
    NoCrNoEol(line);
  }

  /** The header lines of plain headers parse back to the headers. */
  lemma {:induction false} HeaderListOfLines(headers: seq<Header>)
    requires forall k :: 0 <= k < |headers| ==> PlainHeader(headers[k])
    ensures Separated(HeaderLines(headers))
    ensures HeaderList(HeaderLines(headers)) == headers
  {
    if headers != [] {
      HeaderLineParses(headers[0]);
      HeaderListOfLines(headers[1..]);
      HeaderListCons(HeaderLine(headers[0]), HeaderLines(headers[1..]), headers[0], headers[1..]);
      assert headers == [headers[0]] + headers[1..];
    }
  }

  /** A line with the separator in front of separated lines parses to its header in front of theirs. */
  lemma HeaderListCons(line: string, tail: seq<string>, h: Header, hs: seq<Header>)
    requires Contains(line, ": ") && KeyValue(line) == h
    requires Separated(tail) && HeaderList(tail) == hs
    ensures Separated([line] + tail) && HeaderList([line] + tail) == [h] + hs
  {
    assert ([line] + tail)[1..] == tail;
  }

  lemma {:induction false} FirstEmptyIs(lines: seq<string>, i: nat, e: nat)
    requires i <= e < |lines| && lines[e] == ""
    requires forall k :: i <= k < e ==> lines[k] != ""
    ensures FirstEmpty(lines, i) == e
    decreases e - i
  {
    if i < e {
      FirstEmptyIs(lines, i + 1, e);
    }
  }

  /** Where the request line, the header lines, the empty line and the body lines sit. */
  lemma LinesLayout(first: string, hs: seq<string>, body: seq<string>)
    ensures var parts := [first] + hs + [""] + body;
      && |parts| == |hs| + 2 + |body|
      && parts[0] == first && parts[|hs| + 1] == ""
      && parts[1..|hs| + 1] == hs && parts[|hs| + 2..] == body
      && (forall k :: 1 <= k <= |hs| ==> parts[k] == hs[k - 1])
      && (forall k :: |hs| + 2 <= k < |parts| ==> parts[k] == body[k - |hs| - 2])
  {
    var p1 := [first] + hs;
    var parts := p1 + [""] + body;
    assert parts == p1 + ([""] + body);
    assert parts[..|p1|] == p1;
    assert parts[1..|hs| + 1] == p1[1..];
    assert p1[1..] == hs;
  }

  /** Lines without CRLF stay without CRLF when the empty separator line is put between them. */
  lemma PartsNoEol(first: string, hs: seq<string>, body: seq<string>)
    requires !Contains(first, EOL)
    requires forall k :: 0 <= k < |hs| ==> !Contains(hs[k], EOL)
    requires forall k :: 0 <= k < |body| ==> !Contains(body[k], EOL)
    ensures forall k :: 0 <= k < |[first] + hs + [""] + body| ==> !Contains(([first] + hs + [""] + body)[k], EOL)
  {
    var parts := [first] + hs + [""] + body;
    LinesLayout(first, hs, body);
    forall k | 0 <= k < |parts| ensures !Contains(parts[k], EOL) {
      if k == 0 {
        assert parts[k] == first;
      } else if k <= |hs| {
        assert parts[k] == hs[k - 1];
      } else if k == |hs| + 1 {
        assert parts[k] == "";
        NoCrNoEol("");
      } else {
        assert parts[k] == body[k - |hs| - 2];
      }
    }
  }

  /**
   * Lines without CRLF, joined: splitting gives them back, and the first
   * empty line after the request line is the separator line.
   */
  lemma MessageLines(first: string, hs: seq<string>, body: seq<string>)
    requires !Contains(first, EOL)
    requires forall k :: 0 <= k < |hs| ==> hs[k] != "" && !Contains(hs[k], EOL)
    requires forall k :: 0 <= k < |body| ==> !Contains(body[k], EOL)
    ensures var lines := SplitOn(Join([first] + hs + [""] + body, EOL), EOL);
      && lines == [first] + hs + [""] + body
      && FirstEmpty(lines, 1) == |hs| + 1
      && lines[0] == first && lines[1..|hs| + 1] == hs && lines[|hs| + 2..] == body
  {
    var parts := [first] + hs + [""] + body;
    PartsNoEol(first, hs, body);
    assert FirstCharUnique(EOL);
    SplitJoin(parts, EOL);
    LinesLayout(first, hs, body);
    FirstEmptyIs(parts, 1, |hs| + 1);
  }

  /** The header lines of plain headers are non-empty and hold no CRLF. */
  lemma PlainHeaderLines(headers: seq<Header>)
    requires forall k :: 0 <= k < |headers| ==> PlainHeader(headers[k])
    ensures forall k :: 0 <= k < |headers| ==>
      HeaderLines(headers)[k] != "" && !Contains(HeaderLines(headers)[k], EOL)
  {
    forall k | 0 <= k < |headers|
      ensures HeaderLines(headers)[k] != "" && !Contains(HeaderLines(headers)[k], EOL)
    {
      HeaderLineParses(headers[k]);
    }
  }

  /**
   * The lines of `str`: the request line of `m` and `u`, the header lines
   * of `headers` up to the first empty line, then `bodyLines`.
   */
  predicate RequestLinesOf(str: string, m: string, u: string, headers: seq<Header>, bodyLines: seq<string>)
  {
    var lines := SplitOn(str, EOL);
    var e := FirstEmpty(lines, 1);
    && lines[0] == m + " " + u + " HTTP/1.1"
    && lines[1..e] == HeaderLines(headers)
    && e < |lines| && lines[e + 1..] == bodyLines
  }

  /** How the text of a formatted request splits into lines. */
  lemma FormatRequestShape(m: string, u: string, headers: seq<Header>, bodyLines: seq<string>)
    requires MethodToken(m) && UrlToken(u)
    requires forall k :: 0 <= k < |headers| ==> PlainHeader(headers[k])
    requires forall k :: 0 <= k < |bodyLines| ==> NoCr(bodyLines[k])
    ensures RequestLinesOf(FormatRequest(m, u, headers, bodyLines), m, u, headers, bodyLines)
  {
    RequestLineNoEol(m, u);
    PlainHeaderLines(headers);
    forall k | 0 <= k < |bodyLines| ensures !Contains(bodyLines[k], EOL) {
      NoCrNoEol(bodyLines[k]);
    }
    MessageLines(m + " " + u + " HTTP/1.1", HeaderLines(headers), bodyLines);
  }

  /**
   * Parsing inverts formatting: a request written with a method token, a
   * rooted URL, plain headers with distinct keys and CR-free body lines
   * parses back to the same method, URL and headers, and to the body lines
   * with the empty ones dropped.
   */
  lemma FormatRequestRoundTrip(m: string, u: string, headers: seq<Header>, bodyLines: seq<string>)
    requires MethodToken(m) && UrlToken(u)
    requires forall k :: 0 <= k < |headers| ==> PlainHeader(headers[k])
    requires DistinctKeys(headers)
    requires forall k :: 0 <= k < |bodyLines| ==> NoCr(bodyLines[k])
    ensures ParseRequest(FormatRequest(m, u, headers, bodyLines))
      == Parsed(Request(m, u, headers, Join(NonEmpty(bodyLines), EOL)))
  {
    FormatRequestShape(m, u, headers, bodyLines);
    ParseOfLines(FormatRequest(m, u, headers, bodyLines), m, u, headers, bodyLines);
  }

  /** A text whose lines are those of a formatted request parses to that request. */
  lemma ParseOfLines(str: string, m: string, u: string, headers: seq<Header>, bodyLines: seq<string>)
    requires MethodToken(m) && UrlToken(u)
    requires forall k :: 0 <= k < |headers| ==> PlainHeader(headers[k])
    requires DistinctKeys(headers)
    requires RequestLinesOf(str, m, u, headers, bodyLines)
    ensures ParseRequest(str) == Parsed(Request(m, u, headers, Join(NonEmpty(bodyLines), EOL)))
  {
    RequestLineMatchesFormat(m, u);
    RequestLineSplit(m, u);
    HeaderListOfLines(headers);
    assert [] + headers == headers;
    ParseLinesShape(SplitOn(str, EOL));
  }

  /** Example: a request line of the pattern's form is accepted. */
  lemma GetRequestAccepted()
    ensures RequestLineMatches("GET /index.html HTTP/1.1")
  {
    var line := "GET /index.html HTTP/1.1";
    assert line[15..22] == " HTTP/1";
    assert MatchesAt(line, 2, 15);
  }

  /**
   * Example: as the character class only looks at one character, a method
   * outside the list such as OPTIONS is accepted too (through its `S`).
   */
  lemma OptionsRequestAccepted()
    ensures RequestLineMatches("OPTIONS / HTTP/1.1")
  {
    var line := "OPTIONS / HTTP/1.1";
    assert line[9..16] == " HTTP/1";
    assert MatchesAt(line, 6, 9);
  }
}
