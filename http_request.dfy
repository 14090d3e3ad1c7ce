/**
 * The HTTP switch's request object: the blocking / response-ready state, the
 * response being built, header lookup, and the reading of a request (request
 * line, header fields, body) into method, URI, path tokens, headers and content.
 */
module HttpRequests {
  import opened Wrappers
  import opened CLib

  /** `HttpRequest::CONTENT_BYTES_LIMIT`. */
  const ContentBytesLimit: nat := 40000

  const HttpStatusOk: nat := 200
  const HttpStatusCreated: nat := 201
  const HttpStatusBadRequest: nat := 400
  const HttpStatusForbidden: nat := 403
  const HttpStatusNotFound: nat := 404
  const HttpStatusNotImplemented: nat := 501

  /** An `HttpResponse`: status, header fields, body, and whether it was sent. */
  datatype Response = Response(status: nat, headers: map<string, string>, content: string, sent: bool)

  /** The response `respond()` creates on first use. */
  const NewResponse := Response(HttpStatusOk, map[], "", false)

  // ---------------------------------------------------------------------------
  // Splitting

  /** The non-empty pieces of `cur + s` between occurrences of `sep`, in order. */
  function Segments(s: string, sep: char, cur: string): (r: seq<string>)
    requires sep !in cur
    ensures forall i :: 0 <= i < |r| ==> r[i] != [] && sep !in r[i]
    decreases |s|
  {
    if s == [] then (if cur == [] then [] else [cur])
    else if s[0] == sep then (if cur == [] then [] else [cur]) + Segments(s[1..], sep, [])
    else Segments(s[1..], sep, cur + [s[0]])
  }

  /** `s` cut at every `sep`, empty pieces dropped. */
  function SplitOn(s: string, sep: char): (r: seq<string>)
    ensures forall i :: 0 <= i < |r| ==> r[i] != [] && sep !in r[i]
  {
    Segments(s, sep, [])
  }

  /** Every piece preceded by `sep`: `/uri/a/b` for the pieces `uri`, `a`, `b`. */
  function JoinWith(pieces: seq<string>, sep: char): string {
    if pieces == [] then [] else [sep] + pieces[0] + JoinWith(pieces[1..], sep)
  }

  predicate Piece(p: string, sep: char) {
    p != [] && sep !in p
  }

  lemma {:induction false} SegmentsAbsorb(t: string, rest: string, sep: char, cur: string)
    requires sep !in cur && sep !in t
    ensures Segments(t + rest, sep, cur) == Segments(rest, sep, cur + t)
    decreases |t|
  {
    if t != [] {
      assert (t + rest)[0] == t[0];
      assert (t + rest)[1..] == t[1..] + rest;
      SegmentsAbsorb(t[1..], rest, sep, cur + [t[0]]);
      assert cur + [t[0]] + t[1..] == cur + t;
    } else {
      assert t + rest == rest;
      assert cur + t == cur;
    }
  }

  lemma {:induction false} SegmentsOfJoin(pieces: seq<string>, sep: char, cur: string)
    requires sep !in cur
    requires forall i :: 0 <= i < |pieces| ==> Piece(pieces[i], sep)
    ensures Segments(JoinWith(pieces, sep), sep, cur) == (if cur == [] then [] else [cur]) + pieces
  {
    if pieces != [] {
      var t := pieces[0];
      var rest := JoinWith(pieces[1..], sep);
      assert JoinWith(pieces, sep) == [sep] + (t + rest);
      assert ([sep] + (t + rest))[1..] == t + rest;
      SegmentsAbsorb(t, rest, sep, []);
      assert [] + t == t;
      SegmentsOfJoin(pieces[1..], sep, t);
      assert pieces == [t] + pieces[1..];
    }
  }

  /** Splitting undoes joining: the path `/p1/p2/...` reads back as the pieces `p1`, `p2`, ... */
  lemma SplitJoin(pieces: seq<string>, sep: char)
    requires forall i :: 0 <= i < |pieces| ==> Piece(pieces[i], sep)
    ensures SplitOn(JoinWith(pieces, sep), sep) == pieces
  {
    SegmentsOfJoin(pieces, sep, []);
  }

  /** A line as `readLine` returns it, without its end-of-line. */
  function StripEol(line: string): (r: string)
    ensures |r| <= |line| && r == line[..|r|]
  {
    if |line| >= 2 && line[|line| - 2..] == "\r\n" then line[..|line| - 2]
    else if |line| >= 1 && line[|line| - 1] == '\n' then line[..|line| - 1]
    else line
  }

  function SkipBlanks(s: string): (r: string)
    ensures |r| <= |s| && r == s[|s| - |r|..]
    ensures r != [] ==> r[0] != ' ' && r[0] != '\t'
  {
    if s != [] && (s[0] == ' ' || s[0] == '\t') then SkipBlanks(s[1..]) else s
  }

  function IndexOfChar(s: string, c: char): (r: Option<nat>)
    ensures r.Some? ==> r.value < |s| && s[r.value] == c && c !in s[..r.value]
    ensures r.None? ==> c !in s
  {
    if s == [] then None
    else if s[0] == c then Some(0)
    else match IndexOfChar(s[1..], c)
      case None => None
      case Some(i) =>
        assert s[..i + 1] == [s[0]] + s[1..][..i];
        Some(i + 1)
  }

  // ---------------------------------------------------------------------------
  // Reading a request

  /** Method, request target and protocol of a request line (section 3.1.1 of RFC 7230). */
  datatype RequestLine = RequestLine(verb: string, target: string, protocol: string)

  function ParseRequestLine(line: string): (r: Option<RequestLine>)
    ensures r.Some? ==> SplitOn(StripEol(line), ' ') == [r.value.verb, r.value.target, r.value.protocol]
    ensures r.None? ==> |SplitOn(StripEol(line), ' ')| != 3
  {
    var words := SplitOn(StripEol(line), ' ');
    if |words| == 3 then Some(RequestLine(words[0], words[1], words[2])) else None
  }

  /** A header line `Name: value`: the name before the first colon, the value without leading blanks. */
  function ParseHeaderField(line: string): (r: Option<(string, string)>)
    ensures r.Some? ==> ':' !in r.value.0
    ensures r.None? <==> ':' !in StripEol(line)
  {
    var l := StripEol(line);
    match IndexOfChar(l, ':')
    case None => None
    case Some(i) => Some((l[..i], SkipBlanks(l[i + 1..])))
  }

  /** The body length announced by Content-Length (section 3.3.2 of RFC 7230), if any. */
  function ContentLength(headers: map<string, string>): Option<int> {
    if "Content-Length" in headers then Some(Atoi(headers["Content-Length"])) else None
  }

  /** The body: the first Content-Length bytes of the rest of the stream, nothing without the header. */
  function ReadContent(headers: map<string, string>, raw: string): (r: Option<string>)
    ensures r.Some? ==> |r.value| <= ContentBytesLimit && StartsWith(raw, r.value)
    ensures ContentLength(headers).None? ==> r == Some("")
    ensures ContentLength(headers).Some? ==>
              (r.Some? <==> 0 <= ContentLength(headers).value <= ContentBytesLimit && ContentLength(headers).value <= |raw|)
    ensures r.Some? && ContentLength(headers).Some? ==> |r.value| == ContentLength(headers).value
  {
    match ContentLength(headers)
    case None => Some("")
    case Some(n) => if 0 <= n <= ContentBytesLimit && n <= |raw| then Some(raw[..n]) else None
  }

  /** A line that ends the header block. */
  predicate BlankLine(line: string) {
    line == "" || line == "\n" || line == "\r\n"
  }

  /** The index of the first blank line: where the header block ends. */
  function FirstBlank(lines: seq<string>): (r: Option<nat>)
    ensures r.Some? ==> r.value < |lines| && BlankLine(lines[r.value])
    ensures r.Some? ==> forall j :: 0 <= j < r.value ==> !BlankLine(lines[j])
    ensures r.None? ==> forall j :: 0 <= j < |lines| ==> !BlankLine(lines[j])
  {
    if lines == [] then None
    else if BlankLine(lines[0]) then Some(0)
    else match FirstBlank(lines[1..])
      case None => None
      case Some(i) => Some(i + 1)
  }

  /**
   * The header fields of a header block added to `acc`, later fields replacing
   * earlier ones of the same name; `None` when a line has no colon.
   */
  function Fields(block: seq<string>, acc: map<string, string>): (r: Option<map<string, string>>)
    ensures r.Some? ==> acc.Keys <= r.value.Keys
    ensures r.Some? <==> AllFieldLines(block)
  {
    if block == [] then Some(acc)
    else
      AllFieldLinesTail(block);
      match ParseHeaderField(block[0])
      case None => None
      case Some(field) => Fields(block[1..], acc[field.0 := field.1])
  }

  /** Every line of the block is a header field. */
  predicate AllFieldLines(block: seq<string>) {
    forall j :: 0 <= j < |block| ==> ParseHeaderField(block[j]).Some?
  }

  lemma AllFieldLinesTail(block: seq<string>)
    requires block != []
    ensures AllFieldLines(block) <==> ParseHeaderField(block[0]).Some? && AllFieldLines(block[1..])
  {
    assert forall j :: 1 <= j < |block| ==> block[j] == block[1..][j - 1];
  }

  /** What a received request holds. */
  datatype Received = Received(verb: string, uri: string, protocol: string, tokens: seq<string>,
                               headers: map<string, string>, content: string)

  /**
   * `receive()`: `lines` are what successive `readLine` calls return and `raw`
   * the bytes `readRaw` would deliver after them. `None` when the request is
   * not valid.
   */
  function ParseRequest(lines: seq<string>, raw: string): (r: Option<Received>)
    ensures r.Some? ==> r.value.tokens == SplitOn(r.value.uri, '/')
    ensures r.Some? ==> forall i :: 0 <= i < |r.value.tokens| ==> Piece(r.value.tokens[i], '/')
    ensures r.Some? ==> |r.value.content| <= ContentBytesLimit
    ensures lines == [] ==> r.None?
  {
    if lines == [] then None
    else match ParseRequestLine(lines[0])
      case None => None
      case Some(rl) =>
        match FirstBlank(lines[1..])
        case None => None
        case Some(end) =>
          match Fields(lines[1..][..end], map[])
          case None => None
          case Some(fields) =>
            match ReadContent(fields, raw)
            case None => None
            case Some(body) => Some(Received(rl.verb, rl.target, rl.protocol, SplitOn(rl.target, '/'), fields, body))
  }

  // ---------------------------------------------------------------------------
  // The request object

  class HttpRequest {
    var valid: bool
    var blocking: bool
    /** `NULL` until `respond()` creates the response. */
    var response: Option<Response>
    var verb: string
    var uri: string
    var protocol: string
    var tokens: seq<string>
    var headers: map<string, string>
    var content: string

    /** A request before `receive()`: every text field empty. */
    constructor ()
      ensures verb == "" && uri == "" && protocol == "" && tokens == [] && headers == map[] && content == ""
      ensures !valid && !blocking && response == None
    {
      valid := false;
      blocking := false;
      response := None;
      verb := "";
      uri := "";
      protocol := "";
      tokens := [];
      headers := map[];
      content := "";
    }

    /** `isResponseReady`: a response exists and the connection is not held open. */
    predicate IsResponseReady()
      reads this
    {
      !blocking && response.Some?
    }

    method SetBlocking(b: bool)
      modifies this`blocking
      ensures blocking == b
      ensures b ==> !IsResponseReady()
      ensures !b ==> (IsResponseReady() <==> response.Some?)
    {
      blocking := b;
    }

    method IsBlocking() returns (b: bool)
      ensures b == blocking
    {
      b := blocking;
    }

    /** `getHeader`: the stored value of a present field, the empty string for an absent one. */
    function GetHeader(name: string): (value: string)
      reads this
      ensures name in headers ==> value == headers[name]
      ensures name !in headers ==> value == ""
    {
      if name in headers then headers[name] else ""
    }

    /** The response as `respond()` returns it. */
    function Current(): Response
      reads this
    {
      response.GetOr(NewResponse)
    }

    /** `respond()`: create the response on first use; later calls return the same one. */
    method Respond()
      modifies this`response
      ensures old(response).Some? ==> response == old(response)
      ensures old(response).None? ==> response == Some(NewResponse)
    {
      if response.None? {
        response := Some(NewResponse);
      }
    }

    /** `respond().setStatus(status)`. */
    method SetStatus(status: nat)
      modifies this`response
      ensures response == Some(old(Current()).(status := status))
    {
      response := Some(Current().(status := status));
    }

    /** `respond().setHeader(name, value)`. */
    method SetHeader(name: string, value: string)
      modifies this`response
      ensures response == Some(old(Current()).(headers := old(Current()).headers[name := value]))
    {
      var r := Current();
      response := Some(r.(headers := r.headers[name := value]));
    }

    /** `respond().setContent(content)`. */
    method SetContent(body: string)
      modifies this`response
      ensures response == Some(old(Current()).(content := body))
    {
      response := Some(Current().(content := body));
    }

    /** `respond().send()`. */
    method Send()
      modifies this`response
      ensures response == Some(old(Current()).(sent := true))
    {
      response := Some(Current().(sent := true));
    }

    /**
     * `receive()`: read the request line, the header fields up to the blank
     * line, and the body according to Content-Length. The fields are set only
     * when the whole request is valid.
     */
    method Receive(lines: seq<string>, raw: string) returns (ok: bool)
      modifies this`valid, this`verb, this`uri, this`protocol, this`tokens, this`headers, this`content
      ensures ok == valid && ok == ParseRequest(lines, raw).Some?
      ensures ok ==> ParseRequest(lines, raw) == Some(Received(verb, uri, protocol, tokens, headers, content))
      ensures !ok ==> verb == old(verb) && uri == old(uri) && protocol == old(protocol) && tokens == old(tokens)
                      && headers == old(headers) && content == old(content)
    {
      valid := false;
      ok := false;
      if lines == [] {
        return;
      }
      var rl := ParseRequestLine(lines[0]);
      if rl.None? {
        assert ParseRequest(lines, raw).None?;
        return;
      }
      var end := FirstBlank(lines[1..]);
      if end.None? {
        assert ParseRequest(lines, raw).None?;
        return;
      }
      var fields := ReadHeaders(lines[1..][..end.value]);
      if fields.None? {
        assert ParseRequest(lines, raw).None?;
        return;
      }
      var body := ReadContent(fields.value, raw);
      if body.None? {
        assert ParseRequest(lines, raw).None?;
        return;
      }
      var received := Received(rl.value.verb, rl.value.target, rl.value.protocol,
                               SplitOn(rl.value.target, '/'), fields.value, body.value);
      assert ParseRequest(lines, raw) == Some(received);
      Store(received);
      valid := true;
      ok := true;
    }

    /** Keep what was read. */
    method Store(received: Received)
      modifies this`verb, this`uri, this`protocol, this`tokens, this`headers, this`content
      ensures Received(verb, uri, protocol, tokens, headers, content) == received
    {
      verb := received.verb;
      uri := received.uri;
      protocol := received.protocol;
      tokens := received.tokens;
      headers := received.headers;
      content := received.content;
    }
  }

  /** `readHeaders`: the header fields of a header block, one line at a time. */
  method ReadHeaders(block: seq<string>) returns (fields: Option<map<string, string>>)
    ensures fields == Fields(block, map[])
  {
    var acc: map<string, string> := map[];
    var i := 0;
    while i < |block|
      invariant 0 <= i <= |block|
      invariant Fields(block, map[]) == Fields(block[i..], acc)
    {
      var field := ParseHeaderField(block[i]);
      if field.None? {
        assert Fields(block[i..], acc).None?;
        return None;
      }
      assert block[i..][1..] == block[i + 1..];
      acc := acc[field.value.0 := field.value.1];
      i := i + 1;
    }
    assert block[i..] == [];
    return Some(acc);
  }
  // ---------------------------------------------------------------------------
  // The requests read by the test suite

  lemma StripCrLf(l: string)
    ensures StripEol(l + "\r\n") == l
  {
    var line := l + "\r\n";
    assert line[|line| - 2..] == "\r\n";
    assert line[..|line| - 2] == l;
  }

  /** A request line reads as its three words. */
  lemma RequestLineWords(verb: string, target: string, protocol: string)
    requires Piece(verb, ' ') && Piece(target, ' ') && Piece(protocol, ' ')
    ensures ParseRequestLine(verb + " " + target + " " + protocol + "\r\n") == Some(RequestLine(verb, target, protocol))
  {
    var line := verb + " " + target + " " + protocol;
    StripCrLf(line);
    var joined := JoinWith([verb, target, protocol], ' ');
    assert [verb, target, protocol][1..] == [target, protocol];
    assert [target, protocol][1..] == [protocol];
    assert JoinWith([protocol], ' ') == [' '] + protocol;
    assert JoinWith([target, protocol], ' ') == [' '] + target + [' '] + protocol;
    assert joined == [' '] + line;
    SplitJoin([verb, target, protocol], ' ');
    assert Segments(joined, ' ', []) == Segments(line, ' ', []);
  }

  lemma {:induction false} IndexPastPrefix(p: string, rest: string, c: char)
    requires c !in p && rest != [] && rest[0] == c
    ensures IndexOfChar(p + rest, c) == Some(|p|)
  {
    if p != [] {
      assert (p + rest)[1..] == p[1..] + rest;
      IndexPastPrefix(p[1..], rest, c);
    } else {
      assert p + rest == rest;
    }
  }

  lemma SkipOneBlank(value: string)
    requires value != [] ==> value[0] != ' ' && value[0] != '\t'
    ensures SkipBlanks([' '] + value) == value
  {
    assert ([' '] + value)[1..] == value;
  }

  lemma ColonAfterName(name: string, value: string)
    requires ':' !in name
    ensures IndexOfChar(name + ": " + value, ':') == Some(|name|)
    ensures (name + ": " + value)[..|name|] == name
    ensures (name + ": " + value)[|name| + 1..] == [' '] + value
  {
    var rest := [':', ' '] + value;
    assert ": " == [':', ' '];
    assert name + [':', ' '] + value == name + rest;
    IndexPastPrefix(name, rest, ':');
    SliceAfterPrefix(name, rest);
  }

  lemma SliceAfterPrefix(p: string, rest: string)
    requires |rest| >= 1
    ensures (p + rest)[..|p|] == p
    ensures (p + rest)[|p| + 1..] == rest[1..]
  {
  }

  /** A header line `name: value` reads back as the field `name` with the value `value`. */
  lemma HeaderFieldLine(name: string, value: string)
    requires ':' !in name
    requires value != [] ==> value[0] != ' ' && value[0] != '\t'
    ensures ParseHeaderField(name + ": " + value + "\r\n") == Some((name, value))
  {
    StripCrLf(name + ": " + value);
    ColonAfterName(name, value);
    SkipOneBlank(value);
  }

  lemma ContentLengthField()
    ensures ParseHeaderField("Content-Length: 19\r\n") == Some(("Content-Length", "19"))
  {
    assert ':' !in "Content-Length";
    HeaderFieldLine("Content-Length", "19");
    assert "Content-Length: 19\r\n" == "Content-Length" + ": " + "19" + "\r\n";
  }

  lemma FirstTestHeaders()
    ensures Fields(["Content-Length: 19\r\n"], map[]) == Some(map["Content-Length" := "19"])
  {
    ContentLengthField();
    assert ["Content-Length: 19\r\n"][1..] == [];
  }

  lemma DigitsNineteen()
    ensures AllDigits("19") && DigitsValue("19") == 19
  {
    var s := "19";
    assert IsDigit(s[0]) && IsDigit(s[1]);
    assert s[..1] == "1" && s[..1][..0] == [];
    assert DigitsValue(s[..1]) == 1;
  }

  lemma AtoiNineteen()
    ensures Atoi("19") == 19
  {
    DigitsNineteen();
    AtoiOfDigits("19");
  }

  lemma FirstTestContent()
    ensures ReadContent(map["Content-Length" := "19"], "payload uri a b c\r\n") == Some("payload uri a b c\r\n")
  {
    AtoiNineteen();
    assert ContentLength(map["Content-Length" := "19"]) == Some(19);
    assert |"payload uri a b c\r\n"| == 19;
    assert "payload uri a b c\r\n"[..19] == "payload uri a b c\r\n";
  }

  lemma FirstTestLineText()
    ensures "GET" + " " + "/uri/a/b/c" + " " + "HTTP/1.1" + "\r\n" == "GET /uri/a/b/c HTTP/1.1\r\n"
    ensures Piece("GET", ' ') && Piece("/uri/a/b/c", ' ') && Piece("HTTP/1.1", ' ')
  {
  }

  lemma FirstTestLine()
    ensures ParseRequestLine("GET /uri/a/b/c HTTP/1.1\r\n") == Some(RequestLine("GET", "/uri/a/b/c", "HTTP/1.1"))
  {
    FirstTestLineText();
    RequestLineWords("GET", "/uri/a/b/c", "HTTP/1.1");
  }

  lemma FirstTestTokens()
    ensures SplitOn("/uri/a/b/c", '/') == ["uri", "a", "b", "c"]
  {
    assert JoinWith(["uri", "a", "b", "c"], '/') == "/uri/a/b/c";
    SplitJoin(["uri", "a", "b", "c"], '/');
  }

  /** `GET /uri/a/b/c` with a 19-byte body: method GET, path tokens uri, a, b, c, the body as announced. */
  lemma FirstTestRequest()
    ensures ParseRequest(["GET /uri/a/b/c HTTP/1.1\r\n", "Content-Length: 19\r\n", "\r\n"], "payload uri a b c\r\n")
            == Some(Received("GET", "/uri/a/b/c", "HTTP/1.1", ["uri", "a", "b", "c"],
                             map["Content-Length" := "19"], "payload uri a b c\r\n"))
  {
    FirstTestLine();
    FirstTestTokens();
    var lines := ["GET /uri/a/b/c HTTP/1.1\r\n", "Content-Length: 19\r\n", "\r\n"];
    assert FirstBlank(lines[1..]) == Some(1);
    assert lines[1..][..1] == ["Content-Length: 19\r\n"];
    FirstTestHeaders();
    FirstTestContent();
  }

  lemma SecondTestLine()
    ensures ParseRequestLine("GET /uri HTTP/1.1\r\n") == Some(RequestLine("GET", "/uri", "HTTP/1.1"))
  {
    assert "GET /uri HTTP/1.1\r\n" == "GET" + " " + "/uri" + " " + "HTTP/1.1" + "\r\n";
    RequestLineWords("GET", "/uri", "HTTP/1.1");
  }

  lemma SecondTestTokens()
    ensures SplitOn("/uri", '/') == ["uri"]
  {
    assert JoinWith(["uri"], '/') == "/uri";
    SplitJoin(["uri"], '/');
  }

  /** `GET /uri` without a body: a URI of four characters, the single token uri, empty content. */
  lemma SecondTestRequest()
    ensures ParseRequest(["GET /uri HTTP/1.1\r\n", "\r\n"], "")
            == Some(Received("GET", "/uri", "HTTP/1.1", ["uri"], map[], ""))
  {
    SecondTestLine();
    SecondTestTokens();
    var lines := ["GET /uri HTTP/1.1\r\n", "\r\n"];
    assert FirstBlank(lines[1..]) == Some(0);
    assert lines[1..][..0] == [];
  }
}
