/**
 * The CGI side of `git_http_endpoint` (gitmesh/server.py): the environment
 * `git http-backend` runs in, and how its raw output, a CGI/1.1 response
 * (section 6 of RFC 3875), becomes the status, headers and body of the HTTP
 * response.
 */
module Gateway {
  import opened Wrappers
  import opened Text
  import opened Utf8
  import opened Process
  import opened RepoStore

  // ---- The CGI environment ----

  /** What the backend learns about the request. */
  datatype CgiRequest = CgiRequest(
    body: seq<byte>,
    contentType: string,
    path: string,
    queryString: string,
    remoteAddr: string,
    requestMethod: string,
    requestId: string)

  /** The first update: the request's own variables. */
  function RequestVariables(req: CgiRequest): map<string, string> {
    map[
      "CONTENT_LENGTH" := Decimal(|req.body|),
      "CONTENT_TYPE" := req.contentType,
      "GATEWAY_INTERFACE" := "CGI/1.1",
      "PATH_INFO" := req.path,
      "QUERY_STRING" := req.queryString,
      "REMOTE_ADDR" := req.remoteAddr,
      "REMOTE_USER" := "acaron",
      "REQUEST_METHOD" := req.requestMethod,
      "GITMESH_REQUEST_ID" := req.requestId
    ]
  }

  /** The second update: the backend serves the repository it runs in, whether or not it is marked for export. */
  const Exported: map<string, string> := map["GIT_PROJECT_ROOT" := ".", "GIT_HTTP_EXPORT_ALL" := "1"]

  /** Every variable the endpoint sets. */
  const CgiNames: set<string> := {
    "CONTENT_LENGTH", "CONTENT_TYPE", "GATEWAY_INTERFACE", "PATH_INFO", "QUERY_STRING",
    "REMOTE_ADDR", "REMOTE_USER", "REQUEST_METHOD", "GITMESH_REQUEST_ID",
    "GIT_PROJECT_ROOT", "GIT_HTTP_EXPORT_ALL"
  }

  /** The environment after both updates: a later value for a name replaces an earlier one. */
  function Environment(ambient: map<string, string>, req: CgiRequest): map<string, string> {
    ambient + RequestVariables(req) + Exported
  }

  /** A copy of the process environment, updated in place twice. */
  method CgiEnvironment(ambient: map<string, string>, req: CgiRequest) returns (env: map<string, string>)
    ensures env == Environment(ambient, req)
  {
    env := ambient;
    env := env + RequestVariables(req);
    env := env + Exported;
  }

  /** The export pair wins over whatever the process environment holds. */
  lemma EnvironmentExports(ambient: map<string, string>, req: CgiRequest)
    ensures var env := Environment(ambient, req);
      "GIT_PROJECT_ROOT" in env && env["GIT_PROJECT_ROOT"] == "." &&
      "GIT_HTTP_EXPORT_ALL" in env && env["GIT_HTTP_EXPORT_ALL"] == "1"
  {
  }

  /** The body length is written so that it reads back as the length. */
  lemma EnvironmentContentLength(ambient: map<string, string>, req: CgiRequest)
    ensures "CONTENT_LENGTH" in Environment(ambient, req)
    ensures ParseInt(Environment(ambient, req)["CONTENT_LENGTH"]) == Some(|req.body|)
  {
    assert Environment(ambient, req)["CONTENT_LENGTH"] == Decimal(|req.body|);
    DecimalRoundTrip(|req.body|);
  }

  /** The request's own variables reach the backend unchanged. */
  lemma EnvironmentDescribesRequest(ambient: map<string, string>, req: CgiRequest)
    ensures var env := Environment(ambient, req);
      && "CONTENT_TYPE" in env && env["CONTENT_TYPE"] == req.contentType
      && "GATEWAY_INTERFACE" in env && env["GATEWAY_INTERFACE"] == "CGI/1.1"
      && "PATH_INFO" in env && env["PATH_INFO"] == req.path
      && "QUERY_STRING" in env && env["QUERY_STRING"] == req.queryString
      && "REMOTE_ADDR" in env && env["REMOTE_ADDR"] == req.remoteAddr
      && "REQUEST_METHOD" in env && env["REQUEST_METHOD"] == req.requestMethod
      && "GITMESH_REQUEST_ID" in env && env["GITMESH_REQUEST_ID"] == req.requestId
  {
    RequestVariablesValues(req);
    NotExported();
  }

  lemma RequestVariablesValues(req: CgiRequest)
    ensures var v := RequestVariables(req);
      && v["CONTENT_TYPE"] == req.contentType && v["GATEWAY_INTERFACE"] == "CGI/1.1"
      && v["PATH_INFO"] == req.path && v["QUERY_STRING"] == req.queryString
      && v["REMOTE_ADDR"] == req.remoteAddr && v["REQUEST_METHOD"] == req.requestMethod
      && v["GITMESH_REQUEST_ID"] == req.requestId
  {
  }

  lemma NotExported()
    ensures "CONTENT_TYPE" !in Exported && "GATEWAY_INTERFACE" !in Exported && "PATH_INFO" !in Exported
    ensures "QUERY_STRING" !in Exported && "REMOTE_ADDR" !in Exported && "REQUEST_METHOD" !in Exported
    ensures "GITMESH_REQUEST_ID" !in Exported
  {
  }

  /** Nothing else is added, and every other variable of the process environment is passed on as it was. */
  lemma EnvironmentKeepsAmbient(ambient: map<string, string>, req: CgiRequest)
    ensures Environment(ambient, req).Keys == ambient.Keys + CgiNames
    ensures forall k :: k in ambient && k !in CgiNames ==> Environment(ambient, req)[k] == ambient[k]
  {
  }

  // ---- The backend's response ----

  /** `\r\n\r\n`, ending the header block. */
  const Separator: seq<byte> := [13, 10, 13, 10]

  /** The ways the endpoint fails on the backend's output; there is no fallback response for any of them. */
  datatype GatewayError =
    | MissingSeparator     // unpacking the one-piece split into `head, body` (ValueError)
    | UndecodableHead      // the header block is not UTF-8 (UnicodeDecodeError)
    | HeaderWithoutColon   // `dict` given a one-element line (ValueError)
    | InvalidStatus        // `int` of the status token (ValueError)
    | BackendFailed(error: ProcessError)

  datatype BackendResponse = BackendResponse(status: int, headers: map<string, string>, body: seq<byte>)

  /** `output.split(b'\r\n\r\n', 1)` unpacked into head and body. */
  function SplitOutput(output: seq<byte>): (r: Result<(seq<byte>, seq<byte>), GatewayError>)
    ensures r.Failure? <==> Find(output, Separator).None?
    ensures r.Failure? ==> r.error == MissingSeparator
    ensures r.Success? ==> Find(output, Separator) == Some(|r.value.0|) && output == r.value.0 + Separator + r.value.1
  {
    var parts := SplitN(output, Separator, 1);
    if |parts| < 2 then Failure(MissingSeparator) else Success((parts[0], parts[1]))
  }

  /** `line.split(':', 1)` as a `dict` entry: a line without a colon has no second item. */
  function HeaderField(line: string): Option<(string, string)> {
    var parts := SplitN(line, ":", 1);
    if |parts| == 2 then Some((parts[0], parts[1])) else None
  }

  /** The name is everything before the first colon, the value everything after it, leading space included. */
  lemma HeaderFieldAtFirstColon(line: string)
    ensures HeaderField(line) == match IndexOf(line, ':')
      case None => None
      case Some(k) => Some((line[..k], line[k + 1..]))
  {
    SplitOnceAtFirst(line, ':');
  }

  /** The entries of the generator given to `dict`, line by line. */
  function HeaderFields(lines: seq<string>): (r: Option<seq<(string, string)>>)
    ensures r.Some? <==> forall i :: 0 <= i < |lines| ==> HeaderField(lines[i]).Some?
    ensures r.Some? ==> |r.value| == |lines| && forall i :: 0 <= i < |lines| ==> HeaderField(lines[i]) == Some(r.value[i])
  {
    if lines == [] then Some([])
    else match HeaderField(lines[0])
      case None => None
      case Some(f) =>
        match HeaderFields(lines[1..])
        case None => None
        case Some(rest) => Some([f] + rest)
  }

  /** The header block, split at every `\r\n`; a later line for a name replaces an earlier one. */
  function ParseHeaders(head: string): Option<map<string, string>> {
    match HeaderFields(Split(head, "\r\n"))
    case None => None
    case Some(fields) => Some(Dict(fields))
  }

  /** The integer before the first space of the stripped status value. */
  function ParseStatus(value: string): Option<int> {
    ParseInt(SplitN(Strip(value), " ", 1)[0])
  }

  /** The status code: from the `Status` header, or from `200 OK` when there is none. */
  function StatusCode(headers: map<string, string>): Option<int> {
    ParseStatus(if "Status" in headers then headers["Status"] else "200 OK")
  }

  /**
   * The response built from the backend's output: the header block is
   * everything before the first `\r\n\r\n` and the body everything after it;
   * the headers, `Status` included, are passed on as parsed.
   */
  function ParseBackendOutput(output: seq<byte>): (r: Result<BackendResponse, GatewayError>)
    ensures Find(output, Separator).None? ==> r == Failure(MissingSeparator)
    ensures r.Success? ==> Find(output, Separator).Some? && r.value.body == output[Find(output, Separator).value + |Separator|..]
    ensures r.Success? ==> StatusCode(r.value.headers) == Some(r.value.status)
  {
    match SplitOutput(output)
    case Failure(e) => Failure(e)
    case Success((head, body)) =>
      assert output[|head| + |Separator|..] == body;
      match Decode(head)
      case None => Failure(UndecodableHead)
      case Some(text) =>
        match ParseHeaders(text)
        case None => Failure(HeaderWithoutColon)
        case Some(headers) =>
          match StatusCode(headers)
          case None => Failure(InvalidStatus)
          case Some(status) => Success(BackendResponse(status, headers, body))
  }

  // ---- Status values ----

  /** A status value `<code> <reason>` gives the code, whatever the reason. */
  lemma StatusOfValue(n: nat, reason: string)
    ensures ParseStatus(Decimal(n) + " " + reason) == Some(n)
  {
    var d := Decimal(n);
    assert ' ' !in d by {
      forall i | 0 <= i < |d| ensures d[i] != ' ' { assert IsDigit(d[i]); }
    }
    assert IsDigit(d[0]) && IsDigit(d[|d| - 1]);
    StatusToken(d, reason);
    DecimalRoundTrip(n);
  }

  /** The token before the first space of a stripped `<token> <reason>`: stripping only trims the reason's end. */
  lemma StatusToken(d: string, reason: string)
    requires d != [] && ' ' !in d && !IsSpace(d[0]) && !IsSpace(d[|d| - 1])
    ensures SplitN(Strip(d + " " + reason), " ", 1)[0] == d
  {
    var s := d + " " + reason;
    assert LStrip(s) == s;
    var t := RStrip(s);
    assert Strip(s) == t;
    assert !IsSpace(s[|d| - 1]);
    if |t| < |d| {
      assert false;
    }
    assert t[..|d|] == d;
    if |t| == |d| {
      assert t == d;
      SplitNWithoutSeparator(d, " ", 1);
    } else {
      var rest := s[|d| + 1..|t|];
      assert t == d + " " + rest;
      FirstPartEndsAtSeparator(d, " ", rest);
    }
  }

  /** The space after the colon of `Status: <code> <reason>` makes no difference. */
  lemma StatusAfterSpace(value: string)
    ensures ParseStatus(" " + value) == ParseStatus(value)
  {
    assert (" " + value)[1..] == value;
    assert LStrip(" " + value) == LStrip(value);
  }

  /** Without a `Status` header the response is `200`. */
  lemma StatusDefaultsToOk(headers: map<string, string>)
    requires "Status" !in headers
    ensures StatusCode(headers) == Some(200)
  {
    OkStatusLine();
    StatusOfValue(200, "OK");
  }

  lemma OkStatusLine()
    ensures "200 OK" == Decimal(200) + " " + "OK"
  {
    assert Decimal(2) == "2";
    assert Decimal(20) == "20";
    assert Decimal(200) == "200";
  }

  // ---- The response format the backend writes ----

  predicate Ascii(s: string) {
    forall i :: 0 <= i < |s| ==> s[i] as int < 0x80
  }

  /** A header line `name:value` as CGI writes it: ASCII, a name without a colon, and no carriage return anywhere. */
  predicate PlainField(f: (string, string)) {
    Ascii(f.0) && Ascii(f.1) && ':' !in f.0 && '\r' !in f.0 && '\r' !in f.1
  }

  function FieldLine(f: (string, string)): string {
    f.0 + ":" + f.1
  }

  function FieldLines(fields: seq<(string, string)>): (r: seq<string>)
    ensures |r| == |fields| && forall i :: 0 <= i < |fields| ==> r[i] == FieldLine(fields[i])
  {
    if fields == [] then [] else [FieldLine(fields[0])] + FieldLines(fields[1..])
  }

  /** Output in the CGI response format: the header lines joined by `\r\n`, then `\r\n\r\n`, then the body. */
  function FormatOutput(fields: seq<(string, string)>, body: seq<byte>): seq<byte> {
    Encode(Join(FieldLines(fields), "\r\n")) + Separator + body
  }

  /** Every carriage return starts a `\r\n` that a line other than an empty one follows. */
  predicate BreaksBeforeLines(h: string) {
    forall j :: 0 <= j < |h| && h[j] == '\r' ==> j + 2 < |h| && h[j + 1] == '\n' && h[j + 2] != '\r'
  }

  lemma {:induction false} JoinedLinesBreak(lines: seq<string>)
    requires forall i :: 0 <= i < |lines| ==> lines[i] != [] && '\r' !in lines[i]
    ensures BreaksBeforeLines(Join(lines, "\r\n"))
  {
    if |lines| > 1 {
      var l, t := lines[0], Join(lines[1..], "\r\n");
      JoinedLinesBreak(lines[1..]);
      var h := l + "\r\n" + t;
      assert t != [] && t[0] == lines[1][0] by {
        if |lines| > 2 {
          assert t == lines[1] + "\r\n" + Join(lines[2..], "\r\n");
        }
      }
      assert lines[1][0] in lines[1];
      forall j | 0 <= j < |h|
        ensures h[j] == '\r' ==> j + 2 < |h| && h[j + 1] == '\n' && h[j + 2] != '\r'
      {
        if j < |l| {
          assert h[j] == l[j];
        } else if j >= |l| + 2 {
          assert h[j] == t[j - |l| - 2];
          if j + 1 < |h| { assert h[j + 1] == t[j - |l| - 1]; }
          if j + 2 < |h| { assert h[j + 2] == t[j - |l|]; }
        }
      }
    }
  }

  /** In such a header block the first `\r\n\r\n` is the one that ends it. */
  lemma SeparatorEndsHead(h: string)
    requires Ascii(h) && BreaksBeforeLines(h)
    ensures SeparatorFirstAt(Encode(h), Separator)
  {
    var hb := Encode(h);
    EncodeAscii(h);
    forall j | 0 <= j < |hb| ensures !OccursAt(hb + Separator, j, Separator) {
      var s := hb + Separator;
      if j + 4 <= |s| {
        assert s[j..j + 4][0] == s[j] && s[j..j + 4][2] == s[j + 2];
        if h[j] == '\r' {
          assert s[j + 2] == hb[j + 2];
        } else {
          assert s[j] == hb[j];
          assert h[j] as int != 13;
        }
      }
    }
  }

  /** Each `name:value` line reads back as its field. */
  lemma {:induction false} FieldLinesRead(fields: seq<(string, string)>)
    requires forall i :: 0 <= i < |fields| ==> ':' !in fields[i].0
    ensures HeaderFields(FieldLines(fields)) == Some(fields)
  {
    if fields != [] {
      var f := fields[0];
      FieldLineRead(f);
      FieldLinesRead(fields[1..]);
      assert FieldLines(fields)[1..] == FieldLines(fields[1..]);
      assert fields == [f] + fields[1..];
    }
  }

  /** One `name:value` line reads back as its field when the name holds no colon. */
  lemma FieldLineRead(f: (string, string))
    requires ':' !in f.0
    ensures HeaderField(FieldLine(f)) == Some(f)
  {
    var line := FieldLine(f);
    assert line == f.0 + [':'] + f.1;
    assert line[|f.0|] == ':' && line[..|f.0|] == f.0 && line[|f.0| + 1..] == f.1;
    IndexOfAt(line, ':', |f.0|);
    HeaderFieldAtFirstColon(line);
  }

  /** A plain field's line is a nonempty ASCII line without a carriage return. */
  lemma FieldLinePlain(f: (string, string))
    requires PlainField(f)
    ensures FieldLine(f) != [] && '\r' !in FieldLine(f) && Ascii(FieldLine(f))
  {
    var line := FieldLine(f);
    assert line == f.0 + ":" + f.1;
    forall k | 0 <= k < |line| ensures line[k] as int < 0x80 {
      if k < |f.0| { assert line[k] == f.0[k]; }
      else if k > |f.0| { assert line[k] == f.1[k - |f.0| - 1]; }
    }
  }

  /**
   * Output in the CGI format parses back to the fields it was written from
   * (the last line for a name wins) and to its body, whatever the body holds,
   * `\r\n\r\n` included.
   */
  lemma ParseFormattedOutput(fields: seq<(string, string)>, body: seq<byte>)
    requires fields != [] && forall i :: 0 <= i < |fields| ==> PlainField(fields[i])
    ensures var r := ParseBackendOutput(FormatOutput(fields, body));
      && (r.Success? <==> StatusCode(Dict(fields)).Some?)
      && (r.Failure? ==> r.error == InvalidStatus)
      && (r.Success? ==> r.value == BackendResponse(StatusCode(Dict(fields)).value, Dict(fields), body))
  {
    var lines := FieldLines(fields);
    var h := Join(lines, "\r\n");
    forall i | 0 <= i < |lines| ensures lines[i] != [] && '\r' !in lines[i] && Ascii(lines[i]) {
      FieldLinePlain(fields[i]);
    }
    JoinedLinesBreak(lines);
    AsciiJoin(lines);
    SeparatorEndsHead(h);
    SplitOnceAt(Encode(h), Separator, body);
    DecodeEncode(h);
    SplitJoin(lines, "\r\n");
    FieldLinesRead(fields);
  }

  /** Joined ASCII lines are ASCII. */
  lemma {:induction false} AsciiJoin(lines: seq<string>)
    requires forall i :: 0 <= i < |lines| ==> Ascii(lines[i])
    ensures Ascii(Join(lines, "\r\n"))
  {
    if |lines| > 1 {
      AsciiJoin(lines[1..]);
      var l, t := lines[0], Join(lines[1..], "\r\n");
      var h := l + "\r\n" + t;
      forall i | 0 <= i < |h| ensures h[i] as int < 0x80 {
        if i < |l| { assert h[i] == l[i]; }
        else if i >= |l| + 2 { assert h[i] == t[i - |l| - 2]; }
      }
    }
  }

  /** A header block with no lines at all is refused: the empty line has no colon. */
  lemma EmptyHeadFails(body: seq<byte>)
    ensures ParseBackendOutput(Separator + body) == Failure(HeaderWithoutColon)
  {
    SplitOnceAt([], Separator, body);
    assert [] + Separator + body == Separator + body;
    assert Decode([]) == Some([]);
    assert Split("", "\r\n") == [""];
    SplitNWithoutSeparator("", ":", 1);
  }

  /** `Status: 404 Not Found`, then a content type, then the body: the values keep the space after the colon. */
  lemma NotFoundResponse()
    ensures ParseBackendOutput(Encode("Status: 404 Not Found\r\nContent-Type: text/plain\r\n\r\nbody"))
         == Success(BackendResponse(404, map["Status" := " 404 Not Found", "Content-Type" := " text/plain"], Encode("body")))
  {
    var fields := NotFoundFields();
    FormattedLiteral(fields, "Status: 404 Not Found\r\nContent-Type: text/plain", "body");
    NotFoundText();
    NotFoundHeaders();
  }

  /** Two pairs make a map of both, the second winning if the names are equal. */
  lemma TwoFieldDict<K, V>(k1: K, v1: V, k2: K, v2: V)
    ensures Dict([(k1, v1), (k2, v2)]) == map[k1 := v1, k2 := v2]
  {
    DictAppend([], k1, v1);
    DictAppend([(k1, v1)], k2, v2);
    assert [] + [(k1, v1)] == [(k1, v1)];
    assert [(k1, v1)] + [(k2, v2)] == [(k1, v1), (k2, v2)];
  }

  /** A response without `Status`: code 200. */
  lemma OkResponse()
    ensures ParseBackendOutput(Encode("Content-Type: text/plain\r\n\r\nok"))
         == Success(BackendResponse(200, map["Content-Type" := " text/plain"], Encode("ok")))
  {
    var fields := [("Content-Type", " text/plain")];
    assert PlainField(fields[0]);
    assert FieldLines(fields) == [FieldLine(fields[0])];
    assert FieldLine(fields[0]) == "Content-Type: text/plain";
    FormattedLiteral(fields, "Content-Type: text/plain", "ok");
    OkText();
    assert Dict(fields) == map["Content-Type" := " text/plain"];
    StatusDefaultsToOk(Dict(fields));
  }

  /** A literal response is the formatted output of its fields when its header block is their lines. */
  lemma FormattedLiteral(fields: seq<(string, string)>, head: string, body: string)
    requires fields != [] && forall i :: 0 <= i < |fields| ==> PlainField(fields[i])
    requires Join(FieldLines(fields), "\r\n") == head
    ensures var r := ParseBackendOutput(Encode(head + "\r\n\r\n" + body));
      && (r.Success? <==> StatusCode(Dict(fields)).Some?)
      && (r.Success? ==> r.value == BackendResponse(StatusCode(Dict(fields)).value, Dict(fields), Encode(body)))
  {
    EncodeAppend(head + "\r\n\r\n", body);
    EncodeAppend(head, "\r\n\r\n");
    assert Encode("\r\n\r\n") == Separator;
    ParseFormattedOutput(fields, Encode(body));
  }

  // ---- The endpoint ----

  /** How the backend is started: in the repository directory, with the request body on its standard input. */
  datatype BackendRun = BackendRun(cwd: string, command: string, input: seq<byte>, env: map<string, string>)

  /** The backend's outcome: `check_output` in binary mode with the error stream apart, then the parse of its output. */
  function EndpointResult(exit: Exit): (r: Result<BackendResponse, GatewayError>)
    ensures exit.status != 0 ==> r.Failure? && r.error.BackendFailed?
    ensures exit.status == 0 ==> r == ParseBackendOutput(exit.stdout)
  {
    match CheckOutput(ShellLine("git http-backend"), true, true, exit)
    case Failure(e) => Failure(BackendFailed(e))
    case Success(_) => ParseBackendOutput(exit.stdout)
  }

  /** `git_http_endpoint`: opens the repository by name without checking that it exists, builds the environment and runs the backend. */
  method GitHttpEndpoint(store: Storage, name: string, req: CgiRequest, ambient: map<string, string>, exit: Exit)
    returns (run: BackendRun, r: Result<BackendResponse, GatewayError>)
    ensures run == BackendRun(RepoPath(store.root, name, true), "git http-backend", req.body, Environment(ambient, req))
    ensures r == EndpointResult(exit)
  {
    var repo := store.OpenRepo(name, true);
    var env := CgiEnvironment(ambient, req);
    run := BackendRun(repo.path, "git http-backend", req.body, env);
    r := EndpointResult(exit);
  }

  // ---- The example responses, piece by piece ----
  // Equalities between the literals of the examples above, each on its own
  // so that every example's proof stays small.

  /** The two header lines of the example, as fields. */
  lemma NotFoundFields() returns (fields: seq<(string, string)>)
    ensures fields == [("Status", " 404 Not Found"), ("Content-Type", " text/plain")]
    ensures forall i :: 0 <= i < |fields| ==> PlainField(fields[i])
    ensures Join(FieldLines(fields), "\r\n") == "Status: 404 Not Found\r\nContent-Type: text/plain"
  {
    fields := [("Status", " 404 Not Found"), ("Content-Type", " text/plain")];
    NotFoundPlain();
    NotFoundLines(fields);
  }

  lemma NotFoundPlain()
    ensures PlainField(("Status", " 404 Not Found")) && PlainField(("Content-Type", " text/plain"))
  {
  }

  lemma NotFoundLines(fields: seq<(string, string)>)
    requires fields == [("Status", " 404 Not Found"), ("Content-Type", " text/plain")]
    ensures Join(FieldLines(fields), "\r\n") == "Status: 404 Not Found\r\nContent-Type: text/plain"
  {
    var l1, l2 := "Status: 404 Not Found", "Content-Type: text/plain";
    assert FieldLines(fields) == [FieldLine(fields[0])] + FieldLines(fields[1..]);
    assert FieldLines(fields[1..]) == [FieldLine(fields[1])];
    assert FieldLine(fields[0]) == l1 && FieldLine(fields[1]) == l2;
    assert Join([l1, l2], "\r\n") == l1 + "\r\n" + l2;
    NotFoundHeadText();
  }

  lemma NotFoundHeadText()
    ensures "Status: 404 Not Found\r\nContent-Type: text/plain" == "Status: 404 Not Found" + "\r\n" + "Content-Type: text/plain"
  {
  }

  /** The example's header map, and the 404 read from it. */
  lemma NotFoundHeaders()
    ensures Dict([("Status", " 404 Not Found"), ("Content-Type", " text/plain")])
         == map["Status" := " 404 Not Found", "Content-Type" := " text/plain"]
    ensures StatusCode(map["Status" := " 404 Not Found", "Content-Type" := " text/plain"]) == Some(404)
  {
    TwoFieldDict("Status", " 404 Not Found", "Content-Type", " text/plain");
    NotFoundStatusCode();
  }

  lemma NotFoundStatusCode()
    ensures StatusCode(map["Status" := " 404 Not Found", "Content-Type" := " text/plain"]) == Some(404)
  {
    NotFoundStatus();
    StatusAfterSpace("404 Not Found");
    NotFoundText();
  }

  lemma NotFoundStatus()
    ensures ParseStatus("404 Not Found") == Some(404)
  {
    assert Decimal(4) == "4";
    assert Decimal(40) == "40";
    assert Decimal(404) == "404";
    assert "404 Not Found" == Decimal(404) + " " + "Not Found";
    StatusOfValue(404, "Not Found");
  }

  lemma NotFoundText()
    ensures "Status: 404 Not Found\r\nContent-Type: text/plain\r\n\r\nbody"
         == "Status: 404 Not Found\r\nContent-Type: text/plain" + "\r\n\r\n" + "body"
    ensures " 404 Not Found" == " " + "404 Not Found"
  {
  }

  lemma OkText()
    ensures "Content-Type: text/plain\r\n\r\nok" == "Content-Type: text/plain" + "\r\n\r\n" + "ok"
  {
  }
}
