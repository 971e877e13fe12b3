/**
 * Logging set-up in gitmesh/__main__.py: the `fluent://host[:port]/app`
 * endpoint parsed by `FluentLoggerFactory.from_url` (on top of
 * `urllib.parse.urlsplit`), the choice of sink and renderer made by
 * `configure_logging`, and the `TimeStamper` processor that fills in and
 * normalises the `@timestamp` field of each event in place.
 */
module Logging {
  import opened Wrappers
  import opened Text

  /** The `ValueError` raised by the set-up, with its message. */
  datatype ValueError = ValueError(message: string)

  // ---- urlsplit ----

  /** The five components `urlsplit` returns. */
  datatype SplitUrl = SplitUrl(scheme: string, netloc: string, path: string, query: string, fragment: string)

  predicate AsciiLetter(c: char) {
    ('a' <= c <= 'z') || ('A' <= c <= 'Z')
  }

  /** The characters allowed in a scheme: ASCII letters, digits, `+`, `-` and `.`. */
  predicate SchemeChar(c: char) {
    AsciiLetter(c) || ('0' <= c <= '9') || c == '+' || c == '-' || c == '.'
  }

  /** `str.lower()` on the characters a scheme may hold. */
  function LowerAscii(s: string): (r: string)
    ensures |r| == |s|
    ensures forall i :: 0 <= i < |s| ==> r[i] == (if 'A' <= s[i] <= 'Z' then (s[i] as int + 32) as char else s[i])
  {
    if s == [] then []
    else [if 'A' <= s[0] <= 'Z' then (s[0] as int + 32) as char else s[0]] + LowerAscii(s[1..])
  }

  /** Leading C0 control characters and spaces are dropped. */
  function LStripControl(s: string): (r: string)
    ensures |r| <= |s| && r == s[|s| - |r|..]
    ensures r == [] || r[0] > ' '
  {
    if s != [] && s[0] <= ' ' then LStripControl(s[1..]) else s
  }

  /** Tabs, carriage returns and line feeds are removed wherever they are. */
  function RemoveUnsafe(s: string): (r: string)
    ensures forall i :: 0 <= i < |r| ==> r[i] != '\t' && r[i] != '\r' && r[i] != '\n'
    ensures (forall i :: 0 <= i < |s| ==> s[i] != '\t' && s[i] != '\r' && s[i] != '\n') ==> r == s
  {
    if s == [] then []
    else if s[0] == '\t' || s[0] == '\r' || s[0] == '\n' then RemoveUnsafe(s[1..])
    else [s[0]] + RemoveUnsafe(s[1..])
  }

  predicate NetlocEnd(c: char) {
    c == '/' || c == '?' || c == '#'
  }

  /** The position of the first `/`, `?` or `#`, or the length when there is none. */
  function NetlocLength(s: string): (n: nat)
    ensures n <= |s| && (n < |s| ==> NetlocEnd(s[n]))
    ensures forall i :: 0 <= i < n ==> !NetlocEnd(s[i])
  {
    if s == [] || NetlocEnd(s[0]) then 0 else 1 + NetlocLength(s[1..])
  }

  /** A scheme is split off when a colon follows a letter and scheme characters only. */
  predicate HasScheme(u: string, i: nat) {
    0 < i < |u| && u[i] == ':' && AsciiLetter(u[0]) && forall k :: 0 <= k < i ==> SchemeChar(u[k])
  }

  /** Text cut at the first `x`: the part before it, and the part after it or `""` when `x` is absent. */
  function CutAt(s: string, x: char): (r: (string, string))
    ensures x !in s ==> r == (s, "")
    ensures x in s ==> s == r.0 + [x] + r.1 && x !in r.0
  {
    match IndexOf(s, x)
    case None => (s, "")
    case Some(k) => assert s == s[..k] + [x] + s[k + 1..]; (s[..k], s[k + 1..])
  }

  /** The scheme, lower-cased, and what follows its colon; no scheme and the whole text when there is none. */
  function SchemeSplit(u: string): (r: (string, string))
    ensures r.0 == [] ==> r.1 == u
  {
    match IndexOf(u, ':')
    case Some(i) => if HasScheme(u, i) then (LowerAscii(u[..i]), u[i + 1..]) else ("", u)
    case None => ("", u)
  }

  /** After `//`, the network location up to the first `/`, `?` or `#`, and the rest; otherwise no network location. */
  function NetlocSplit(rest: string): (r: (string, string))
    ensures !StartsWith(rest, "//") ==> r == ("", rest)
    ensures StartsWith(rest, "//") ==> rest == "//" + r.0 + r.1 && (r.1 == [] || NetlocEnd(r.1[0]))
  {
    if StartsWith(rest, "//") then
      var n := NetlocLength(rest[2..]);
      assert rest == "//" + rest[2..][..n] + rest[2..][n..];
      (rest[2..][..n], rest[2..][n..])
    else ("", rest)
  }

  /** Brackets that do not come in pairs, which `urlsplit` takes for a broken IPv6 address. */
  predicate UnbalancedBrackets(netloc: string) {
    ('[' in netloc && ']' !in netloc) || (']' in netloc && '[' !in netloc)
  }

  /**
   * `urllib.parse.urlsplit(url)` as CPython 3.11 performs it: leading
   * control characters and spaces and every tab or line break are removed,
   * the scheme is split off (lower-cased), then `//` introduces the network
   * location, running to the first `/`, `?` or `#`; the fragment follows
   * the first `#` and the query the first `?` before it. Unbalanced
   * brackets in the network location raise `ValueError`.
   */
  function UrlSplit(url: string): Result<SplitUrl, ValueError> {
    SplitCleaned(RemoveUnsafe(LStripControl(url)))
  }

  /** `urlsplit` after the unsafe characters are gone. */
  function SplitCleaned(u: string): (r: Result<SplitUrl, ValueError>)
    ensures r.Failure? <==> UnbalancedBrackets(NetlocSplit(SchemeSplit(u).1).0)
    ensures r.Success? ==> '#' !in r.value.path + r.value.query && '?' !in r.value.path
  {
    var (scheme, rest) := SchemeSplit(u);
    var (netloc, tail) := NetlocSplit(rest);
    if UnbalancedBrackets(netloc) then
      Failure(ValueError("Invalid IPv6 URL"))
    else
      var (beforeFragment, fragment) := CutAt(tail, '#');
      var (path, query) := CutAt(beforeFragment, '?');
      assert '#' !in path + query by {
        assert beforeFragment == path + ['?'] + query || (beforeFragment == path && query == []);
      }
      Success(SplitUrl(scheme, netloc, path, query, fragment))
  }

  // ---- from_url ----

  /** What `FluentLoggerFactory` keeps: the application tag, the host and the port. */
  datatype FluentFactory = FluentFactory(app: string, host: string, port: int)

  /** The message every rejection of a Fluent URL carries. */
  function InvalidUrl(url: string): ValueError {
    ValueError("Invalid URL: \"" + url + "\".")
  }

  /** The port Fluent listens on unless the URL names another. */
  const DefaultPort := 24224

  /**
   * `FluentLoggerFactory.from_url`: the scheme must be `fluent` and there
   * may be no query and no fragment; the network location is cut at its
   * last colon, the part after it read by `int`, and without a colon the
   * port is 24224; the application is the path without its first character.
   */
  function FromUrl(url: string): (r: Result<FluentFactory, ValueError>)
    ensures UrlSplit(url).Failure? ==> r == Failure(UrlSplit(url).error)
    ensures UrlSplit(url).Success? ==> r == FromParts(url, UrlSplit(url).value)
  {
    match UrlSplit(url)
    case Failure(e) => Failure(e)
    case Success(parts) => FromParts(url, parts)
  }

  /** `from_url` once `urlsplit` has succeeded. */
  function FromParts(url: string, parts: SplitUrl): (r: Result<FluentFactory, ValueError>)
    ensures parts.scheme != "fluent" || parts.query != [] || parts.fragment != [] ==> r == Failure(InvalidUrl(url))
    ensures r.Success? ==> r.value.app == DropFirst(parts.path, 1)
    ensures r.Failure? ==> r.error == InvalidUrl(url)
  {
    if parts.scheme != "fluent" then Failure(InvalidUrl(url))
    else if parts.query != [] || parts.fragment != [] then Failure(InvalidUrl(url))
    else
      var netloc := RSplitOnce(parts.netloc, ':');
      if |netloc| == 1 then Success(FluentFactory(DropFirst(parts.path, 1), netloc[0], DefaultPort))
      else match ParseInt(netloc[1])
        case None => Failure(InvalidUrl(url))
        case Some(port) => Success(FluentFactory(DropFirst(parts.path, 1), netloc[0], port))
  }

  /** A network location that `urlsplit` takes whole: nothing stripped, no delimiter, no bracket. */
  predicate PlainNetloc(netloc: string) {
    forall i :: 0 <= i < |netloc| ==> netloc[i] > ' ' && !NetlocEnd(netloc[i]) && netloc[i] != '[' && netloc[i] != ']'
  }

  /** An application tag that the URL carries whole: no query or fragment marker, nothing stripped. */
  predicate PlainApp(app: string) {
    forall i :: 0 <= i < |app| ==> app[i] != '?' && app[i] != '#' && app[i] != '\t' && app[i] != '\r' && app[i] != '\n'
  }

  /** The URL of a Fluent endpoint with an explicit port. */
  function FluentUrl(host: string, port: nat, app: string): string {
    "fluent://" + host + ":" + Decimal(port) + "/" + app
  }

  /** The URL of a Fluent endpoint on the default port. */
  function FluentUrlDefaultPort(host: string, app: string): string {
    "fluent://" + host + "/" + app
  }

  /** Host, port and application come back from the URL written with them; the host may itself hold colons. */
  lemma FromFluentUrl(host: string, port: nat, app: string)
    requires host != [] && PlainNetloc(host) && PlainApp(app)
    ensures FromUrl(FluentUrl(host, port, app)) == Success(FluentFactory(app, host, port))
  {
    var digits := Decimal(port);
    var netloc := host + ":" + digits;
    assert FluentUrl(host, port, app) == "fluent://" + netloc + "/" + app;
    assert PlainNetloc(digits) && ':' !in digits by {
      assert forall i :: 0 <= i < |digits| ==> IsDigit(digits[i]);
    }
    PortNetloc(host, digits);
    ParsedFluentUrl(FluentUrl(host, port, app), netloc, app);
    FluentPort(FluentUrl(host, port, app), host, digits, app);
    DecimalRoundTrip(port);
  }

  /** With the URL split, the network location is cut at its last colon and the text after it read as the port. */
  lemma FluentPort(url: string, host: string, port: string, app: string)
    requires ':' !in port
    ensures var parts := SplitUrl("fluent", host + ":" + port, "/" + app, "", "");
      && (ParseInt(port).None? ==> FromParts(url, parts) == Failure(InvalidUrl(url)))
      && (ParseInt(port).Some? ==> FromParts(url, parts) == Success(FluentFactory(app, host, ParseInt(port).value)))
  {
    assert host + ":" + port == host + [':'] + port;
    RSplitOnceAt(host, ':', port);
    assert DropFirst("/" + app, 1) == app;
  }

  /** Without a port the host is the whole network location and the port is 24224. */
  lemma FromFluentUrlDefaultPort(url: string, host: string, app: string)
    requires host != [] && PlainNetloc(host) && ':' !in host && PlainApp(app)
    requires url == FluentUrlDefaultPort(host, app)
    ensures FromUrl(url) == Success(FluentFactory(app, host, DefaultPort))
  {
    ParsedFluentUrl(url, host, app);
    assert DropFirst("/" + app, 1) == app;
  }

  /** `fluent://<netloc>/<app>` splits into the scheme, the network location and `/<app>`. */
  lemma ParsedFluentUrl(url: string, netloc: string, app: string)
    requires url == "fluent://" + netloc + "/" + app
    requires netloc != [] && PlainApp(app)
    requires PlainNetloc(netloc)
    ensures UrlSplit(url) == Success(SplitUrl("fluent", netloc, "/" + app, "", ""))
  {
    assert url == "fluent" + "://" + netloc + ("/" + app) by { FluentUrlText(netloc, app); }
    assert LowerWord("fluent");
    SlashApp(app);
    ParsedUrl(url, "fluent", netloc, "/" + app);
  }

  lemma FluentUrlText(netloc: string, app: string)
    ensures "fluent://" + netloc + "/" + app == "fluent" + "://" + netloc + ("/" + app)
  {
  }

  /** An application tag after its slash is a path with no query. */
  lemma SlashApp(app: string)
    requires PlainApp(app)
    ensures var path := "/" + app;
      && path[0] == '/' && NoBreaks(path) && '#' !in path && CutAt(path, '?') == (path, "")
  {
    var path := "/" + app;
    forall i | 0 <= i < |path| ensures path[i] != '?' && path[i] != '#' && path[i] != '\t' && path[i] != '\r' && path[i] != '\n' {
      if i > 0 {
        assert path[i] == app[i - 1];
      }
    }
  }

  /** No tab, carriage return or line feed. */
  predicate NoBreaks(s: string) {
    forall i :: 0 <= i < |s| ==> s[i] != '\t' && s[i] != '\r' && s[i] != '\n'
  }

  /** A nonempty run of lower-case ASCII letters. */
  predicate LowerWord(s: string) {
    s != [] && forall i :: 0 <= i < |s| ==> 'a' <= s[i] <= 'z'
  }

  /**
   * `<scheme>://<netloc><path>`, with a lower-case scheme, a network
   * location free of delimiters and a path that starts with `/` and holds
   * no `#`, splits into those parts, the path cut at its first `?`.
   */
  lemma ParsedUrl(url: string, scheme: string, netloc: string, path: string)
    requires LowerWord(scheme) && url == scheme + "://" + netloc + path
    requires PlainNetloc(netloc)
    requires path != [] && path[0] == '/' && NoBreaks(path) && '#' !in path
    ensures UrlSplit(url) == Success(SplitUrl(scheme, netloc, CutAt(path, '?').0, CutAt(path, '?').1, ""))
  {
    CleanUrl(scheme, netloc, path);
    assert url == scheme + [':'] + ("//" + netloc + path);
    SplitParts(scheme, netloc, path);
  }

  /** The splitting proper, on a URL with nothing left to clean. */
  lemma SplitParts(scheme: string, netloc: string, path: string)
    requires LowerWord(scheme)
    requires forall i :: 0 <= i < |netloc| ==> !NetlocEnd(netloc[i]) && netloc[i] != '[' && netloc[i] != ']'
    requires path != [] && path[0] == '/' && '#' !in path
    ensures SplitCleaned(scheme + [':'] + ("//" + netloc + path))
         == Success(SplitUrl(scheme, netloc, CutAt(path, '?').0, CutAt(path, '?').1, ""))
  {
    SchemeOf(scheme, "//" + netloc + path);
    FluentNetloc(netloc, path);
    assert !UnbalancedBrackets(netloc);
    assert CutAt(path, '#') == (path, "");
  }

  /** Nothing is stripped or removed from such a URL. */
  lemma CleanUrl(scheme: string, netloc: string, path: string)
    requires LowerWord(scheme) && NoBreaks(path)
    requires forall i :: 0 <= i < |netloc| ==> netloc[i] > ' '
    ensures var url := scheme + "://" + netloc + path;
      RemoveUnsafe(LStripControl(url)) == url
  {
    var url := scheme + "://" + netloc + path;
    var n := |scheme|;
    assert url[0] == scheme[0];
    assert LStripControl(url) == url;
    forall i | 0 <= i < |url| ensures url[i] != '\t' && url[i] != '\r' && url[i] != '\n' {
      if i < n {
        assert url[i] == scheme[i];
      } else if i < n + 3 {
      } else if i < n + 3 + |netloc| {
        assert url[i] == netloc[i - n - 3];
      } else {
        assert url[i] == path[i - n - 3 - |netloc|];
      }
    }
  }

  /** A lower-case scheme is split off unchanged, and the rest follows its colon. */
  lemma SchemeOf(scheme: string, rest: string)
    requires LowerWord(scheme)
    ensures SchemeSplit(scheme + [':'] + rest) == (scheme, rest)
  {
    var u := scheme + [':'] + rest;
    var n := |scheme|;
    assert u[..n] == scheme && u[n + 1..] == rest;
    assert ':' !in u[..n];
    IndexOfAt(u, ':', n);
    assert HasScheme(u, n);
    LowerWordUnchanged(scheme);
  }

  lemma LowerWordUnchanged(s: string)
    requires LowerWord(s)
    ensures LowerAscii(s) == s
  {
  }

  /** After `//` the network location reaches the slash of the path. */
  lemma FluentNetloc(netloc: string, path: string)
    requires forall i :: 0 <= i < |netloc| ==> !NetlocEnd(netloc[i])
    requires path != [] && path[0] == '/'
    ensures NetlocSplit("//" + netloc + path) == (netloc, path)
  {
    var rest := "//" + netloc + path;
    assert StartsWith(rest, "//");
    assert rest[2..] == netloc + path;
    NetlocEnds(netloc, path);
    assert (netloc + path)[..|netloc|] == netloc && (netloc + path)[|netloc|..] == path;
  }

  /** The network location runs up to the slash that follows it. */
  lemma NetlocEnds(netloc: string, path: string)
    requires forall i :: 0 <= i < |netloc| ==> !NetlocEnd(netloc[i])
    requires path != [] && path[0] == '/'
    ensures NetlocLength(netloc + path) == |netloc|
    decreases |netloc|
  {
    if netloc != [] {
      assert (netloc + path)[1..] == netloc[1..] + path;
      NetlocEnds(netloc[1..], path);
    } else {
      assert netloc + path == path;
    }
  }

  /** A port that is not a number is refused with the URL in the message. */
  lemma FromUrlPortNotNumber(url: string, host: string, port: string, app: string)
    requires host != [] && PlainNetloc(host) && PlainApp(app)
    requires port != [] && forall i :: 0 <= i < |port| ==> AsciiLetter(port[i])
    requires url == "fluent://" + host + ":" + port + "/" + app
    ensures FromUrl(url) == Failure(InvalidUrl(url))
  {
    var netloc := host + ":" + port;
    assert url == "fluent://" + netloc + "/" + app;
    assert PlainNetloc(port) && ':' !in port by {
      assert forall i :: 0 <= i < |port| ==> AsciiLetter(port[i]);
    }
    PortNetloc(host, port);
    ParsedFluentUrl(url, netloc, app);
    LettersAreNotNumber(port);
    FluentPort(url, host, port, app);
  }

  /** A host and a port, each free of delimiters, make a network location free of them. */
  lemma PortNetloc(host: string, port: string)
    requires PlainNetloc(host) && PlainNetloc(port)
    ensures PlainNetloc(host + ":" + port)
  {
    var n := host + ":" + port;
    forall i | 0 <= i < |n| ensures n[i] > ' ' && !NetlocEnd(n[i]) && n[i] != '[' && n[i] != ']' {
      if i < |host| {
        assert n[i] == host[i];
      } else if i > |host| {
        assert n[i] == port[i - |host| - 1];
      }
    }
  }

  /** Letters are no integer literal. */
  lemma LettersAreNotNumber(port: string)
    requires port != [] && forall i :: 0 <= i < |port| ==> AsciiLetter(port[i])
    ensures ParseInt(port) == None
  {
    assert !IsSpace(port[0]) && !IsSpace(port[|port| - 1]);
    StripUnchanged(port);
    assert port[0] != '+' && port[0] != '-';
    assert !DigitGroups(port);
  }

  /** The URL with an explicit port used by the test suite. */
  lemma ExamplePortUrl(url: string)
    requires url == "fluent://127.0.0.1:24224/the-app"
    ensures FromUrl(url) == Success(FluentFactory("the-app", "127.0.0.1", 24224))
  {
    ExampleHost();
    FromFluentUrl("127.0.0.1", 24224, "the-app");
    ExampleDecimal();
  }

  /** A URL without a port, as in the test suite: the port is 24224. */
  lemma ExampleDefaultPortUrl(url: string)
    requires url == "fluent://127.0.0.1/the-app"
    ensures FromUrl(url) == Success(FluentFactory("the-app", "127.0.0.1", DefaultPort))
  {
    ExampleHost();
    FromFluentUrlDefaultPort(url, "127.0.0.1", "the-app");
  }

  /** The application may be empty. */
  lemma ExampleEmptyApp(url: string)
    requires url == "fluent://127.0.0.1/"
    ensures FromUrl(url) == Success(FluentFactory("", "127.0.0.1", DefaultPort))
  {
    ExampleHost();
    FromFluentUrlDefaultPort(url, "127.0.0.1", "");
  }

  /** A scheme other than `fluent` is refused. */
  lemma RefusedScheme(url: string, scheme: string, netloc: string, path: string)
    requires LowerWord(scheme) && scheme != "fluent" && url == scheme + "://" + netloc + path
    requires PlainNetloc(netloc)
    requires path != [] && path[0] == '/' && NoBreaks(path) && '#' !in path
    ensures FromUrl(url) == Failure(InvalidUrl(url))
  {
    ParsedUrl(url, scheme, netloc, path);
  }

  /** A nonempty query string is refused. */
  lemma RefusedQuery(url: string, netloc: string, app: string, query: string)
    requires url == "fluent://" + netloc + app + "?" + query
    requires PlainNetloc(netloc) && query != []
    requires app != [] && app[0] == '/' && '?' !in app
    requires NoBreaks(app) && NoBreaks(query) && '#' !in app && '#' !in query
    ensures FromUrl(url) == Failure(InvalidUrl(url))
  {
    var path := app + "?" + query;
    assert url == "fluent" + "://" + netloc + path;
    assert LowerWord("fluent");
    assert CutAt(path, '?') == (app, query) by { QueryCut(app, query); }
    assert NoBreaks(path) && '#' !in path by { QueryPath(app, query); }
    ParsedUrl(url, "fluent", netloc, path);
  }

  /** The path is cut at the question mark that follows it. */
  lemma QueryCut(app: string, query: string)
    requires '?' !in app
    ensures CutAt(app + "?" + query, '?') == (app, query)
  {
    var path := app + "?" + query;
    assert path[|app|] == '?' && path[..|app|] == app && path[|app| + 1..] == query;
    IndexOfAt(path, '?', |app|);
  }

  lemma QueryPath(app: string, query: string)
    requires NoBreaks(app) && NoBreaks(query) && '#' !in app && '#' !in query
    ensures NoBreaks(app + "?" + query) && '#' !in app + "?" + query
  {
    var path := app + "?" + query;
    forall i | 0 <= i < |path| ensures path[i] != '\t' && path[i] != '\r' && path[i] != '\n' && path[i] != '#' {
      if i < |app| {
        assert path[i] == app[i];
      } else if i > |app| {
        assert path[i] == query[i - |app| - 1];
      }
    }
  }

  /** A port of letters, as in the test suite, is refused. */
  lemma ExampleLetterPort(url: string)
    requires url == "fluent://127.0.0.1:abcd/the-app"
    ensures FromUrl(url) == Failure(InvalidUrl(url))
  {
    ExampleHost();
    FromUrlPortNotNumber(url, "127.0.0.1", "abcd", "the-app");
  }

  /** The scheme `fluentd` is refused. */
  lemma ExampleWrongScheme(url: string)
    requires url == "fluentd://127.0.0.1:abcd/the-app"
    ensures FromUrl(url) == Failure(InvalidUrl(url))
  {
    WrongSchemeParts(url);
    RefusedScheme(url, "fluentd", "127.0.0.1:abcd", "/the-app");
  }

  /** A query string is refused. */
  lemma ExampleQuery(url: string)
    requires url == "fluent://127.0.0.1:24224/the-app?hello=1"
    ensures FromUrl(url) == Failure(InvalidUrl(url))
  {
    QueryExampleParts(url);
    RefusedQuery(url, "127.0.0.1:24224", "/the-app", "hello=1");
  }

  // ---- configure_logging ----

  /** Where printed events go. */
  datatype Stream = Stdout | Stderr | FileStream(path: string)

  /** The renderers the file endpoints use, with the options they are built with. */
  datatype Renderer = KeyValueRenderer(sortKeys: bool, keyOrder: seq<string>) | JsonRenderer(sortKeys: bool)

  /** The renderer for a log format: key-value for `kv`, JSON for anything else, keys sorted either way. */
  function RendererFor(logFormat: string): Renderer {
    if logFormat == "kv" then KeyValueRenderer(true, ["@timestamp", "event"]) else JsonRenderer(true)
  }

  /** The `TimeStamper` as built: the key it is given (and never uses) and whether it reads the clock in UTC. */
  datatype TimeStamper = TimeStamper(key: string, utc: bool)

  datatype Processor = Stamp(stamper: TimeStamper) | Render(renderer: Renderer)

  datatype LoggerFactory = PrintLoggerFactory(stream: Stream) | FluentLoggers(factory: FluentFactory)

  /** What `structlog.configure` is given. */
  datatype LogConfig = LogConfig(processors: seq<Processor>, factory: LoggerFactory)

  /** The message for an endpoint of an unknown kind. */
  function InvalidEndpoint(endpoint: string): ValueError {
    ValueError("Invalid logging endpoint \"" + endpoint + "\".")
  }

  /** The stream a `file://` endpoint names: the two standard streams by their device names, anything else a file. */
  function StreamFor(path: string): Stream {
    if path == "/dev/stdout" then Stdout
    else if path == "/dev/stderr" then Stderr
    else FileStream(path)
  }

  /**
   * `configure_logging`: the time stamper always comes first; a `file://`
   * endpoint prints to the named stream through a key-value renderer
   * (`kv`) or a JSON renderer (anything else); a `fluent://` endpoint sends
   * through the Fluent factory; any other endpoint is refused. The
   * `utc = True` in the Fluent branch comes after the time stamper is
   * built and changes nothing.
   */
  function ConfigureLogging(logFormat: string, utc: bool, endpoint: string): (r: Result<LogConfig, ValueError>)
    ensures r.Success? ==> |r.value.processors| >= 1 && r.value.processors[0] == Stamp(TimeStamper("@timestamp", utc))
    ensures StartsWith(endpoint, "file://") ==>
      && r.Success?
      && r.value.factory == PrintLoggerFactory(StreamFor(endpoint[7..]))
      && r.value.processors[1..] == [Render(RendererFor(logFormat))]
    ensures !StartsWith(endpoint, "file://") && StartsWith(endpoint, "fluent://") ==>
      match FromUrl(endpoint)
      case Failure(e) => r == Failure(e)
      case Success(f) => r == Success(LogConfig([Stamp(TimeStamper("@timestamp", utc))], FluentLoggers(f)))
    ensures !StartsWith(endpoint, "file://") && !StartsWith(endpoint, "fluent://") ==> r == Failure(InvalidEndpoint(endpoint))
  {
    var stamper := Stamp(TimeStamper("@timestamp", utc));
    if StartsWith(endpoint, "file://") then
      Success(LogConfig([stamper, Render(RendererFor(logFormat))], PrintLoggerFactory(StreamFor(endpoint[7..]))))
    else if StartsWith(endpoint, "fluent://") then
      match FromUrl(endpoint)
      case Failure(e) => Failure(e)
      case Success(f) => Success(LogConfig([stamper], FluentLoggers(f)))
    else Failure(InvalidEndpoint(endpoint))
  }

  /** A `file://` endpoint prints the stamped events to the stream its path names, through the renderer the format picks. */
  lemma FileEndpoint(logFormat: string, utc: bool, path: string)
    ensures ConfigureLogging(logFormat, utc, "file://" + path) == Success(LogConfig(
      [Stamp(TimeStamper("@timestamp", utc)), Render(RendererFor(logFormat))], PrintLoggerFactory(StreamFor(path))))
  {
    FilePrefix(path);
  }

  lemma FilePrefix(path: string)
    ensures StartsWith("file://" + path, "file://") && ("file://" + path)[7..] == path
  {
  }

  /** `file:///dev/stdout`, `file:///dev/stderr` and `file://./gitmesh.log` print to standard output, standard error and the file. */
  lemma FileEndpoints(stdout: string, stderr: string, logFile: string)
    requires stdout == "file:///dev/stdout" && stderr == "file:///dev/stderr" && logFile == "file://./gitmesh.log"
    ensures ConfigureLogging("kv", false, stdout) == Success(LogConfig(
      [Stamp(TimeStamper("@timestamp", false)), Render(KeyValueRenderer(true, ["@timestamp", "event"]))], PrintLoggerFactory(Stdout)))
    ensures ConfigureLogging("kv", false, stderr).value.factory == PrintLoggerFactory(Stderr)
    ensures ConfigureLogging("kv", false, logFile).value.factory == PrintLoggerFactory(FileStream("./gitmesh.log"))
  {
    FileUrls(stdout, stderr, logFile);
    FileStreams();
    FileEndpoint("kv", false, "/dev/stdout");
    FileEndpoint("kv", false, "/dev/stderr");
    FileEndpoint("kv", false, "./gitmesh.log");
  }

  /** An endpoint of another kind is refused with its text in the message. */
  lemma UnknownEndpoint()
    ensures ConfigureLogging("kv", false, "flume://127.0.0.1:44444")
         == Failure(ValueError("Invalid logging endpoint \"flume://127.0.0.1:44444\"."))
  {
    var endpoint := "flume://127.0.0.1:44444";
    assert "Invalid logging endpoint \"" + endpoint + "\"." == "Invalid logging endpoint \"flume://127.0.0.1:44444\".";
    NotPrefix(endpoint, "file://", 1);
    NotPrefix(endpoint, "fluent://", 3);
  }

  lemma NotPrefix(s: string, prefix: string, i: nat)
    requires i < |prefix| && i < |s| && s[i] != prefix[i]
    ensures !StartsWith(s, prefix)
  {
  }

  /** A Fluent endpoint keeps the caller's clock zone: the time stamper is built before the branch sets `utc`. */
  lemma FluentKeepsClockZone(host: string, port: nat, app: string)
    requires host != [] && PlainNetloc(host) && PlainApp(app)
    ensures ConfigureLogging("kv", false, FluentUrl(host, port, app))
         == Success(LogConfig([Stamp(TimeStamper("@timestamp", false))], FluentLoggers(FluentFactory(app, host, port))))
  {
    var url := FluentUrl(host, port, app);
    assert url == "fluent://" + (host + ":" + Decimal(port) + "/" + app);
    assert !StartsWith(url, "file://") by {
      assert url[2] == 'u';
    }
    assert StartsWith(url, "fluent://");
    FromFluentUrl(host, port, app);
  }

  // ---- TimeStamper ----

  /** A date and time as `datetime` holds it; `aware` is a UTC time zone attached. */
  datatype DateTime = DateTime(year: nat, month: nat, day: nat, hour: nat, minute: nat, second: nat, microsecond: nat, aware: bool)

  /** `'%0<width>d' % n`. */
  function Padded(n: nat, width: nat): (s: string)
    ensures |s| >= width && |s| >= 1
    ensures forall i :: 0 <= i < |s| ==> IsDigit(s[i])
  {
    var d := Decimal(n);
    if |d| >= width then d else seq(width - |d|, _ => '0') + d
  }

  /** `datetime.isoformat()`: date and time, microseconds only when there are some, and `+00:00` on an aware time. */
  function IsoFormat(t: DateTime): string {
    Padded(t.year, 4) + "-" + Padded(t.month, 2) + "-" + Padded(t.day, 2) + "T"
    + Padded(t.hour, 2) + ":" + Padded(t.minute, 2) + ":" + Padded(t.second, 2)
    + (if t.microsecond != 0 then "." + Padded(t.microsecond, 6) else "")
    + (if t.aware then "+00:00" else "")
  }

  /** The two readings of the clock, both without a time zone: `datetime.utcnow()` and `datetime.now()`. */
  datatype Clock = Clock(utcNow: DateTime, localNow: DateTime)

  /** The time the stamper's `now` returns. */
  function Now(stamper: TimeStamper, clock: Clock): (t: DateTime)
    ensures t.aware == stamper.utc
  {
    if stamper.utc then clock.utcNow.(aware := true) else clock.localNow.(aware := false)
  }

  /** A value in an event: the kinds the stamper tells apart. */
  datatype Value = PyNone | Str(text: string) | Int(number: int) | Time(time: DateTime)

  /**
   * The event after stamping: a present, non-`None` `@timestamp` is kept,
   * otherwise it is `now`; a date and time is written in ISO form.
   */
  function Stamped(event: map<string, Value>, now: DateTime): (r: map<string, Value>)
    ensures "@timestamp" in r && !r["@timestamp"].PyNone? && !r["@timestamp"].Time?
    ensures r.Keys == event.Keys + {"@timestamp"}
    ensures forall k :: k in event && k != "@timestamp" ==> r[k] == event[k]
  {
    var found := if "@timestamp" in event then event["@timestamp"] else PyNone;
    var stamp := if found.PyNone? then Time(now) else found;
    event["@timestamp" := if stamp.Time? then Str(IsoFormat(stamp.time)) else stamp]
  }

  /** Stamping an event twice is stamping it once: the second pass finds a text stamp and keeps it. */
  lemma StampedIdempotent(event: map<string, Value>, first: DateTime, second: DateTime)
    ensures Stamped(Stamped(event, first), second) == Stamped(event, first)
  {
  }

  /** What the stamp becomes: now when missing or `None`, the ISO form of a date and time, any other value as it was. */
  lemma StampChoice(event: map<string, Value>, now: DateTime)
    ensures "@timestamp" !in event || event["@timestamp"].PyNone? ==> Stamped(event, now)["@timestamp"] == Str(IsoFormat(now))
    ensures "@timestamp" in event && event["@timestamp"].Time? ==> Stamped(event, now)["@timestamp"] == Str(IsoFormat(event["@timestamp"].time))
    ensures "@timestamp" in event && (event["@timestamp"].Str? || event["@timestamp"].Int?) ==> Stamped(event, now)["@timestamp"] == event["@timestamp"]
  {
  }

  /** A logged event: the dictionary the processors update in place. */
  class EventDict {
    var entries: map<string, Value>

    constructor (entries: map<string, Value>)
      ensures this.entries == entries
    {
      this.entries := entries;
    }
  }

  /** `TimeStamper.__call__`: the event's `@timestamp` is assigned in place and the same dictionary is returned. */
  method StampEvent(stamper: TimeStamper, clock: Clock, event: EventDict) returns (r: EventDict)
    modifies event
    ensures r == event
    ensures event.entries == Stamped(old(event.entries), Now(stamper, clock))
  {
    var timestamp := if "@timestamp" in event.entries then event.entries["@timestamp"] else PyNone;
    if timestamp.PyNone? {
      timestamp := Time(Now(stamper, clock));
    }
    if timestamp.Time? {
      timestamp := Str(IsoFormat(timestamp.time));
    }
    event.entries := event.entries["@timestamp" := timestamp];
    r := event;
  }

  /** With the clock frozen at 2016-05-08 21:19:00, a local-time stamper writes `2016-05-08T21:19:00`. */
  lemma FrozenClockStamp(event: map<string, Value>)
    requires "@timestamp" !in event
    ensures var frozen := DateTime(2016, 5, 8, 21, 19, 0, 0, false);
      Stamped(event, Now(TimeStamper("@timestamp", false), Clock(frozen, frozen)))["@timestamp"] == Str("2016-05-08T21:19:00")
  {
    var frozen := DateTime(2016, 5, 8, 21, 19, 0, 0, false);
    FrozenIso();
  }

  // ---- FluentLogger ----

  /**
   * `FluentLogger.info(event, **kwds)` after the processors: the `event`
   * entry becomes the label and the other entries the record sent; without
   * an `event` entry the call fails, which is `None` here.
   */
  function FluentEmit(entries: map<string, Value>): (r: Option<(Value, map<string, Value>)>)
    ensures r.Some? <==> "event" in entries
    ensures r.Some? ==> r.value.0 == entries["event"]
    ensures r.Some? ==> r.value.1.Keys == entries.Keys - {"event"}
    ensures r.Some? ==> forall k :: k in r.value.1 ==> r.value.1[k] == entries[k]
  {
    if "event" in entries then Some((entries["event"], entries - {"event"})) else None
  }

  /** With the clock frozen, `log.info('teh.event', a=1, b=2)` through a Fluent endpoint sends the stamped record. */
  lemma FluentEventExample(url: string)
    requires url == "fluent://127.0.0.1:24224/the-app"
    ensures var frozen := DateTime(2016, 5, 8, 21, 19, 0, 0, false);
      var event := map["event" := Str("teh.event"), "a" := Int(1), "b" := Int(2)];
      && ConfigureLogging("kv", false, url).Success?
      && ConfigureLogging("kv", false, url).value.processors == [Stamp(TimeStamper("@timestamp", false))]
      && FluentEmit(Stamped(event, Now(TimeStamper("@timestamp", false), Clock(frozen, frozen))))
         == Some((Str("teh.event"), map["a" := Int(1), "b" := Int(2), "@timestamp" := Str("2016-05-08T21:19:00")]))
  {
    FluentExampleConfig(url);
    FluentExampleEmit();
  }

  lemma FluentExampleConfig(url: string)
    requires url == "fluent://127.0.0.1:24224/the-app"
    ensures ConfigureLogging("kv", false, url)
         == Success(LogConfig([Stamp(TimeStamper("@timestamp", false))], FluentLoggers(FluentFactory("the-app", "127.0.0.1", 24224))))
  {
    ExampleHost();
    ExampleDecimal();
    FluentKeepsClockZone("127.0.0.1", 24224, "the-app");
  }

  lemma FluentExampleEmit()
    ensures var frozen := DateTime(2016, 5, 8, 21, 19, 0, 0, false);
      var event := map["event" := Str("teh.event"), "a" := Int(1), "b" := Int(2)];
      FluentEmit(Stamped(event, Now(TimeStamper("@timestamp", false), Clock(frozen, frozen))))
        == Some((Str("teh.event"), map["a" := Int(1), "b" := Int(2), "@timestamp" := Str("2016-05-08T21:19:00")]))
  {
    var frozen := DateTime(2016, 5, 8, 21, 19, 0, 0, false);
    var event := map["event" := Str("teh.event"), "a" := Int(1), "b" := Int(2)];
    FrozenClockStamp(event);
    var stamped := Stamped(event, Now(TimeStamper("@timestamp", false), Clock(frozen, frozen)));
    FluentRecord(stamped, Str("teh.event"), Int(1), Int(2), Str("2016-05-08T21:19:00"));
  }

  lemma FluentRecord(stamped: map<string, Value>, e: Value, a: Value, b: Value, t: Value)
    requires stamped.Keys == {"event", "a", "b", "@timestamp"}
    requires stamped["event"] == e && stamped["a"] == a && stamped["b"] == b && stamped["@timestamp"] == t
    ensures FluentEmit(stamped) == Some((e, map["a" := a, "b" := b, "@timestamp" := t]))
  {
    var m := map["a" := a, "b" := b, "@timestamp" := t];
    var sent := stamped - {"event"};
    assert sent.Keys == m.Keys;
    assert sent["a"] == a && sent["b"] == b && sent["@timestamp"] == t;
    assert forall k :: k in m ==> sent[k] == m[k];
    assert sent == m;
  }

  // ---- The example URLs and times, piece by piece ----
  // Equalities between the literals of the examples above, each on its own
  // so that every example's proof stays small.

  lemma ExampleHost()
    ensures PlainNetloc("127.0.0.1") && ':' !in "127.0.0.1" && PlainApp("the-app")
  {
  }

  lemma ExampleDecimal()
    ensures FluentUrl("127.0.0.1", 24224, "the-app") == "fluent://127.0.0.1:24224/the-app"
  {
    DefaultPortDigits();
    ExampleUrlText();
  }

  lemma DefaultPortDigits()
    ensures Decimal(24224) == "24224"
  {
    assert Decimal(2) == "2" && Decimal(24) == "24" && Decimal(242) == "242" && Decimal(2422) == "2422";
  }

  lemma ExampleUrlText()
    ensures "fluent://" + "127.0.0.1" + ":" + "24224" + "/" + "the-app" == "fluent://127.0.0.1:24224/the-app"
  {
  }

  lemma WrongSchemeParts(url: string)
    requires url == "fluentd://127.0.0.1:abcd/the-app"
    ensures LowerWord("fluentd") && NoBreaks("/the-app") && '#' !in "/the-app"
    ensures url == "fluentd" + "://" + "127.0.0.1:abcd" + "/the-app"
    ensures PlainNetloc("127.0.0.1:abcd")
  {
    WrongSchemeUrl(url);
    WrongSchemeText();
  }

  lemma WrongSchemeUrl(url: string)
    requires url == "fluentd://127.0.0.1:abcd/the-app"
    ensures url == "fluentd" + "://" + "127.0.0.1:abcd" + "/the-app"
  {
  }

  lemma WrongSchemeText()
    ensures LowerWord("fluentd") && NoBreaks("/the-app") && '#' !in "/the-app"
    ensures PlainNetloc("127.0.0.1:abcd")
  {
  }

  lemma QueryExampleParts(url: string)
    requires url == "fluent://127.0.0.1:24224/the-app?hello=1"
    ensures url == "fluent://" + "127.0.0.1:24224" + "/the-app" + "?" + "hello=1"
    ensures PlainNetloc("127.0.0.1:24224") && '?' !in "/the-app"
    ensures NoBreaks("/the-app") && NoBreaks("hello=1") && '#' !in "/the-app" && '#' !in "hello=1"
  {
    QueryExampleUrl(url);
    QueryExampleText();
  }

  lemma QueryExampleUrl(url: string)
    requires url == "fluent://127.0.0.1:24224/the-app?hello=1"
    ensures url == "fluent://" + "127.0.0.1:24224" + "/the-app" + "?" + "hello=1"
  {
  }

  lemma QueryExampleText()
    ensures PlainNetloc("127.0.0.1:24224") && '?' !in "/the-app"
    ensures NoBreaks("/the-app") && NoBreaks("hello=1") && '#' !in "/the-app" && '#' !in "hello=1"
  {
  }

  lemma FileUrls(stdout: string, stderr: string, logFile: string)
    requires stdout == "file:///dev/stdout" && stderr == "file:///dev/stderr" && logFile == "file://./gitmesh.log"
    ensures stdout == "file://" + "/dev/stdout" && stderr == "file://" + "/dev/stderr" && logFile == "file://" + "./gitmesh.log"
  {
  }

  lemma FileStreams()
    ensures StreamFor("/dev/stdout") == Stdout && StreamFor("/dev/stderr") == Stderr
    ensures StreamFor("./gitmesh.log") == FileStream("./gitmesh.log")
    ensures RendererFor("kv") == KeyValueRenderer(true, ["@timestamp", "event"])
  {
  }

  lemma FrozenIso()
    ensures IsoFormat(DateTime(2016, 5, 8, 21, 19, 0, 0, false)) == "2016-05-08T21:19:00"
  {
    var t := DateTime(2016, 5, 8, 21, 19, 0, 0, false);
    FrozenFields();
    assert IsoFormat(t) == "2016" + "-" + "05" + "-" + "08" + "T" + "21" + ":" + "19" + ":" + "00" + "" + "";
    FrozenText();
  }

  lemma FrozenFields()
    ensures Padded(2016, 4) == "2016" && Padded(21, 2) == "21" && Padded(19, 2) == "19"
    ensures Padded(5, 2) == "05" && Padded(8, 2) == "08" && Padded(0, 2) == "00"
  {
    DecimalDigits();
    PaddedDigit(5);
    PaddedDigit(8);
    PaddedDigit(0);
  }

  lemma PaddedDigit(n: nat)
    requires n < 10
    ensures Padded(n, 2) == ['0', DigitChar(n)]
  {
  }

  lemma FrozenText()
    ensures "2016" + "-" + "05" + "-" + "08" + "T" + "21" + ":" + "19" + ":" + "00" + "" + "" == "2016-05-08T21:19:00"
  {
  }

  lemma DecimalDigits()
    ensures Decimal(2016) == "2016" && Decimal(21) == "21" && Decimal(19) == "19"
  {
    assert Decimal(2) == "2" && Decimal(20) == "20" && Decimal(201) == "201";
  }
}
