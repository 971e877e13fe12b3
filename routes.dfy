/**
 * The HTTP side of gitmesh/server.py around the store: the repository
 * routes and what they answer, the name ordering of the listing, the
 * request id kept for each request and the outcome the access log records.
 * The web framework itself is not modelled: a handler's result is an
 * `Outcome`, the response it returns or the exception it raises.
 */
module Routes {
  import opened Wrappers
  import opened Text
  import opened Process
  import opened RepoStore
  import opened Utf8
  import opened Gateway

  /** A decoded JSON document (numbers are kept to integers). */
  datatype Json =
    | JNull
    | JBool(flag: bool)
    | JNumber(number: int)
    | JString(text: string)
    | JArray(items: seq<Json>)
    | JObject(fields: map<string, Json>)

  /** An exception other than an HTTP one: the framework answers it with 500. */
  datatype Fault =
    | MalformedJson
    | StoreFailed(store: StoreError)
    | GatewayFailed(gateway: GatewayError)
    | UnexpectedKeyword

  /** What a response carries: a JSON document (with an optional `Location`), or the backend's header map and bytes. */
  datatype Body =
    | JsonBody(json: Json, location: Option<string>)
    | CgiBody(headers: map<string, string>, bytes: seq<byte>)

  /** A handler either returns a response, raises an HTTP exception with its status, or raises anything else. */
  datatype Outcome =
    | Responded(status: int, body: Body)
    | HttpRaised(status: int)
    | Raised(fault: Fault)

  // ---- Links to a repository ----

  /** The scheme and host the request came in on. */
  datatype Site = Site(scheme: string, host: string)

  function Origin(site: Site): string {
    site.scheme + "://" + site.host
  }

  /**
   * `/repositories/{name}`: the path of both the `get-repository` and the
   * `delete-repository` routes, so the details and the delete links agree.
   */
  function RepositoryUrl(site: Site, name: string): string {
    Origin(site) + "/repositories/" + name
  }

  /** `/repositories/{name}.git{path}` with `path` set to `/`. */
  function CloneUrl(site: Site, name: string): (r: string)
    ensures r == RepositoryUrl(site, name) + ".git/"
  {
    Origin(site) + "/repositories/" + name + ".git" + "/"
  }

  /** The document describing one repository. */
  function Details(site: Site, name: string): Json {
    JObject(map[
      "name" := JString(name),
      "clone" := JArray([JString(CloneUrl(site, name))]),
      "details" := JString(RepositoryUrl(site, name)),
      "delete" := JString(RepositoryUrl(site, name))])
  }

  /** The `RepositoryDetails` schema: exactly the four keys, strings everywhere and a list of strings under `clone`. */
  predicate DetailsSchema(j: Json) {
    && j.JObject?
    && j.fields.Keys == {"name", "clone", "details", "delete"}
    && j.fields["name"].JString?
    && j.fields["clone"].JArray?
    && (forall i :: 0 <= i < |j.fields["clone"].items| ==> j.fields["clone"].items[i].JString?)
    && j.fields["details"].JString?
    && j.fields["delete"].JString?
  }

  /** The schema check applied to a repository's document never fails, and the document names the repository. */
  lemma DetailsMeetSchema(site: Site, name: string)
    ensures DetailsSchema(Details(site, name))
    ensures Details(site, name).fields["name"] == JString(name)
  {
    var j := Details(site, name);
    assert "name" in j.fields && "clone" in j.fields && "details" in j.fields && "delete" in j.fields;
    assert j.fields["clone"].items == [JString(CloneUrl(site, name))];
  }

  // ---- Creating a repository ----

  /**
   * The `CreateRequest` schema: an object whose `name` is a string, with an
   * optional string `clone_url`, and no other key.
   */
  predicate CreateSchema(j: Json) {
    && j.JObject?
    && "name" in j.fields && j.fields["name"].JString?
    && ("clone_url" in j.fields ==> j.fields["clone_url"].JString?)
    && j.fields.Keys <= {"name", "clone_url"}
  }

  /** The answer to a creation once the store has spoken: 409 for an existing name, 201 with the document and its link, and any other store error passed on. */
  function CreateOutcome(site: Site, name: string, created: Result<Repository, StoreError>): (o: Outcome)
    ensures o == HttpRaised(409) <==> created == Failure(RepositoryExists)
    ensures o.Responded? <==> created.Success?
    ensures o.Responded? ==>
      && o.status == 201 && o.body.JsonBody?
      && o.body.json == Details(site, name) && o.body.location == Some(o.body.json.fields["details"].text)
    ensures o.Raised? ==> o.fault == StoreFailed(created.error)
  {
    match created
    case Failure(RepositoryExists) => HttpRaised(409)
    case Failure(e) => Raised(StoreFailed(e))
    case Success(_) => Responded(201, JsonBody(Details(site, name), Some(RepositoryUrl(site, name))))
  }

  /**
   * `create_repository`: a body that is not JSON fails before anything
   * else, a body outside the schema is a 400, and only then is the store
   * asked to create the repository; `clone_url` is accepted and unused.
   * The store is called with the name alone, the way `create_repo` is
   * declared (see `CreateAsWritten` for the call as it stands).
   */
  method CreateRepository(store: Storage, site: Site, body: Option<Json>, init: Exit) returns (o: Outcome)
    requires store.Valid()
    modifies store
    ensures store.Valid()
    ensures body.None? ==> o == Raised(MalformedJson) && store.disk == old(store.disk)
    ensures body.Some? && !CreateSchema(body.value) ==> o == HttpRaised(400) && store.disk == old(store.disk)
    ensures body.Some? && CreateSchema(body.value) ==>
      var name := body.value.fields["name"].text;
      var made := Mkdir(old(store.disk), Entry(name, true));
      && (made.Failure? ==> store.disk == old(store.disk) && o == CreateOutcome(site, name, Failure(
            if made.error == FileExistsError then RepositoryExists else OSError(made.error))))
      && (made.Success? ==> store.disk == made.value && o == CreateOutcome(site, name, InitResult(store.root, name, init)))
  {
    if body.None? {
      return Raised(MalformedJson);
    }
    var j := body.value;
    if !CreateSchema(j) {
      return HttpRaised(400);
    }
    var name := j.fields["name"].text;
    var created := store.CreateRepo(name, init);
    o := CreateOutcome(site, name, created);
  }

  /**
   * `create_repository` as it stands: the store is called with an
   * `install_hooks` keyword that `create_repo` does not declare, so every
   * request that passes the schema raises `TypeError` before `mkdir` runs
   * and the store is left alone.
   */
  function CreateAsWritten(body: Option<Json>): (o: Outcome)
    ensures !o.Responded?
    ensures body.None? ==> o == Raised(MalformedJson)
    ensures body.Some? && !CreateSchema(body.value) ==> o == HttpRaised(400)
    ensures body.Some? && CreateSchema(body.value) ==> o == Raised(UnexpectedKeyword)
  {
    match body
    case None => Raised(MalformedJson)
    case Some(j) => if !CreateSchema(j) then HttpRaised(400) else Raised(UnexpectedKeyword)
  }

  /**
   * A request that the declared call answers with 201 (a fresh name, and
   * `git init --bare` succeeds) is logged as 500 by the call as it stands.
   */
  lemma CreateAsWrittenFailsFreshName(path: string, stored: Option<string>, site: Site, root: string, d: Disk, name: string, init: Exit)
    requires Mkdir(d, Entry(name, true)).Success? && InitResult(root, name, init).Success?
    ensures var body := Some(JObject(map["name" := JString(name)]));
      && CreateSchema(body.value)
      && AccessLog(path, stored, CreateAsWritten(body)).0.outcome == 500
      && CreateOutcome(site, name, InitResult(root, name, init)).status == 201
  {
    var j := JObject(map["name" := JString(name)]);
    assert j.fields.Keys == {"name"};
  }

  /** A second creation of the same name conflicts and leaves the disk as the first one left it. */
  lemma CreateTwiceConflicts(d: Disk, name: string, site: Site)
    requires Mkdir(d, Entry(name, true)).Success?
    ensures Mkdir(Mkdir(d, Entry(name, true)).value, Entry(name, true)) == Failure(FileExistsError)
    ensures CreateOutcome(site, name, Failure(RepositoryExists)).status == 409
  {
  }

  // ---- Querying and deleting ----

  /** `query_repository`: 404 unless the bare directory exists; the store is not changed. */
  method QueryRepository(store: Storage, site: Site, name: string) returns (o: Outcome)
    ensures Exists(store.disk, name) ==> o == Responded(200, JsonBody(Details(site, name), None))
    ensures !Exists(store.disk, name) ==> o == HttpRaised(404)
  {
    var found := store.HasRepository(name);
    if !found {
      return HttpRaised(404);
    }
    o := Responded(200, JsonBody(Details(site, name), None));
  }

  /** `delete_repository`: 404 for an unknown name, otherwise the directory goes and the answer is `{}`. */
  method DeleteRepository(store: Storage, name: string) returns (o: Outcome)
    requires store.Valid()
    modifies store
    ensures store.Valid()
    ensures !Exists(old(store.disk), name) ==> o == HttpRaised(404) && store.disk == old(store.disk)
    ensures Exists(old(store.disk), name) ==>
      o == Responded(200, JsonBody(JObject(map[]), None)) && store.disk == Rmtree(old(store.disk), Entry(name, true))
  {
    var r := store.DeleteRepo(name);
    if r.Failure? {
      return HttpRaised(404);
    }
    o := Responded(200, JsonBody(JObject(map[]), None));
  }

  // ---- The listing ----

  /** Python's `<=` on strings: code point by code point, a proper prefix first. */
  predicate AtMost(a: string, b: string)
    decreases |a|
  {
    a == [] || (b != [] && (a[0] < b[0] || (a[0] == b[0] && AtMost(a[1..], b[1..]))))
  }

  lemma {:induction false} AtMostTotal(a: string, b: string)
    ensures AtMost(a, b) || AtMost(b, a)
    decreases |a|
  {
    if a != [] && b != [] && a[0] == b[0] {
      AtMostTotal(a[1..], b[1..]);
    }
  }

  lemma {:induction false} AtMostTransitive(a: string, b: string, c: string)
    requires AtMost(a, b) && AtMost(b, c)
    ensures AtMost(a, c)
    decreases |a|
  {
    if a != [] && a[0] == b[0] && b[0] == c[0] {
      AtMostTransitive(a[1..], b[1..], c[1..]);
    }
  }

  lemma {:induction false} AtMostAntisymmetric(a: string, b: string)
    requires AtMost(a, b) && AtMost(b, a)
    ensures a == b
    decreases |a|
  {
    if a != [] {
      AtMostAntisymmetric(a[1..], b[1..]);
      assert a == [a[0]] + a[1..] && b == [b[0]] + b[1..];
    }
  }

  predicate Sorted(s: seq<string>) {
    forall i, j :: 0 <= i < j < |s| ==> AtMost(s[i], s[j])
  }

  /** `x` placed before the first element it does not follow. */
  function Insert(x: string, s: seq<string>): (r: seq<string>)
    ensures multiset(r) == multiset(s) + multiset{x}
  {
    if s == [] then [x]
    else if AtMost(x, s[0]) then [x] + s
    else
      assert s == [s[0]] + s[1..];
      [s[0]] + Insert(x, s[1..])
  }

  lemma {:induction false} InsertSorted(x: string, s: seq<string>)
    requires Sorted(s)
    ensures Sorted(Insert(x, s))
  {
    if s == [] {
    } else if AtMost(x, s[0]) {
      var r := [x] + s;
      forall i, j | 0 <= i < j < |r| ensures AtMost(r[i], r[j]) {
        if i == 0 && j > 1 {
          AtMostTransitive(x, s[0], s[j - 1]);
        }
      }
    } else {
      AtMostTotal(x, s[0]);
      var tail := s[1..];
      InsertSorted(x, tail);
      var t := Insert(x, tail);
      forall k | 0 <= k < |t| ensures AtMost(s[0], t[k]) {
        assert t[k] in multiset(t);
        if t[k] != x {
          assert t[k] in multiset(tail);
          var i :| 0 <= i < |tail| && tail[i] == t[k];
          assert s[i + 1] == t[k];
        }
      }
      var r := [s[0]] + t;
      forall i, j | 0 <= i < j < |r| ensures AtMost(r[i], r[j]) {
        if i > 0 {
          assert r[i] == t[i - 1] && r[j] == t[j - 1];
        }
      }
    }
  }

  /** `sorted(names)`: ascending, and the same names as many times each. */
  function Sort(names: seq<string>): (r: seq<string>)
    ensures Sorted(r) && multiset(r) == multiset(names)
  {
    if names == [] then []
    else
      var rest := Sort(names[1..]);
      InsertSorted(names[0], rest);
      assert names == [names[0]] + names[1..];
      Insert(names[0], rest)
  }

  /** Two ascending orders of the same names are the same sequence: the sorted listing does not depend on the order it was read in. */
  lemma {:induction false} SortedUnique(s: seq<string>, t: seq<string>)
    requires Sorted(s) && Sorted(t) && multiset(s) == multiset(t)
    ensures s == t
    decreases |s|
  {
    assert |s| == |multiset(s)| == |multiset(t)| == |t|;
    if s != [] {
      SameFirst(s, t);
      SameTails(s, t);
      SortedUnique(s[1..], t[1..]);
      assert s == [s[0]] + s[1..] && t == [t[0]] + t[1..];
    }
  }

  /** Two ascending orders of the same names start alike. */
  lemma SameFirst(s: seq<string>, t: seq<string>)
    requires s != [] && t != []
    requires Sorted(s) && Sorted(t) && multiset(s) == multiset(t)
    ensures s[0] == t[0]
  {
    assert s[0] in multiset(t) && t[0] in multiset(s);
    var i :| 0 <= i < |t| && t[i] == s[0];
    var j :| 0 <= j < |s| && s[j] == t[0];
    if i > 0 && j > 0 {
      assert AtMost(t[0], t[i]) && AtMost(s[0], s[j]);
      AtMostAntisymmetric(s[0], t[0]);
    }
  }

  lemma SameTails(s: seq<string>, t: seq<string>)
    requires s != [] && t != [] && s[0] == t[0] && multiset(s) == multiset(t)
    ensures multiset(s[1..]) == multiset(t[1..])
  {
    assert s == [s[0]] + s[1..] && t == [t[0]] + t[1..];
    assert multiset(s) == multiset{s[0]} + multiset(s[1..]);
    assert multiset(t) == multiset{t[0]} + multiset(t[1..]);
    forall x ensures multiset(s[1..])[x] == multiset(t[1..])[x] {
      assert multiset(s)[x] == multiset{s[0]}[x] + multiset(s[1..])[x];
      assert multiset(t)[x] == multiset{t[0]}[x] + multiset(t[1..])[x];
    }
  }

  function DetailsList(site: Site, names: seq<string>): (r: seq<Json>)
    ensures |r| == |names| && forall i :: 0 <= i < |names| ==> r[i] == Details(site, names[i])
  {
    seq(|names|, i requires 0 <= i < |names| => Details(site, names[i]))
  }

  /** The listing document for names already in the order they are to appear in. */
  function Page(site: Site, ordered: seq<string>): Json {
    JObject(map["repositories" := JArray(DetailsList(site, ordered))])
  }

  /** `list_repositories`' document: one entry per name, by ascending name. */
  function Listing(site: Site, names: seq<string>): Json {
    Page(site, Sort(names))
  }

  /** The listing is the page of any ascending arrangement of the names. */
  lemma ListingAscending(site: Site, names: seq<string>, ordered: seq<string>)
    requires Sorted(ordered) && multiset(ordered) == multiset(names)
    ensures Listing(site, names) == Page(site, ordered)
  {
    SortedUnique(Sort(names), ordered);
  }

  /** The order the directory was read in does not show in the listing. */
  lemma ListingIgnoresOrder(site: Site, a: seq<string>, b: seq<string>)
    requires multiset(a) == multiset(b)
    ensures Listing(site, a) == Listing(site, b)
  {
    SortedUnique(Sort(a), Sort(b));
  }

  /** The listed names for directory entries read in `order`. */
  function ListedNames(order: seq<string>): (r: seq<string>)
    ensures |r| == |order| && forall i :: 0 <= i < |order| ==> r[i] == DropLast(order[i], 4)
  {
    seq(|order|, i requires 0 <= i < |order| => DropLast(order[i], 4))
  }

  /** `list_repositories` (the route): the store's names, sorted, in one document. */
  method ListRepositories(store: Storage, site: Site) returns (o: Outcome, order: seq<string>)
    ensures forall e :: e in order <==> e in Visible(store.disk)
    ensures forall i, j :: 0 <= i < j < |order| ==> order[i] != order[j]
    ensures o == Responded(200, JsonBody(Listing(site, ListedNames(order)), None))
  {
    var names;
    names, order := store.ListRepositories();
    assert names == ListedNames(order);
    o := Responded(200, JsonBody(Listing(site, names), None));
  }

  // ---- The git endpoint ----

  /** The endpoint's answer: the backend's status, headers and body, or the failure raised on the way. */
  function EndpointOutcome(r: Result<BackendResponse, GatewayError>): (o: Outcome)
    ensures o.Responded? <==> r.Success?
    ensures r.Success? ==> o.status == r.value.status && o.body == CgiBody(r.value.headers, r.value.body)
    ensures r.Failure? ==> o == Raised(GatewayFailed(r.error))
  {
    match r
    case Success(resp) => Responded(resp.status, CgiBody(resp.headers, resp.body))
    case Failure(e) => Raised(GatewayFailed(e))
  }

  // ---- Middleware ----

  /** `inject_request_id`: the incoming `x-request-id` header unless it is missing or empty, else a fresh id. */
  function InjectRequestId(header: Option<string>, generated: string): (id: string)
    ensures header.Some? && header.value != [] ==> id == header.value
    ensures header.None? || header.value == [] ==> id == generated
  {
    match header
    case Some(h) => if h != [] then h else generated
    case None => generated
  }

  /** `echo_request_id`: the id stored on the request, `?` when none is. */
  function EchoRequestId(stored: Option<string>): (h: string)
    ensures stored.Some? ==> h == stored.value
    ensures stored.None? ==> h == "?"
  {
    match stored
    case Some(id) => id
    case None => "?"
  }

  /** One `http.access` event (the duration and the time stamp are left out). */
  datatype AccessEntry = AccessEntry(path: string, outcome: int, request: string)

  /**
   * `access_log_middleware`: the status of the returned response, the
   * status of a raised HTTP exception, or 500 for anything else; the
   * handler's outcome goes on unchanged, exceptions included.
   */
  function AccessLog(path: string, stored: Option<string>, o: Outcome): (r: (AccessEntry, Outcome))
    ensures r.1 == o
    ensures r.0.path == path && r.0.request == EchoRequestId(stored)
    ensures !o.Raised? ==> r.0.outcome == o.status
    ensures o.Raised? ==> r.0.outcome == 500
  {
    var outcome := match o
      case Responded(status, _) => status
      case HttpRaised(status) => status
      case Raised(_) => 500;
    (AccessEntry(path, outcome, EchoRequestId(stored)), o)
  }

  /**
   * A request through both middlewares: the id is injected first, so the
   * access log and the echoed header see the same one.
   */
  function Serve(path: string, header: Option<string>, generated: string, o: Outcome): (AccessEntry, Outcome, string) {
    var stored := Some(InjectRequestId(header, generated));
    var (entry, result) := AccessLog(path, stored, o);
    (entry, result, EchoRequestId(stored))
  }

  /** The logged id is the echoed one: the client's own id when it sent a non-empty one, otherwise the fresh one, never `?`. */
  lemma ServedIdsAgree(path: string, header: Option<string>, generated: string, o: Outcome)
    ensures var (entry, result, echoed) := Serve(path, header, generated, o);
      && entry.request == echoed && result == o
      && (header.Some? && header.value != [] ==> echoed == header.value)
      && (header.None? || header.value == [] ==> echoed == generated)
  {
  }

  /** A failing backend is logged as 500 and the failure is passed on. */
  lemma BackendFailureLogged(path: string, stored: Option<string>, exit: Exit)
    requires exit.status != 0
    ensures var (entry, result) := AccessLog(path, stored, EndpointOutcome(EndpointResult(exit)));
      entry.outcome == 500 && result.Raised? && result.fault.GatewayFailed?
  {
  }

  /** The backend's own `Status` reaches the access log. */
  lemma BackendStatusLogged(path: string, stored: Option<string>)
    ensures var out := Encode("Status: 404 Not Found\r\nContent-Type: text/plain\r\n\r\nbody");
      AccessLog(path, stored, EndpointOutcome(ParseBackendOutput(out))).0.outcome == 404
  {
    NotFoundResponse();
  }

  /** Every store error but an existing name is logged as 500. */
  lemma CreateFailureLogged(path: string, stored: Option<string>, site: Site, name: string, e: StoreError)
    requires e != RepositoryExists
    ensures AccessLog(path, stored, CreateOutcome(site, name, Failure(e))).0.outcome == 500
  {
  }
}
