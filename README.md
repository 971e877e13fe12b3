# gitmesh, modelled in Dafny

gitmesh is a small Git hosting server. An HTTP API creates, lists, queries
and deletes bare repositories kept as `<name>.git` folders under one
storage folder. Git's smart HTTP traffic for those repositories is handed
to `git http-backend` over CGI. A command-line program configures
structured logging, serves the API, and acts as Git's server-side hooks
(`pre-receive`, `update`, `post-receive`, `post-update`). Each hook runs
the plug-ins installed for it.

This project models the three core files:

- `gitmesh/storage.py`:
  - `check_output`, with its quoting, decoding, status check and result shape;
  - the `Storage` object, over a model of the folders on disk;
  - the repository and hook paths.
- `gitmesh/server.py`:
  - the request-id and access-log middleware;
  - the JSON handlers for the repository collection;
  - the CGI environment and the parsing of the backend's output.
- `gitmesh/__main__.py`:
  - `FluentLoggerFactory.from_url` on top of `urlsplit`;
  - `configure_logging`;
  - the in-place `TimeStamper`;
  - the hook commands and the request-id banner.

Layout, one module per file:

| file | module | models |
|---|---|---|
| `wrappers.dfy` | `Wrappers` | `Option` and `Result` |
| `text.dfy` | `Text` | the Python string operations the core relies on: `strip`, `find`, `split`/`rsplit` with a limit, `join`, slices, `int()`/`str()` on integers, `dict()` of pairs |
| `utf8.dfy` | `Utf8` | strict UTF-8 encoding and decoding of text |
| `process.dfy` | `Process` | `check_output`, with a finished process given as its exit status and captured bytes |
| `storage.dfy` | `RepoStore` | paths, the disk model (`mkdir`, `rmtree`, `listdir`), the `Storage` class, clone names and hook paths |
| `gateway.dfy` | `Gateway` | the CGI environment and the backend's CGI response (section 6 of RFC 3875) |
| `routes.dfy` | `Routes` | the JSON handlers, the sorted listing, and both middlewares |
| `hooks.dfy` | `Hooks` | the parsing of hook input, the fail-fast hook loop, the four hook commands and the banner |
| `logconfig.dfy` | `Logging` | `urlsplit`, `from_url`, `configure_logging`, `TimeStamper` and `FluentLogger.info` |

State that the source changes in place is modelled with imperative members:

- `Storage` is a class whose `disk` field the `CreateRepo`, `DeleteRepo` and `Clone` methods reassign.
- The environment copy that is updated twice is a method (`Gateway.CgiEnvironment`).
- The hook loop is a method with a `while` loop (`Hooks.RunHooks`).
- The event dictionary that `TimeStamper` assigns into is an `EventDict` class (`Logging.StampEvent`).

Each of these methods is specified by a pure function, and the lemmas state their properties about that function.

## Model

| member | source | states |
|---|---|---|
| `Process.QuoteAll` | gitmesh/storage.py:15-18 | each argument of a list command is wrapped in double quotes, in order |
| `Process.UnquoteCommandLine` | gitmesh/storage.py:15-18 | when no argument holds a double quote, the joined command line gives back exactly the argument list |
| `Process.QuotesInArgumentsCollide` | gitmesh/storage.py:15-18 | an argument that holds `" "` gives the same command line as two arguments, so the quoting does not escape |
| `Process.CheckOutput` | gitmesh/storage.py:28-38 | a call succeeds only with status 0; with `split` it returns standard error too; binary output is returned raw, and text output is the stripped UTF-8 decoding of standard output; a non-zero status raises `CalledProcessError` carrying the status, the command line and that same output; undecodable text output raises a decoding error |
| `Process.DecodedOutputIsStripped` | gitmesh/storage.py:29-30 | decoded output starts and ends with a non-whitespace character |
| `Process.FailsExactlyOnNonZeroStatus` | gitmesh/storage.py:31-34 | once the output is decodable, the call fails if and only if the status is non-zero |
| `Process.FailureReportsSuccessOutput` | gitmesh/storage.py:32-34 | the error for a failed status carries the same output that success would have returned |
| `Process.CaptureEncodedText` | gitmesh/storage.py:29-30 | UTF-8 text with trailing whitespace comes back as the text without it |
| `Utf8.DecodeEncode` | gitmesh/storage.py:30 | decoding UTF-8 gives back every encoded string |
| `RepoStore.PathJoin` | gitmesh/storage.py:63-65 | `os.path.join`: an absolute second part replaces the first; otherwise the result starts with the first part and ends with the second |
| `RepoStore.RepoPathShape` | gitmesh/storage.py:61-65 | a repository lives at `<root>/<name>.git`, or at `<root>/<name>` when it is not bare |
| `RepoStore.HookPathShape` | gitmesh/storage.py:137-140 | a hook lives at `<repo>/hooks/<name>` in a bare repository, and at `<repo>/.git/hooks/<name>` otherwise |
| `RepoStore.InstallHookMissesRelativeRepository` | gitmesh/storage.py:126-142 | when the repository path is relative, the path `edit` opens for writing is the hook path joined onto the repository path a second time, which is not the hook path |
| `RepoStore.InstallHookAbsoluteRepository` | gitmesh/storage.py:126-142 | when the repository path is absolute, the path `edit` opens for writing is the hook path |
| `RepoStore.InstallHookTargetShape` | gitmesh/storage.py:135-142 | the corrected target (`InstallHookTarget`) is `<repo>/hooks/<name>`, or `<repo>/.git/hooks/<name>` for a working copy, whether the repository path is relative or absolute; for an absolute path it is the path `edit` opens as the code stands |
| `RepoStore.Mkdir` | gitmesh/storage.py:70-73 | `os.mkdir` fails with `FileExistsError` exactly when the path is taken; on success it adds exactly that directory |
| `RepoStore.Rmtree` | gitmesh/storage.py:102 | `shutil.rmtree` removes the directory and everything below it, and nothing else |
| `RepoStore.Visible` | gitmesh/storage.py:91-95 | the listed entries are the directories directly in the store whose names do not start with `.` |
| `RepoStore.MkdirWellformed` | gitmesh/storage.py:70-73 | creating a directory keeps every entry's parent a directory |
| `RepoStore.RmtreeWellformed` | gitmesh/storage.py:102 | removing a tree keeps every entry's parent a directory |
| `RepoStore.CreateThenDeleteRestores` | gitmesh/storage.py:67-73 | creating a repository and then deleting it gives back the disk as it was |
| `RepoStore.DeleteKeepsOthers` | gitmesh/storage.py:97-102 | deleting one repository does not change whether any other exists |
| `RepoStore.CreateIsListed` | gitmesh/storage.py:67-95 | a created repository with a name that has no `/` and no leading `.` is listed |
| `RepoStore.ListedName` | gitmesh/storage.py:92 | the listing gives back the name of `<name>.git` |
| `RepoStore.InitResult` | gitmesh/storage.py:74-78 | after `mkdir`, creation succeeds exactly when `git init --bare` succeeds, and returns the bare repository at its path |
| `RepoStore.CloneName` | gitmesh/storage.py:82 | the clone name fails with `IndexError` exactly when the link has no `/` |
| `RepoStore.CloneNameOfRepoPath` | gitmesh/storage.py:82 | the clone name of a repository path is the repository's name |
| `RepoStore.Cloned` | gitmesh/storage.py:83 | `git clone` adds its folder to the store's directories, reusing a folder already there, and leaves the other entries alone |
| `RepoStore.ClonedWellformed` | gitmesh/storage.py:83 | the store stays well-formed once the clone's folder is added |
| `RepoStore.CloneIsListed` | gitmesh/storage.py:89-95 | a cloned folder that does not start with `.` is listed by `list_repositories` |
| `RepoStore.CloneFolderIsName` | gitmesh/storage.py:82-84 | for a link ending in `.git`, the working copy `clone` returns is the folder git made |
| `RepoStore.CloneWithoutGitSuffix` | gitmesh/storage.py:82-84 | for a link without `.git`, the returned name is four characters shorter than git's folder |
| `RepoStore.Storage.CreateRepo` | gitmesh/storage.py:67-78 | an existing path gives `RepositoryExists` with the disk unchanged; otherwise the directory is made and `git init --bare` decides the result |
| `RepoStore.Storage.HasRepository` | gitmesh/storage.py:86-87 | a repository exists when `<name>.git` is a directory |
| `RepoStore.Storage.DeleteRepo` | gitmesh/storage.py:97-102 | an unknown name gives `UnknownRepository` with the disk unchanged; a known one removes its tree, after which it no longer exists |
| `RepoStore.Storage.ListRepositories` | gitmesh/storage.py:89-95 | each visible entry is listed once, with its last four characters dropped |
| `RepoStore.Storage.OpenRepo` | gitmesh/storage.py:104-105 | opening a repository gives its name, its kind and its path under the store |
| `RepoStore.Storage.Clone` | gitmesh/storage.py:80-84 | a link without `/` fails; otherwise `git clone` decides; success gives the working copy named after the link; whenever git exits with status 0, even if its output then fails to decode, the folder it made is added to the store |
| `Gateway.CgiEnvironment` | gitmesh/server.py:292-320 | the process environment is copied and then updated in place twice, giving `Environment` |
| `Gateway.EnvironmentExports` | gitmesh/server.py:317-320 | `GIT_PROJECT_ROOT` is `.` and `GIT_HTTP_EXPORT_ALL` is `1` |
| `Gateway.EnvironmentContentLength` | gitmesh/server.py:294 | `CONTENT_LENGTH` reads back as the length of the request body |
| `Gateway.EnvironmentDescribesRequest` | gitmesh/server.py:293-313 | each CGI variable carries the request's value, and `GATEWAY_INTERFACE` is `CGI/1.1` |
| `Gateway.EnvironmentKeepsAmbient` | gitmesh/server.py:292-320 | the variables are the ambient ones plus the CGI names, and every other ambient value is kept |
| `Gateway.SplitOutput` | gitmesh/server.py:333 | the head ends at the first `\r\n\r\n` and the body is everything after it; without a separator the split fails |
| `Gateway.HeaderFieldAtFirstColon` | gitmesh/server.py:334-337 | a header is cut at its first colon, and the value keeps its leading space |
| `Gateway.HeaderFields` | gitmesh/server.py:334-337 | the header block parses exactly when every line holds a colon |
| `Gateway.ParseBackendOutput` | gitmesh/server.py:333-342 | a response exists only when there is a separator; its body is what follows the separator and its status is read from the headers |
| `Gateway.StatusOfValue` | gitmesh/server.py:338-339 | the status value `<code> <reason>` gives the code, whatever the reason holds |
| `Gateway.StatusDefaultsToOk` | gitmesh/server.py:338 | without a `Status` header the status is 200 |
| `Gateway.ParseFormattedOutput` | gitmesh/server.py:333-342 | formatted header fields plus a body parse back to those fields (a later field of the same name wins), the status they give and the body |
| `Gateway.EmptyHeadFails` | gitmesh/server.py:334-337 | output that starts with the separator fails, because the empty header line has no colon |
| `Gateway.NotFoundResponse` | gitmesh/server.py:333-342 | example: a 404 CGI response gives status 404, both headers and the body |
| `Gateway.OkResponse` | gitmesh/server.py:333-342 | example: a response without `Status` gives 200 |
| `Gateway.EndpointResult` | gitmesh/server.py:324-342 | a failed backend run is an error; otherwise the response is the parse of its output |
| `Gateway.GitHttpEndpoint` | gitmesh/server.py:279-342 | the backend runs in the bare repository's path, with the body as input and the CGI environment, and the result is `EndpointResult` |
| `Routes.CloneUrl` | gitmesh/server.py:123-131 | the clone link is the repository's link followed by `.git/` |
| `Routes.DetailsMeetSchema` | gitmesh/server.py:96-101 | every details object meets the `RepositoryDetails` schema and names its repository |
| `Routes.CreateOutcome` | gitmesh/server.py:211-232 | `RepositoryExists` gives 409; success gives 201 with the details, and `Location` is the details link; any other failure propagates |
| `Routes.CreateRepository` | gitmesh/server.py:196-232 | a body that is not JSON raises; a body outside the schema gives 400 with nothing created; otherwise the store is called with the name alone, as `create_repo` declares it, and `mkdir` and `git init --bare` decide the outcome: 201 for a fresh name whose initialisation succeeds |
| `Routes.CreateTwiceConflicts` | gitmesh/server.py:211-214 | creating the same name twice gives 409 |
| `Routes.CreateAsWritten` | gitmesh/server.py:202-214 | as written, no request is answered with a response: a body outside the schema gives 400, and a valid one raises `TypeError` from the `install_hooks` keyword |
| `Routes.CreateAsWrittenFailsFreshName` | gitmesh/server.py:211-214 | a fresh name that the one-argument call answers with 201 is logged as 500 as written |
| `Routes.QueryRepository` | gitmesh/server.py:235-255 | an existing repository gives 200 with its details; an unknown one gives 404 |
| `Routes.DeleteRepository` | gitmesh/server.py:258-276 | an unknown repository gives 404 and nothing changes; a known one gives 200 `{}` and its tree is removed |
| `Routes.AtMostTotal` | gitmesh/server.py:191 | any two names are ordered one way or the other under Python's string order |
| `Routes.AtMostTransitive` | gitmesh/server.py:191 | the string order is transitive |
| `Routes.AtMostAntisymmetric` | gitmesh/server.py:191 | names ordered both ways are equal |
| `Routes.Insert` | gitmesh/server.py:191 | insertion adds exactly the one name |
| `Routes.InsertSorted` | gitmesh/server.py:191 | insertion into a sorted list keeps it sorted |
| `Routes.Sort` | gitmesh/server.py:191 | `sorted` returns an ascending permutation of the names |
| `Routes.SortedUnique` | gitmesh/server.py:191 | two ascending permutations of the same names are equal, so the sort result is unique |
| `Routes.DetailsList` | gitmesh/server.py:181-193 | the listing holds one details object per name, in order |
| `Routes.ListingAscending` | gitmesh/server.py:174-193 | the listing is the page of the names in ascending order |
| `Routes.ListingIgnoresOrder` | gitmesh/server.py:174-193 | the listing does not depend on the order in which the directory is read |
| `Routes.ListRepositories` | gitmesh/server.py:174-193 | the response is 200 with the listing of every visible repository, each once |
| `Routes.EndpointOutcome` | gitmesh/server.py:342 | a parsed backend response is passed on with its status, headers and body; a failure raises |
| `Routes.InjectRequestId` | gitmesh/server.py:27-30 | a non-empty `X-Request-ID` header is kept; otherwise a generated id is used |
| `Routes.EchoRequestId` | gitmesh/server.py:40 | the response echoes the stored id, or `?` when there is none |
| `Routes.AccessLog` | gitmesh/server.py:53-85 | one access entry per request, with the path and the request id; the outcome is the response status, the HTTP error's status, or 500 for any other error; the outcome itself is passed on unchanged |
| `Routes.ServedIdsAgree` | gitmesh/server.py:21-85 | the id logged and the id echoed agree, and both are the client's id when it sent one |
| `Routes.BackendFailureLogged` | gitmesh/server.py:76-85 | a failed backend run is logged as 500 and raised |
| `Routes.BackendStatusLogged` | gitmesh/server.py:57-65 | example: a 404 from the backend is logged as 404 |
| `Routes.CreateFailureLogged` | gitmesh/server.py:76-85 | a storage failure other than a conflict is logged as 500 |
| `Hooks.UpdateFields` | gitmesh/__main__.py:205-207 | a stripped stdin line splits into one to three fields |
| `Hooks.Entries` | gitmesh/__main__.py:208-210 | the entries exist exactly when every line has three fields, and each maps the ref to `(old, new)` |
| `Hooks.ParseFailsOnShortLine` | gitmesh/__main__.py:205-210 | reading the updates fails with `IndexError` exactly when some line has fewer than three fields |
| `Hooks.EntriesLastWins` | gitmesh/__main__.py:208-210 | the keys are the refs of all lines, and a ref maps to the revisions of its last line |
| `Hooks.UpdateLineFields` | gitmesh/__main__.py:205-207 | the line `<old> <new> <ref>\n` that Git writes splits back into its three fields |
| `Hooks.ParseUpdateLines` | gitmesh/__main__.py:205-210 | Git's update lines parse to the dictionary of their refs |
| `Hooks.TwoUpdates` | gitmesh/__main__.py:205-210 | example: two lines give the dictionary of both refs |
| `Hooks.Invocations` | gitmesh/__main__.py:211-213 | every hook is called with the same arguments, in order |
| `Hooks.DispatchCallsAll` | gitmesh/__main__.py:211-213 | when no hook raises, every hook is called once, in order, and the command succeeds |
| `Hooks.DispatchStopsAtFirstFailure` | gitmesh/__main__.py:211-213 | the first hook that raises is the last one called, and its error is the command's |
| `Hooks.RunHooks` | gitmesh/__main__.py:211-213 | the loop performs exactly the calls of `Dispatch` and ends with its result |
| `Hooks.PreReceiveCommand` | gitmesh/__main__.py:190-215 | an unreadable update list calls no hook and fails; otherwise every `pre_receive` hook gets the updates dictionary |
| `Hooks.UpdateCommand` | gitmesh/__main__.py:218-236 | every `update` hook gets the ref and both revisions |
| `Hooks.PostReceiveCommand` | gitmesh/__main__.py:239-260 | an unreadable update list calls no hook and fails; otherwise every `post_receive` hook gets the updates dictionary |
| `Hooks.PostUpdateCommand` | gitmesh/__main__.py:263-279 | every `post_update` hook gets the list of refs |
| `Hooks.UpdatePassesArguments` | gitmesh/__main__.py:232-234 | example: one `update` hook is called with the ref and revisions it was given |
| `Hooks.BannerNamesRequest` | gitmesh/__main__.py:197 | under the backend's environment, the banner names the HTTP request's id |
| `Logging.FromUrl` | gitmesh/__main__.py:35-50 | a failed split propagates; otherwise the result is `from_url` on the split parts |
| `Logging.FromParts` | gitmesh/__main__.py:37-50 | a scheme other than `fluent`, a query or a fragment is refused with `Invalid URL: "<url>".`; the application is the path without its first character |
| `Logging.ParsedUrl` | gitmesh/__main__.py:36 | `<scheme>://<netloc><path>` splits into the lower-case scheme, the network location and the path, cut at the first `?` into path and query |
| `Logging.FromFluentUrl` | gitmesh/__main__.py:41-50 | `fluent://<host>:<port>/<app>` gives back host, port and application, even when the host holds colons |
| `Logging.FromFluentUrlDefaultPort` | gitmesh/__main__.py:41-43 | without a port, the port is 24224 |
| `Logging.FromUrlPortNotNumber` | gitmesh/__main__.py:46-49 | a port that is not an integer is refused with the URL in the message |
| `Logging.RefusedScheme` | gitmesh/__main__.py:37-38 | a scheme other than `fluent` is refused |
| `Logging.RefusedQuery` | gitmesh/__main__.py:39-40 | a URL `fluent://<netloc><app>?<query>` with a non-empty query string is refused with the URL in the message |
| `Logging.ExamplePortUrl` | tests/test_main.py:101-110 | example: `fluent://127.0.0.1:24224/the-app` |
| `Logging.ExampleDefaultPortUrl` | tests/test_main.py:101-110 | example: `fluent://127.0.0.1/the-app` gives port 24224 |
| `Logging.ExampleEmptyApp` | tests/test_main.py:101-110 | example: `fluent://127.0.0.1/` gives an empty application |
| `Logging.ExampleLetterPort` | tests/test_main.py:113-122 | example: a port of letters is refused |
| `Logging.ExampleWrongScheme` | tests/test_main.py:113-122 | example: the scheme `fluentd` is refused |
| `Logging.ExampleQuery` | tests/test_main.py:113-122 | example: a query string is refused |
| `Logging.ConfigureLogging` | gitmesh/__main__.py:112-145 | the time stamper comes first. A `file://` endpoint prints to stdout, stderr or the named file, through a key-value or JSON renderer. A `fluent://` endpoint sends through `from_url`'s factory, or raises its error. Any other endpoint raises `Invalid logging endpoint "<endpoint>".` |
| `Logging.FileEndpoint` | gitmesh/__main__.py:112-136 | for every format, clock zone and path, `file://<path>` gives the time stamper, then the renderer the format picks, printing to the stream the path names |
| `Logging.FileEndpoints` | tests/test_main.py:25-67 | examples: `/dev/stdout`, `/dev/stderr` and a file path choose their stream |
| `Logging.UnknownEndpoint` | tests/test_main.py:70-80 | example: a `flume://` endpoint is refused with its message |
| `Logging.FluentKeepsClockZone` | gitmesh/__main__.py:113-139 | a Fluent endpoint keeps the caller's `utc` in the stamper, because `utc = True` comes after the stamper is built |
| `Logging.Now` | gitmesh/__main__.py:94-100 | the stamper's time carries a UTC zone exactly when it was built with `utc` |
| `Logging.Stamped` | gitmesh/__main__.py:102-109 | after stamping, `@timestamp` is present and is neither `None` nor a date and time; the other keys and values are unchanged |
| `Logging.StampChoice` | gitmesh/__main__.py:103-107 | a missing or `None` stamp becomes the ISO form of now; a date and time becomes its ISO form; any other value is kept |
| `Logging.StampedIdempotent` | gitmesh/__main__.py:102-109 | stamping twice is the same as stamping once |
| `Logging.StampEvent` | gitmesh/__main__.py:102-109 | the event dictionary is updated in place to `Stamped`, and the same dictionary is returned |
| `Logging.FrozenClockStamp` | tests/test_main.py:25-36 | with the clock frozen at 2016-05-08 21:19:00, a local stamper writes `2016-05-08T21:19:00` |
| `Logging.FluentEmit` | gitmesh/__main__.py:80-81 | the logger sends the `event` entry as the label and the other entries as the record; without `event` it fails |
| `Logging.FluentEventExample` | tests/test_main.py:125-143 | example: through a Fluent endpoint, `teh.event` is sent with `a`, `b` and the naive local timestamp |

## Left out

- Spawning processes, waiting for them, and feeding them input. A finished process is a value: exit status, standard output, standard error.
  - Merging standard error into standard output without `split` is the caller's business; the model takes the merged bytes as given.
  - The `print('OUTPUT:', ...)` before the raise is not modelled.
- Real file system effects beyond the directory tree. The disk holds sets of directory and file paths. Not modelled:
  - the file write in `Repository.edit`;
  - `os.chmod` permission bits;
  - `os.getcwd()` and `os.environ` as defaults;
  - symbolic links;
  - file system errors other than `FileExistsError` and a missing parent.
- `Storage.run` and `Repository.run` are `check_output` with a working folder; they are not modelled separately.
- `RepoStore.Mkdir`, and with it `RepoStore.Storage.CreateRepo`, `RepoStore.Storage.HasRepository` and `RepoStore.Storage.DeleteRepo`: paths are not resolved. A name with `.` or `..` segments or a doubled `/` (`../x`, `./x`, `a//b`) names an entry of its own in the model. `os.mkdir`, `os.path.isdir` and `shutil.rmtree` resolve such paths, and can reach folders outside the store. So the model refuses creations that `os.mkdir` accepts (`../x` gives `FileNotFoundError` in the model and a folder beside the store in the source), reports such repositories absent, and does not delete outside the root.
- `RepoStore.Storage.Clone`: git's own rule for the folder name is simplified to the link's last segment without `.git`. Trailing `/`, a `:`-separated last part, and the files git writes inside the folder are not modelled. A last segment that is empty or is `.git` adds no folder.
- `RepoStore.Storage.ListRepositories`: the order of `os.listdir` is not modelled. The names come out in an order the model does not fix, which the sorted listing then makes irrelevant.
- The tests call `install_hook` with a `method` argument that it does not take. The model follows `install_hook` as written.
- aiohttp: the application, route registration, `serve_until` with its shutdown and linger, and the router's URL building are not modelled.
  - Links are `<scheme>://<host>/repositories/<name>` with the routes' fixed paths, and no percent-encoding of names.
  - The `index` handler is not modelled.
  - Reading the request body is not modelled: a body that is not JSON is given as `None`.
- voluptuous: the schemas are written as predicates on the JSON value. `clone_url` is accepted when it is a string, and never used.
- structlog and Fluent are not modelled: how the renderers format an event, and the sender's network traffic. The `log.info` calls inside handlers and hook commands are not modelled either; the access-log entry is.
- `duration` in the access log is a float difference of clock readings; it is not modelled. The arrival time of the middleware's `@timestamp` is not modelled.
- `uuid4` and the clocks are parameters: the generated request id, and `utcnow`/`now` readings for `TimeStamper`.
- Plug-in discovery through `pkg_resources` and `importlib`, and `_await`'s coroutine check, are not modelled. A hook is a name plus whether it raises; the `print`/`log` before each call and `loop.close()` in `finally` are not modelled.
- click, signal handling, the choice of event loop, `setup.py` and the tests' fixtures and plug-ins are not modelled.
- `Hooks.Invocations`: every `pre_receive` and `post_receive` plug-in receives the same `updates` dictionary object (gitmesh/__main__.py:211-213 and 254-256), so a plug-in that changes it changes what the later ones see. The model passes an immutable map, so this aliasing is not captured.
- `Logging.UrlSplit`: `urlsplit` is modelled as CPython 3.11 performs it, which strips leading control characters and spaces and removes tab, CR and LF. The package pins no Python version, and the code's style (`asyncio.Future(loop=...)`) suggests Python 3.5, whose `urlsplit` does neither. So the URL lemmas describe gitmesh running on Python 3.11.
- `Logging.ParsedUrl`: `urlsplit`'s NFKC check of non-ASCII network locations and its validation of bracketed IPv6 hosts are not modelled. Balanced brackets are accepted as they are.
- `Text.ParseInt`: non-ASCII decimal digits, which `int` accepts, are not modelled.
- `Logging.ConfigureLogging`: opening the log file for a `file://` path other than the two standard streams, and the `OSError` that can raise, are not modelled.
- `GIT_PROJECT_ROOT` is `.`, which is what `Gateway.EnvironmentExports` states; the backend runs inside the repository folder, so no resolved path is involved.
- Backend output without `\r\n\r\n` has no fallback answer: it raises and is logged as 500, as `Gateway.ParseBackendOutput` and `Routes.BackendFailureLogged` state.

## Findings

| source | as written | input that shows it | evidently intended | confidence | as-written member | corrected member |
|---|---|---|---|---|---|---|
| gitmesh/server.py:211-212 | the handler calls `storage.create_repo(name, install_hooks=True)`, while `create_repo` (gitmesh/storage.py:67) takes the name alone, so the call raises `TypeError` before `mkdir` runs, and the access log records 500 | a POST of `{"name": "example"}` to an empty store | call `create_repo(name)` and answer 201 with the repository's details, as gitmesh's test suite expects | not executed | `Routes.CreateAsWrittenFailsFreshName` | `Routes.CreateRepository` |
| gitmesh/storage.py:126-142 | `install_hook` builds the hook path from the repository path, then `edit` joins that path onto the repository path again. `edit` opens `<repo>/<repo>/hooks/<name>`, which raises `FileNotFoundError` unless that nested folder exists, so no hook is installed and the `chmod` of `<repo>/hooks/<name>` never runs. | a store opened with a relative folder, as `Storage('.')` at gitmesh/__main__.py:304 is: repository path `./example.git`, hook `pre-receive` | write the hook file at `<repo>/hooks/<name>` (`<repo>/.git/hooks/<name>` for a working copy), the path `chmod` then marks executable | not executed | `RepoStore.InstallHookMissesRelativeRepository` | `RepoStore.InstallHookTargetShape` |
