/**
 * The git hook commands of gitmesh/__main__.py: how `pre-receive` and
 * `post-receive` read the updated refs from standard input, and how every
 * hook command runs the plug-ins of its group one after the other, each to
 * completion, stopping at the first one that raises. Discovering the
 * plug-ins and running their code is outside the model: a plug-in is its
 * entry-point name and whether awaiting it raises.
 */
module Hooks {
  import opened Wrappers
  import opened Text
  import opened Gateway

  /** The updated refs as the receive hooks hand them on: ref to `(old, new)`. */
  type Updates = map<string, (string, string)>

  /** The arguments a hook command passes to every plug-in of its group. */
  datatype Call =
    | PreReceive(updates: Updates)
    | Update(ref: string, oldRev: string, newRev: string)
    | PostReceive(updates: Updates)
    | PostUpdate(refs: seq<string>)

  /** A discovered plug-in: its entry-point name, and whether awaiting it with the run's arguments raises. */
  datatype Hook = Hook(name: string, raises: bool)

  /** One plug-in called with the run's arguments. */
  datatype Invocation = Invocation(hook: string, call: Call)

  /** Why a hook command fails: a short line on standard input, or a plug-in that raised. */
  datatype CommandError = IndexError | HookRaised(hook: string)

  // ---- Reading the updates ----

  /** One stripped line of standard input cut at its first two spaces. */
  function UpdateFields(line: string): (fields: seq<string>)
    ensures 1 <= |fields| <= 3
  {
    SplitN(Strip(line), " ", 2)
  }

  /** The list comprehension: every line of standard input, stripped and cut. */
  function FieldsOf(lines: seq<string>): (rows: seq<seq<string>>)
    ensures |rows| == |lines| && forall i :: 0 <= i < |lines| ==> rows[i] == UpdateFields(lines[i])
  {
    seq(|lines|, i requires 0 <= i < |lines| => UpdateFields(lines[i]))
  }

  /**
   * The dictionary comprehension's entries, row by row: the third field
   * keys the first two. `None` is the `IndexError` of the first row with
   * fewer than three fields.
   */
  function Entries(rows: seq<seq<string>>): (r: Option<seq<(string, (string, string))>>)
    ensures r.Some? <==> forall i :: 0 <= i < |rows| ==> |rows[i]| >= 3
    ensures r.Some? ==> |r.value| == |rows| && forall i :: 0 <= i < |rows| ==> r.value[i] == (rows[i][2], (rows[i][0], rows[i][1]))
  {
    if rows == [] then Some([])
    else if |rows[0]| < 3 then None
    else
      var rest := Entries(rows[1..]);
      assert forall i :: 0 < i < |rows| ==> rows[i] == rows[1..][i - 1];
      match rest
      case None => None
      case Some(tail) => Some([(rows[0][2], (rows[0][0], rows[0][1]))] + tail)
  }

  /** The updates a receive hook reads from the lines of its standard input. */
  function ParseUpdates(lines: seq<string>): Result<Updates, CommandError> {
    match Entries(FieldsOf(lines))
    case None => Failure(IndexError)
    case Some(pairs) => Success(Dict(pairs))
  }

  /** Parsing fails exactly when some line has fewer than three fields. */
  lemma ParseFailsOnShortLine(lines: seq<string>)
    ensures ParseUpdates(lines).Failure? <==> exists i :: 0 <= i < |lines| && |UpdateFields(lines[i])| < 3
    ensures ParseUpdates(lines).Failure? ==> ParseUpdates(lines).error == IndexError
  {
    var rows := FieldsOf(lines);
    if Entries(rows).None? {
      var i :| 0 <= i < |rows| && |rows[i]| < 3;
      assert |UpdateFields(lines[i])| < 3;
    } else {
      forall i | 0 <= i < |lines| ensures |UpdateFields(lines[i])| >= 3 {
        assert rows[i] == UpdateFields(lines[i]);
      }
    }
  }

  /** Every ref named on a row is a key, mapped to the first two fields of the last row naming it; no other key appears. */
  lemma EntriesLastWins(rows: seq<seq<string>>, i: nat)
    requires Entries(rows).Some? && i < |rows|
    requires forall j :: i < j < |rows| ==> rows[j][2] != rows[i][2]
    ensures var u := Dict(Entries(rows).value);
      rows[i][2] in u && u[rows[i][2]] == (rows[i][0], rows[i][1])
    ensures Dict(Entries(rows).value).Keys == set j | 0 <= j < |rows| :: rows[j][2]
  {
    var pairs := Entries(rows).value;
    DictLastWins(pairs, i);
    assert forall j :: 0 <= j < |rows| ==> pairs[j].0 == rows[j][2];
  }

  /** The line git writes for one updated ref. */
  function UpdateLine(oldRev: string, newRev: string, ref: string): string {
    oldRev + " " + newRev + " " + ref + "\n"
  }

  /** A revision as git writes it: not empty, no whitespace. */
  predicate Revision(s: string) {
    s != [] && forall i :: 0 <= i < |s| ==> !IsSpace(s[i])
  }

  /** A ref that survives stripping and fits on one line of standard input: not empty, no whitespace at either end, no line break. */
  predicate RefName(s: string) {
    s != [] && !IsSpace(s[0]) && !IsSpace(s[|s| - 1]) && '\n' !in s
  }

  /** A line cuts into the two revisions and the ref it was written from, whatever spaces the ref holds. */
  lemma UpdateTextFields(oldRev: string, newRev: string, ref: string)
    requires Revision(oldRev) && Revision(newRev) && RefName(ref)
    ensures UpdateFields(oldRev + " " + newRev + " " + ref) == [oldRev, newRev, ref]
  {
    var text := oldRev + " " + newRev + " " + ref;
    StripUnchanged(text);
    assert ' ' !in oldRev && ' ' !in newRev by {
      assert IsSpace(' ');
    }
    SplitThree(oldRev, newRev, ref);
  }

  /** Two spaceless fields and the rest: `split(' ', 2)` cuts at the two spaces written between them. */
  lemma SplitThree(a: string, b: string, c: string)
    requires ' ' !in a && ' ' !in b
    ensures SplitN(a + " " + b + " " + c, " ", 2) == [a, b, c]
  {
    var rest := b + " " + c;
    assert a + " " + b + " " + c == a + " " + rest;
    SplitFirstSpace(a, rest);
    SplitLastSpace(b, c);
    assert [a] + [b, c] == [a, b, c];
  }

  lemma SplitFirstSpace(a: string, rest: string)
    requires ' ' !in a
    ensures SplitN(a + " " + rest, " ", 2) == [a] + SplitN(rest, " ", 1)
  {
    FirstPartEndsAtSeparator(a, " ", rest);
  }

  lemma SplitLastSpace(b: string, c: string)
    requires ' ' !in b
    ensures SplitN(b + " " + c, " ", 1) == [b, c]
  {
    FirstPartEndsAtSeparator(b, " ", c);
    assert SplitN(c, " ", 0) == [c];
  }

  /** The same with the end of line git writes after it. */
  lemma UpdateLineFields(oldRev: string, newRev: string, ref: string)
    requires Revision(oldRev) && Revision(newRev) && RefName(ref)
    ensures UpdateFields(UpdateLine(oldRev, newRev, ref)) == [oldRev, newRev, ref]
  {
    var text := oldRev + " " + newRev + " " + ref;
    assert UpdateLine(oldRev, newRev, ref) == text + ['\n'];
    StripTrailingSpace(text, '\n');
    UpdateTextFields(oldRev, newRev, ref);
  }

  /** One update line per ref, as git writes them. */
  function UpdateLines(updates: seq<(string, string, string)>): (r: seq<string>)
    ensures |r| == |updates|
    ensures forall i :: 0 <= i < |updates| ==> r[i] == UpdateLine(updates[i].0, updates[i].1, updates[i].2)
  {
    seq(|updates|, i requires 0 <= i < |updates| => UpdateLine(updates[i].0, updates[i].1, updates[i].2))
  }

  /** The dictionary entries for refs given as `(old, new, ref)`. */
  function RefEntries(updates: seq<(string, string, string)>): (r: seq<(string, (string, string))>)
    ensures |r| == |updates| && forall i :: 0 <= i < |updates| ==> r[i] == (updates[i].2, (updates[i].0, updates[i].1))
  {
    seq(|updates|, i requires 0 <= i < |updates| => (updates[i].2, (updates[i].0, updates[i].1)))
  }

  /** Reading back what git writes gives the dictionary of its refs, the last line for a ref winning. */
  lemma ParseUpdateLines(updates: seq<(string, string, string)>)
    requires forall i :: 0 <= i < |updates| ==> Revision(updates[i].0) && Revision(updates[i].1) && RefName(updates[i].2)
    ensures ParseUpdates(UpdateLines(updates)) == Success(Dict(RefEntries(updates)))
  {
    var lines := UpdateLines(updates);
    var rows := FieldsOf(lines);
    forall i | 0 <= i < |lines| ensures rows[i] == [updates[i].0, updates[i].1, updates[i].2] {
      UpdateLineFields(updates[i].0, updates[i].1, updates[i].2);
    }
    var pairs := Entries(rows).value;
    assert pairs == RefEntries(updates);
  }

  /** Standard input `a b c` and `d e f` (the second line without its end of line) gives `c` to `(a, b)` and `f` to `(d, e)`. */
  lemma TwoUpdates()
    ensures ParseUpdates(["a b c\n", "d e f"]) == Success(map["c" := ("a", "b"), "f" := ("d", "e")])
  {
    ExampleRows();
    ExampleEntries();
  }

  lemma ExampleRows()
    ensures FieldsOf(["a b c\n", "d e f"]) == [["a", "b", "c"], ["d", "e", "f"]]
  {
    ExampleLines();
    assert UpdateFields("a b c\n") == ["a", "b", "c"] by {
      UpdateLineFields("a", "b", "c");
    }
    assert UpdateFields("d e f") == ["d", "e", "f"] by {
      UpdateTextFields("d", "e", "f");
    }
    FieldsOfTwo("a b c\n", "d e f");
  }

  lemma FieldsOfTwo(l1: string, l2: string)
    ensures FieldsOf([l1, l2]) == [UpdateFields(l1), UpdateFields(l2)]
  {
    assert [l1, l2][1..] == [l2];
    assert [l2][1..] == [];
  }

  lemma ExampleEntries()
    ensures Entries([["a", "b", "c"], ["d", "e", "f"]]) == Some([("c", ("a", "b")), ("f", ("d", "e"))])
    ensures Dict([("c", ("a", "b")), ("f", ("d", "e"))]) == map["c" := ("a", "b"), "f" := ("d", "e")]
  {
    var first, second := ("c", ("a", "b")), ("f", ("d", "e"));
    EntriesTwo(["a", "b", "c"], ["d", "e", "f"]);
    DictAppend([], first.0, first.1);
    DictAppend([first], second.0, second.1);
    assert [] + [first] == [first] && [first] + [second] == [first, second];
  }

  lemma EntriesTwo(r0: seq<string>, r1: seq<string>)
    requires |r0| == 3 && |r1| == 3
    ensures Entries([r0, r1]) == Some([(r0[2], (r0[0], r0[1])), (r1[2], (r1[0], r1[1]))])
  {
    var rows := [r0, r1];
    var x, y := (r0[2], (r0[0], r0[1])), (r1[2], (r1[0], r1[1]));
    assert rows[1..] == [r1] && [r1][1..] == [];
    assert Entries(rows[1..]) == Some([y] + []);
    assert Entries(rows) == Some([x] + ([y] + []));
    assert [x] + ([y] + []) == [x, y];
  }

  lemma ExampleLines()
    ensures "a b c\n" == UpdateLine("a", "b", "c")
    ensures "d e f" == "d" + " " + "e" + " " + "f"
    ensures Revision("a") && Revision("b") && RefName("c") && Revision("d") && Revision("e") && RefName("f")
  {
  }

  // ---- Running the plug-ins ----

  /** The plug-ins in discovery order, each called with the same arguments. */
  function Invocations(hooks: seq<Hook>, call: Call): (r: seq<Invocation>)
    ensures |r| == |hooks| && forall i :: 0 <= i < |hooks| ==> r[i] == Invocation(hooks[i].name, call)
  {
    seq(|hooks|, i requires 0 <= i < |hooks| => Invocation(hooks[i].name, call))
  }

  /**
   * What a hook command's loop does: the calls made, in order, and how the
   * command ends. A plug-in that raises is the last one called.
   */
  function Dispatch(hooks: seq<Hook>, call: Call): (seq<Invocation>, Result<(), CommandError>) {
    if hooks == [] then ([], Success(()))
    else if hooks[0].raises then ([Invocation(hooks[0].name, call)], Failure(HookRaised(hooks[0].name)))
    else
      var (rest, result) := Dispatch(hooks[1..], call);
      ([Invocation(hooks[0].name, call)] + rest, result)
  }

  /** When no plug-in raises, each is called once, in discovery order, and the command succeeds. */
  lemma {:induction false} DispatchCallsAll(hooks: seq<Hook>, call: Call)
    requires forall i :: 0 <= i < |hooks| ==> !hooks[i].raises
    ensures Dispatch(hooks, call) == (Invocations(hooks, call), Success(()))
  {
    if hooks != [] {
      DispatchCallsAll(hooks[1..], call);
      assert Invocations(hooks, call) == [Invocation(hooks[0].name, call)] + Invocations(hooks[1..], call);
    }
  }

  /** The first plug-in that raises ends the run: it and those before it were called, none after it. */
  lemma {:induction false} DispatchStopsAtFirstFailure(hooks: seq<Hook>, call: Call, k: nat)
    requires k < |hooks| && hooks[k].raises
    requires forall i :: 0 <= i < k ==> !hooks[i].raises
    ensures Dispatch(hooks, call) == (Invocations(hooks[..k + 1], call), Failure(HookRaised(hooks[k].name)))
  {
    if k == 0 {
      assert Invocations(hooks[..1], call) == [Invocation(hooks[0].name, call)];
    } else {
      assert !hooks[0].raises;
      DispatchStopsAtFirstFailure(hooks[1..], call, k - 1);
      assert hooks[1..][..k] == hooks[..k + 1][1..];
      assert Invocations(hooks[..k + 1], call) == [Invocation(hooks[0].name, call)] + Invocations(hooks[1..][..k], call);
    }
  }

  /** The `for` loop of a hook command: each plug-in awaited before the next, the first one to raise ending the command. */
  method RunHooks(hooks: seq<Hook>, call: Call) returns (calls: seq<Invocation>, result: Result<(), CommandError>)
    ensures (calls, result) == Dispatch(hooks, call)
  {
    calls := [];
    var i := 0;
    while i < |hooks|
      invariant 0 <= i <= |hooks|
      invariant forall k :: 0 <= k < i ==> !hooks[k].raises
      invariant calls == Invocations(hooks[..i], call)
    {
      calls := calls + [Invocation(hooks[i].name, call)];
      if hooks[i].raises {
        DispatchStopsAtFirstFailure(hooks, call, i);
        assert calls == Invocations(hooks[..i + 1], call);
        return calls, Failure(HookRaised(hooks[i].name));
      }
      i := i + 1;
    }
    DispatchCallsAll(hooks, call);
    assert hooks[..i] == hooks;
    result := Success(());
  }

  // ---- The hook commands ----

  /** `pre-receive`: standard input is read in full before any plug-in runs; a short line stops the command first. */
  method PreReceiveCommand(hooks: seq<Hook>, lines: seq<string>) returns (calls: seq<Invocation>, result: Result<(), CommandError>)
    ensures ParseUpdates(lines).Failure? ==> calls == [] && result == Failure(IndexError)
    ensures ParseUpdates(lines).Success? ==> (calls, result) == Dispatch(hooks, PreReceive(ParseUpdates(lines).value))
  {
    var updates := ParseUpdates(lines);
    if updates.Failure? {
      return [], Failure(IndexError);
    }
    calls, result := RunHooks(hooks, PreReceive(updates.value));
  }

  /** `update`: the ref and both revisions are passed on as given. */
  method UpdateCommand(hooks: seq<Hook>, ref: string, oldRev: string, newRev: string) returns (calls: seq<Invocation>, result: Result<(), CommandError>)
    ensures (calls, result) == Dispatch(hooks, Update(ref, oldRev, newRev))
  {
    calls, result := RunHooks(hooks, Update(ref, oldRev, newRev));
  }

  /** `post-receive`: the same reading of standard input as `pre-receive`, for the other group. */
  method PostReceiveCommand(hooks: seq<Hook>, lines: seq<string>) returns (calls: seq<Invocation>, result: Result<(), CommandError>)
    ensures ParseUpdates(lines).Failure? ==> calls == [] && result == Failure(IndexError)
    ensures ParseUpdates(lines).Success? ==> (calls, result) == Dispatch(hooks, PostReceive(ParseUpdates(lines).value))
  {
    var updates := ParseUpdates(lines);
    if updates.Failure? {
      return [], Failure(IndexError);
    }
    calls, result := RunHooks(hooks, PostReceive(updates.value));
  }

  /** `post-update`: the refs, as a list in the order of the arguments. */
  method PostUpdateCommand(hooks: seq<Hook>, refs: seq<string>) returns (calls: seq<Invocation>, result: Result<(), CommandError>)
    ensures (calls, result) == Dispatch(hooks, PostUpdate(refs))
  {
    calls, result := RunHooks(hooks, PostUpdate(refs));
  }

  /** The update command's one plug-in receives `a`, `b`, `c` as ref, old and new revision. */
  lemma UpdatePassesArguments(name: string)
    ensures Dispatch([Hook(name, false)], Update("a", "b", "c")) == ([Invocation(name, Update("a", "b", "c"))], Success(()))
  {
    DispatchCallsAll([Hook(name, false)], Update("a", "b", "c"));
    assert Invocations([Hook(name, false)], Update("a", "b", "c")) == [Invocation(name, Update("a", "b", "c"))];
  }

  // ---- The request id banner ----

  /** The line `pre-receive` prints first, naming the request that pushes. */
  function RequestIdBanner(env: map<string, string>): string {
    "Request ID: \"" + (if "GITMESH_REQUEST_ID" in env then env["GITMESH_REQUEST_ID"] else "?") + "\"."
  }

  /** Run below the HTTP endpoint, the hook names the request id the endpoint put in the backend's environment. */
  lemma BannerNamesRequest(ambient: map<string, string>, req: CgiRequest)
    ensures RequestIdBanner(Environment(ambient, req)) == "Request ID: \"" + req.requestId + "\"."
  {
    EnvironmentDescribesRequest(ambient, req);
    var env := Environment(ambient, req);
    assert "GITMESH_REQUEST_ID" in env && env["GITMESH_REQUEST_ID"] == req.requestId;
  }
}
