/**
 * The part of `check_output` (gitmesh/storage.py) that does not depend on
 * the operating system: how the command becomes one shell line, and how the
 * exit status and captured streams of the finished process become the
 * call's result or its `CalledProcessError`. Spawning the shell and waiting
 * for it are outside the model; their outcome is the `Exit` parameter.
 */
module Process {
  import opened Wrappers
  import opened Text
  import opened Utf8

  /** A command as `check_output` accepts it: one shell line, or a list of arguments. */
  datatype Command = ShellLine(line: string) | Arguments(args: seq<string>)

  /**
   * What the finished process reported: its exit status and the bytes it
   * wrote. Without `split`, standard error is merged into `stdout` by the
   * pipe set-up and `stderr` is never read.
   */
  datatype Exit = Exit(status: int, stdout: seq<byte>, stderr: seq<byte>)

  /** Captured standard output: decoded and stripped text, or the raw bytes when `binary` is set. */
  datatype Captured = Decoded(text: string) | Raw(bytes: seq<byte>)

  /** A successful call returns the output alone, or `(output, errors)` when `split` is set. */
  datatype Returned = Output(output: Captured) | OutputAndErrors(output: Captured, errors: seq<byte>)
  {
    function Captured(): Captured {
      match this
      case Output(o) => o
      case OutputAndErrors(o, _) => o
    }
  }

  datatype ProcessError =
    | CalledProcessError(returncode: int, cmd: string, output: Captured)
    | UnicodeDecodeError

  /** `'"%s"' % arg`. */
  function Quote(arg: string): string {
    "\"" + arg + "\""
  }

  function QuoteAll(args: seq<string>): (r: seq<string>)
    ensures |r| == |args|
    ensures forall i :: 0 <= i < |args| ==> r[i] == Quote(args[i])
  {
    if args == [] then [] else [Quote(args[0])] + QuoteAll(args[1..])
  }

  /** The shell line that runs: a list of arguments is double-quoted item by item and joined with single spaces. */
  function CommandLine(command: Command): string {
    match command
    case ShellLine(line) => line
    case Arguments(args) => Join(QuoteAll(args), " ")
  }

  /** Reads a line of space-separated, double-quoted arguments back into the list. */
  function UnquoteArguments(line: string): Option<seq<string>> {
    if line == [] then Some([]) else UnquoteNonEmpty(line)
  }

  function UnquoteNonEmpty(line: string): (r: Option<seq<string>>)
    decreases |line|, 0
  {
    if line == [] || line[0] != '"' then None
    else match IndexOf(line[1..], '"')
      case None => None
      case Some(k) => UnquoteRest(line[1..k + 1], line[k + 2..])
  }

  /** After the closing quote of `arg`: the end of the line, or one space and further arguments. */
  function UnquoteRest(arg: string, rest: string): Option<seq<string>>
    decreases |rest|, 1
  {
    if rest == [] then Some([arg])
    else if rest[0] != ' ' then None
    else match UnquoteNonEmpty(rest[1..])
      case None => None
      case Some(more) => Some([arg] + more)
  }

  /** Quoting loses nothing as long as no argument holds a double quote itself. */
  lemma {:induction false} UnquoteCommandLine(args: seq<string>)
    requires forall i :: 0 <= i < |args| ==> '"' !in args[i]
    ensures UnquoteArguments(CommandLine(Arguments(args))) == Some(args)
  {
    if args != [] {
      UnquoteQuoted(args);
    }
  }

  lemma {:induction false} UnquoteQuoted(args: seq<string>)
    requires args != []
    requires forall i :: 0 <= i < |args| ==> '"' !in args[i]
    ensures UnquoteNonEmpty(Join(QuoteAll(args), " ")) == Some(args)
  {
    var a, tail := args[0], args[1..];
    assert QuoteAll(tail) == QuoteAll(args)[1..];
    if tail == [] {
      assert QuoteAll(args) == [Quote(a)];
      assert Join(QuoteAll(args), " ") == Quote(a) + [];
      UnquoteOne(a, []);
      assert UnquoteRest(a, []) == Some([a]);
      assert args == [a];
    } else {
      forall i | 0 <= i < |tail| ensures '"' !in tail[i] {
        assert tail[i] == args[i + 1];
      }
      UnquoteQuoted(tail);
      var q := Join(QuoteAll(tail), " ");
      var rest := " " + q;
      JoinFront(QuoteAll(args), " ");
      UnquoteOne(a, rest);
      assert rest[1..] == q;
      assert UnquoteRest(a, rest) == Some([a] + tail);
      assert args == [a] + tail;
    }
  }

  /** The first quoted argument ends at the first double quote after the opening one. */
  lemma UnquoteOne(a: string, rest: string)
    requires '"' !in a
    ensures UnquoteNonEmpty(Quote(a) + rest) == UnquoteRest(a, rest)
  {
    var tail := a + "\"" + rest;
    var line := Quote(a) + rest;
    assert line == "\"" + tail;
    assert line[1..] == tail;
    assert tail[..|a|] == a;
    IndexOfAt(tail, '"', |a|);
    assert line[1..|a| + 1] == a;
    assert line[|a| + 2..] == rest;
  }

  /** An argument holding a double quote can read as two: quoting is not an escape. */
  lemma QuotesInArgumentsCollide()
    ensures CommandLine(Arguments(["a\" \"b"])) == CommandLine(Arguments(["a", "b"]))
  {
    var two := ["a", "b"];
    assert two[1..] == ["b"];
    assert QuoteAll(two) == [Quote("a")] + QuoteAll(["b"]);
    assert QuoteAll(["b"]) == [Quote("b")];
    assert QuoteAll(["a\" \"b"]) == [Quote("a\" \"b")];
  }

  /** The output as `check_output` hands it on: raw bytes, or decoded and stripped text; `None` when decoding fails. */
  function Capture(binary: bool, stdout: seq<byte>): Option<Captured> {
    if binary then Some(Raw(stdout))
    else match Decode(stdout)
      case None => None
      case Some(text) => Some(Decoded(Strip(text)))
  }

  /**
   * `check_output` once the process has finished: the output is captured
   * (and decoded before the status is looked at), a non-zero status raises
   * `CalledProcessError` with the status, the shell line and the captured
   * output, and a zero status returns the output, with the error bytes
   * beside it when `split` is set.
   */
  function CheckOutput(command: Command, binary: bool, split: bool, exit: Exit): (r: Result<Returned, ProcessError>)
    ensures r.Success? ==> exit.status == 0 && r.value.OutputAndErrors? == split
    ensures r.Success? && split ==> r.value.errors == exit.stderr
    ensures r.Success? && binary ==> r.value.Captured() == Raw(exit.stdout)
    ensures r.Success? && !binary ==>
      Decode(exit.stdout).Some? && r.value.Captured() == Decoded(Strip(Decode(exit.stdout).value))
    ensures r.Failure? && r.error.CalledProcessError? ==>
      r.error.returncode == exit.status != 0 && r.error.cmd == CommandLine(command)
    ensures r.Failure? && r.error.CalledProcessError? && binary ==> r.error.output == Raw(exit.stdout)
    ensures r.Failure? && r.error.CalledProcessError? && !binary ==>
      Decode(exit.stdout).Some? && r.error.output == Decoded(Strip(Decode(exit.stdout).value))
    ensures r == Failure(UnicodeDecodeError) <==> !binary && Decode(exit.stdout).None?
  {
    match Capture(binary, exit.stdout)
    case None => Failure(UnicodeDecodeError)
    case Some(out) =>
      if exit.status != 0 then Failure(CalledProcessError(exit.status, CommandLine(command), out))
      else if split then Success(OutputAndErrors(out, exit.stderr))
      else Success(Output(out))
  }

  /** Text output never starts or ends with whitespace. */
  lemma DecodedOutputIsStripped(command: Command, split: bool, exit: Exit)
    requires CheckOutput(command, false, split, exit).Success?
    ensures var out := CheckOutput(command, false, split, exit).value.Captured();
      out.Decoded? && (out.text == [] || (!IsSpace(out.text[0]) && !IsSpace(out.text[|out.text| - 1])))
  {
  }

  /** A process that exits with status `s` succeeds exactly when `s` is zero, once its output can be captured. */
  lemma FailsExactlyOnNonZeroStatus(command: Command, binary: bool, split: bool, exit: Exit)
    requires binary || Decode(exit.stdout).Some?
    ensures CheckOutput(command, binary, split, exit).Success? <==> exit.status == 0
  {
  }

  /** The error for a failed run carries exactly the output the caller would have received had the same run succeeded. */
  lemma FailureReportsSuccessOutput(command: Command, binary: bool, split: bool, ok: Exit, failed: Exit)
    requires ok.status == 0 && failed.status != 0
    requires ok.stdout == failed.stdout
    requires CheckOutput(command, binary, split, ok).Success?
    ensures CheckOutput(command, binary, split, failed)
         == Failure(CalledProcessError(failed.status, CommandLine(command), CheckOutput(command, binary, split, ok).value.Captured()))
  {
  }

  /** Text that was encoded and padded with trailing whitespace comes back as the text itself. */
  lemma CaptureEncodedText(text: string, pad: char)
    requires text != [] && !IsSpace(text[0]) && !IsSpace(text[|text| - 1]) && IsSpace(pad)
    ensures Capture(false, Encode(text + [pad])) == Some(Decoded(text))
  {
    DecodeEncode(text + [pad]);
    StripTrailingSpace(text, pad);
  }
}
