/**
 * sProcess::commandLine(): the program, then every argument (flags, pipes
 * and backtick tokens verbatim, everything else through escapeshellarg),
 * then the optional standard-error and output redirections, joined by
 * single spaces.
 */
module Commands {
  import opened Wrappers
  import Strings
  import Shell

  /** The answer fCore::checkOS gives; only Windows changes anything here. */
  datatype OS = Windows | Linux | Mac

  /** Tokens passed through unescaped: those whose first character is -, | or `. */
  predicate Verbatim(arg: string)
  {
    |arg| > 0 && (arg[0] == '-' || arg[0] == '|' || arg[0] == '`')
  }

  /** How one argument appears on the command line. */
  function QuoteArgument(arg: string): string
  {
    if Verbatim(arg) then arg else Shell.EscapeShellArg(arg)
  }

  /** The null sink standard error is sent to. */
  function NullSink(os: OS): string
  {
    if os == Windows then "2>nul" else "2>/dev/null"
  }

  function QuoteAll(arguments: seq<string>): seq<string>
  {
    seq(|arguments|, k requires 0 <= k < |arguments| => QuoteArgument(arguments[k]))
  }

  /** The program and its quoted arguments. */
  function Invocation(program: string, arguments: seq<string>): seq<string>
  {
    [program] + QuoteAll(arguments)
  }

  /** The redirections that follow the arguments. */
  function Redirections(redirect: bool, os: OS, capture: Option<string>): seq<string>
  {
    (if redirect then [NullSink(os)] else [])
    + (if capture.Some? then [">", Shell.EscapeShellArg(capture.value)] else [])
  }

  /** The complete command line; `capture` is the temporary file standard output goes to, if any. */
  function CommandLineOf(program: string, arguments: seq<string>, redirect: bool, os: OS, capture: Option<string>): string
  {
    Strings.Join(Invocation(program, arguments) + Redirections(redirect, os, capture), " ")
  }

  /** The loop of commandLine() that escapes each argument unless it is verbatim. */
  method QuoteArguments(arguments: seq<string>) returns (quoted: seq<string>)
    ensures |quoted| == |arguments|
    ensures forall k :: 0 <= k < |arguments| ==>
      quoted[k] == (if Verbatim(arguments[k]) then arguments[k] else Shell.EscapeShellArg(arguments[k]))
  {
    quoted := [];
    var i := 0;
    while i < |arguments|
      invariant 0 <= i <= |arguments|
      invariant |quoted| == i
      invariant forall k :: 0 <= k < i ==>
        quoted[k] == (if Verbatim(arguments[k]) then arguments[k] else Shell.EscapeShellArg(arguments[k]))
    {
      var arg := arguments[i];
      if !(|arg| > 0 && (arg[0] == '-' || arg[0] == '|' || arg[0] == '`')) {
        quoted := quoted + [Shell.EscapeShellArg(arg)];
      } else {
        quoted := quoted + [arg];
      }
      i := i + 1;
    }
  }

  /** commandLine() once the temporary file, if any, has been chosen. */
  method Assemble(program: string, arguments: seq<string>, redirect: bool, os: OS, capture: Option<string>)
    returns (line: string)
    ensures line == CommandLineOf(program, arguments, redirect, os, capture)
  {
    var args := QuoteArguments(arguments);
    assert args == QuoteAll(arguments);
    args := [program] + args;
    if redirect {
      args := args + [NullSink(os)];
    }
    if capture.Some? {
      args := args + [">"];
      args := args + [Shell.EscapeShellArg(capture.value)];
    }
    assert args == Invocation(program, arguments) + Redirections(redirect, os, capture);
    line := Strings.Join(args, " ");
  }

  /**
   * Shell safety: when the program and the verbatim arguments are made of
   * plain characters, a POSIX shell reads the command line back as exactly
   * the program followed by every argument, unchanged and in order.
   */
  lemma ShellReadsArguments(program: string, arguments: seq<string>, os: OS)
    requires program != [] && Shell.AllPlain(program) && program !in Shell.ReservedWords
    requires forall k :: 0 <= k < |arguments| && Verbatim(arguments[k]) ==> Shell.AllPlain(arguments[k])
    ensures Shell.ShellWords(CommandLineOf(program, arguments, false, os, None)) == Some([program] + arguments)
  {
    var ws := Invocation(program, arguments);
    var ts := [program] + arguments;
    assert Redirections(false, os, None) == [];
    assert ws + [] == ws;
    forall k | 0 <= k < |ws| ensures Shell.Denotes(ws[k], ts[k]) {
      if k > 0 {
        assert ws[k] == QuoteArgument(arguments[k - 1]);
      }
    }
    Shell.ShellWordsOfJoined(ws, ts);
  }

  /**
   * The redirections come after the arguments: exactly one null-sink segment
   * iff standard error is redirected, then "> file" iff output is captured.
   */
  lemma RedirectionSuffix(program: string, arguments: seq<string>, redirect: bool, os: OS, capture: Option<string>)
    ensures CommandLineOf(program, arguments, redirect, os, capture)
         == CommandLineOf(program, arguments, false, os, None)
            + (if redirect then " " + NullSink(os) else "")
            + (if capture.Some? then " > " + Shell.EscapeShellArg(capture.value) else "")
  {
    var base := Invocation(program, arguments);
    assert Redirections(false, os, None) == [];
    assert base + [] == base;
    var sink: seq<string> := if redirect then [NullSink(os)] else [];
    var tail: seq<string> := if capture.Some? then [">", Shell.EscapeShellArg(capture.value)] else [];
    assert base + Redirections(redirect, os, capture) == (base + sink) + tail;
    Strings.JoinExtend(base, sink, " ");
    Strings.JoinExtend(base + sink, tail, " ");
    assert capture.Some? ==> Strings.Join(tail, " ") == "> " + Shell.EscapeShellArg(capture.value);
  }

  /**
   * A line with redirections is the line without them, which the shell reads
   * as the program and every argument, followed by the null sink and by
   * "> " and the capture file escaped, which the shell reads back as that file.
   */
  lemma RedirectedLineReadsArguments(program: string, arguments: seq<string>, redirect: bool, os: OS, capture: Option<string>)
    requires program != [] && Shell.AllPlain(program) && program !in Shell.ReservedWords
    requires forall k :: 0 <= k < |arguments| && Verbatim(arguments[k]) ==> Shell.AllPlain(arguments[k])
    ensures CommandLineOf(program, arguments, redirect, os, capture)
         == CommandLineOf(program, arguments, false, os, None)
            + (if redirect then " " + NullSink(os) else "")
            + (if capture.Some? then " > " + Shell.EscapeShellArg(capture.value) else "")
    ensures Shell.ShellWords(CommandLineOf(program, arguments, false, os, None)) == Some([program] + arguments)
    ensures capture.Some? ==> Shell.ShellWords(Shell.EscapeShellArg(capture.value)) == Some([capture.value])
  {
    RedirectionSuffix(program, arguments, redirect, os, capture);
    ShellReadsArguments(program, arguments, os);
    if capture.Some? {
      Shell.EscapeShellArgRoundTrip(capture.value);
    }
  }
}
