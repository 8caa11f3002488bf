/**
 * The sProcess object: its construction from a command, its settings, the
 * non-interactive execute(), and the interactive session opened by
 * beginInteractive(), fed by write() and closed by EOF().
 *
 * What the operating system does is supplied by the caller: `exitCode` is
 * what exec or pclose report, `lines` what exec collects, `tempName` the name
 * tempnam would create, `pipe` the handle popen returns, and `captured` what
 * the temporary file holds when the session ends. Each guard that throws in
 * the source yields a Failure and leaves the object as it was, except in EOF,
 * which drops the session's handle before its exit-code and temporary-file
 * checks.
 */
module Processes {
  import opened Wrappers
  import opened Strings
  import opened Tokenizer
  import opened Commands

  /** The exceptions sProcess throws, plus the calls the source never returns from. */
  datatype ProcessError =
    | UnterminatedSpan                        // constructor: no later token closes a span
    | DirectoryMissing                        // setWorkingDirectory: no such directory
    | DirectoryNotWritable                    // setWorkingDirectory
    | SessionAlreadyOpen                      // beginInteractive
    | InvalidMode                             // beginInteractive: mode other than w or r
    | NoSession                               // write, EOF: no handle
    | ReadOnlySession                         // write in mode r
    | ProgramRunning                          // redirectStandardError, addArgument
    | WriteFailed                             // write: fprintf wrote nothing
    | UnexpectedExitCode(got: int, wanted: int)  // execute, EOF with tossing on
    | NoPipeFile                              // EOF of a mode-r session: no temporary file to read

  /** Every field of a process object, as one value. */
  datatype State = State(
    program: string,
    arguments: seq<string>,
    toss: bool,
    handle: Option<nat>,
    mode: string,
    pipeFile: Option<string>,
    workDir: string,
    redirectStandardError: bool)

  /** The exit-code policy of execute() and EOF(): throw iff tossing is on and the code differs. */
  predicate Tosses(toss: bool, observed: int, expected: int)
  {
    toss && observed != expected
  }

  /** The argument list addArgument(args...) appends: the arguments joined by spaces, split again, each piece trimmed. */
  function AddedArguments(args: seq<string>): seq<string>
  {
    TrimAll(Split(Join(args, " "), ' '))
  }

  class Process {
    const os: OS
    var program: string
    var arguments: seq<string>
    var toss: bool
    var handle: Option<nat>
    var mode: string
    var pipeFile: Option<string>
    var workDir: string
    var redirectStandardError: bool

    function Snapshot(): State
      reads this
    {
      State(program, arguments, toss, handle, mode, pipeFile, workDir, redirectStandardError)
    }

    /**
     * The mode is always w or r, and an open write-mode session always has
     * its temporary file, since beginInteractive chooses it before opening.
     */
    ghost predicate Valid()
      reads this
    {
      (mode == "w" || mode == "r") && (handle.Some? && mode == "w" ==> pipeFile.Some?)
    }

    /** The constructor once its command has been tokenized: nothing open, mode w, working directory ".". */
    constructor (command: Command, os: OS)
      ensures this.os == os
      ensures Snapshot() == State(command.program, command.arguments, false, None, "w", None, ".", false)
      ensures Valid()
    {
      this.os := os;
      program := command.program;
      arguments := command.arguments;
      toss := false;
      handle := None;
      mode := "w";
      pipeFile := None;
      workDir := ".";
      redirectStandardError := false;
    }

    /** setWorkingDirectory(dir): the directory must exist and be writable. */
    method SetWorkingDirectory(dir: string, isDirectory: bool, writable: bool) returns (r: Outcome<ProcessError>)
      requires Valid()
      modifies this
      ensures Valid()
      ensures !isDirectory ==> r == Fail(DirectoryMissing) && Snapshot() == old(Snapshot())
      ensures isDirectory && !writable ==> r == Fail(DirectoryNotWritable) && Snapshot() == old(Snapshot())
      ensures isDirectory && writable ==> r == Pass && Snapshot() == old(Snapshot()).(workDir := dir)
    {
      if !isDirectory {
        return Fail(DirectoryMissing);
      }
      if !writable {
        return Fail(DirectoryNotWritable);
      }
      workDir := dir;
      r := Pass;
    }

    /** tossIfUnexpected(): from now on an unexpected exit code throws. */
    method TossIfUnexpected()
      requires Valid()
      modifies this
      ensures Valid()
      ensures Snapshot() == old(Snapshot()).(toss := true)
    {
      toss := true;
    }

    /**
     * execute(expected): run the command line (no capture file) and return
     * exec's output lines joined by newlines, unless tossing is on and the
     * exit code is not the expected one. The command line run is returned too.
     */
    method Execute(expected: int, exitCode: int, lines: seq<string>) returns (r: Result<string, ProcessError>, command: string)
      ensures command == CommandLineOf(program, arguments, redirectStandardError, os, None)
      ensures Tosses(toss, exitCode, expected) ==> r == Failure(UnexpectedExitCode(exitCode, expected))
      ensures !Tosses(toss, exitCode, expected) ==> r == Success(Join(lines, "\n"))
      ensures r.Success? && |lines| >= 1 && (forall k :: 0 <= k < |lines| ==> '\n' !in lines[k]) ==>
                Split(r.value, '\n') == lines
    {
      command := Assemble(program, arguments, redirectStandardError, os, None);
      if toss && exitCode != expected {
        return Failure(UnexpectedExitCode(exitCode, expected)), command;
      }
      var output := Join(lines, "\n");
      if |lines| >= 1 && (forall k :: 0 <= k < |lines| ==> '\n' !in lines[k]) {
        SplitJoin(lines, '\n');
      }
      r := Success(output);
    }

    /** getTemporaryFileName(): the temporary file already chosen, or else a fresh one, remembered. */
    method GetTemporaryFileName(tempName: string) returns (name: string)
      requires Valid()
      modifies this
      ensures Valid()
      ensures old(pipeFile).Some? ==> Snapshot() == old(Snapshot()) && name == old(pipeFile).value
      ensures old(pipeFile).None? ==> Snapshot() == old(Snapshot()).(pipeFile := Some(tempName)) && name == tempName
    {
      if pipeFile.Some? {
        return pipeFile.value;
      }
      pipeFile := Some(tempName);
      name := tempName;
    }

    /**
     * commandLine(popen): the program, the quoted arguments, the standard
     * error redirection if set, and, for a write-mode session being opened,
     * "> " and the escaped temporary file.
     */
    method CommandLine(popen: bool, tempName: string) returns (line: string)
      requires Valid()
      modifies this
      ensures Valid()
      ensures !(popen && mode == "w") ==>
                Snapshot() == old(Snapshot()) && line == CommandLineOf(program, arguments, redirectStandardError, os, None)
      ensures popen && mode == "w" ==>
              Snapshot() == old(Snapshot()).(pipeFile := Some(if old(pipeFile).Some? then old(pipeFile).value else tempName))
              && line == CommandLineOf(program, arguments, redirectStandardError, os, pipeFile)
    {
      var capture: Option<string> := None;
      if popen && mode == "w" {
        var name := GetTemporaryFileName(tempName);
        capture := Some(name);
      }
      line := Assemble(program, arguments, redirectStandardError, os, capture);
    }

    /**
     * beginInteractive(requested): refuse when a session is open (checked
     * first) or the mode is not w or r; otherwise remember the mode, build
     * the command line and open the pipe. Returns the command line opened.
     */
    method BeginInteractive(requested: string, tempName: string, pipe: nat) returns (r: Result<string, ProcessError>)
      requires Valid()
      modifies this
      ensures Valid()
      ensures old(handle).Some? ==> r == Failure(SessionAlreadyOpen) && Snapshot() == old(Snapshot())
      ensures old(handle).None? && requested != "w" && requested != "r" ==>
              r == Failure(InvalidMode) && Snapshot() == old(Snapshot())
      ensures old(handle).None? && requested == "r" ==>
              Snapshot() == old(Snapshot()).(mode := "r", handle := Some(pipe))
              && r == Success(CommandLineOf(program, arguments, redirectStandardError, os, None))
      ensures old(handle).None? && requested == "w" ==>
              Snapshot() == old(Snapshot()).(mode := "w", handle := Some(pipe),
                pipeFile := Some(if old(pipeFile).Some? then old(pipeFile).value else tempName))
              && r == Success(CommandLineOf(program, arguments, redirectStandardError, os, pipeFile))
    {
      if handle.Some? {
        return Failure(SessionAlreadyOpen);
      }
      if requested != "w" && requested != "r" {
        return Failure(InvalidMode);
      }
      mode := requested;
      var command := CommandLine(true, tempName);
      handle := Some(pipe);
      r := Success(command);
    }

    /** redirectStandardError(on): refused while a session is open. */
    method RedirectStandardError(on: bool) returns (r: Outcome<ProcessError>)
      requires Valid()
      modifies this
      ensures Valid()
      ensures old(handle).Some? ==> r == Fail(ProgramRunning) && Snapshot() == old(Snapshot())
      ensures old(handle).None? ==> r == Pass && Snapshot() == old(Snapshot()).(redirectStandardError := on)
    {
      if handle.Some? {
        return Fail(ProgramRunning);
      }
      redirectStandardError := on;
      r := Pass;
    }

    /** redirectStdErr(on): the same as redirectStandardError(on). */
    method RedirectStdErr(on: bool) returns (r: Outcome<ProcessError>)
      requires Valid()
      modifies this
      ensures Valid()
      ensures old(handle).Some? ==> r == Fail(ProgramRunning) && Snapshot() == old(Snapshot())
      ensures old(handle).None? ==> r == Pass && Snapshot() == old(Snapshot()).(redirectStandardError := on)
    {
      r := RedirectStandardError(on);
    }

    /**
     * write(text): needs an open write-mode session, and fails when fprintf
     * returns zero. fprintf returns the length of the formatted text whatever
     * the stream write did, so that happens exactly for empty text. The
     * object is left as it was in every case.
     */
    method Write(text: string) returns (r: Outcome<ProcessError>)
      ensures handle.None? ==> r == Fail(NoSession)
      ensures handle.Some? && mode != "w" ==> r == Fail(ReadOnlySession)
      ensures handle.Some? && mode == "w" && text == "" ==> r == Fail(WriteFailed)
      ensures r == Pass <==> handle.Some? && mode == "w" && text != ""
    {
      if handle.None? {
        return Fail(NoSession);
      }
      if mode != "w" {
        return Fail(ReadOnlySession);
      }
      var written := |text|;
      if written == 0 {
        return Fail(WriteFailed);
      }
      r := Pass;
    }

    /**
     * EOF(expected): close the session. The handle is dropped before the
     * exit code is checked, so the session is over even when it throws; in
     * that case the temporary file is kept. Otherwise the temporary file's
     * contents are returned and the file is forgotten.
     */
    method EOF(expected: int, exitCode: int, captured: string) returns (r: Result<string, ProcessError>)
      requires Valid()
      modifies this
      ensures Valid()
      ensures old(handle).None? ==> r == Failure(NoSession) && Snapshot() == old(Snapshot())
      ensures old(handle).Some? ==> handle == None
      ensures old(handle).Some? && Tosses(toss, exitCode, expected) ==>
              r == Failure(UnexpectedExitCode(exitCode, expected)) && Snapshot() == old(Snapshot()).(handle := None)
      ensures old(handle).Some? && !Tosses(toss, exitCode, expected) && old(pipeFile).None? ==>
              r == Failure(NoPipeFile) && Snapshot() == old(Snapshot()).(handle := None)
      ensures old(handle).Some? && !Tosses(toss, exitCode, expected) && old(pipeFile).Some? ==>
              r == Success(captured) && Snapshot() == old(Snapshot()).(handle := None, pipeFile := None)
      ensures old(handle).Some? && old(mode) == "w" ==> r != Failure(NoPipeFile)
    {
      if handle.None? {
        return Failure(NoSession);
      }
      handle := None;
      if toss && exitCode != expected {
        return Failure(UnexpectedExitCode(exitCode, expected));
      }
      if pipeFile.None? {
        return Failure(NoPipeFile);
      }
      pipeFile := None;
      r := Success(captured);
    }

    /**
     * addArgument(args...): refused while a session is open; otherwise the
     * arguments are joined by spaces, split at spaces, and each piece is
     * trimmed and appended.
     */
    method AddArgument(args: seq<string>) returns (r: Outcome<ProcessError>)
      requires Valid()
      modifies this
      ensures Valid()
      ensures old(handle).Some? ==> r == Fail(ProgramRunning) && Snapshot() == old(Snapshot())
      ensures old(handle).None? ==>
                r == Pass && Snapshot() == old(Snapshot()).(arguments := old(arguments) + AddedArguments(args))
    {
      if handle.Some? {
        return Fail(ProgramRunning);
      }
      var pieces := Split(Join(args, " "), ' ');
      var i := 0;
      while i < |pieces|
        invariant 0 <= i <= |pieces|
        invariant Snapshot() == old(Snapshot()).(arguments := old(arguments) + TrimAll(pieces)[..i])
      {
        arguments := arguments + [Trim(pieces[i])];
        assert TrimAll(pieces)[..i + 1] == TrimAll(pieces)[..i] + [Trim(pieces[i])];
        i := i + 1;
      }
      assert TrimAll(pieces)[..i] == TrimAll(pieces);
      r := Pass;
    }
  }

  /**
   * new sProcess(...): tokenize the call and build the object; an unclosed
   * span is a failure (the source never returns from it). The single scan
   * agrees with the source's in-place rewriting when no absorbed token opens
   * a span of its own.
   */
  method NewProcess(inv: Invocation, os: OS) returns (r: Result<Process, ProcessError>)
    requires AbsorbedInert(RawArguments(inv))
    ensures r.Failure? <==> Tokenize(inv).None?
    ensures r.Failure? ==> r.error == UnterminatedSpan
    ensures r.Success? ==> fresh(r.value) && r.value.Valid() && r.value.os == os
    ensures r.Success? ==>
              r.value.Snapshot() == State(Tokenize(inv).value.program, Tokenize(inv).value.arguments, false, None, "w", None, ".", false)
  {
    var command := TokenizeInvocation(inv);
    if command.None? {
      return Failure(UnterminatedSpan);
    }
    var p := new Process(command.value, os);
    r := Success(p);
  }

  /** Words without spaces or trimmable characters come back from addArgument as the same arguments, in order. */
  lemma AddedArgumentsOfWords(args: seq<string>)
    requires |args| >= 1
    requires forall k :: 0 <= k < |args| ==> forall c :: 0 <= c < |args[k]| ==> !IsTrimmable(args[k][c])
    ensures AddedArguments(args) == args
  {
    forall k | 0 <= k < |args| ensures ' ' !in args[k] {
      assert forall c :: 0 <= c < |args[k]| ==> args[k][c] != ' ';
    }
    SplitJoin(args, ' ');
    assert Split(Join(args, " "), ' ') == args;
  }

  /** Passing the arguments addArgument stored back to addArgument stores them again unchanged. */
  lemma AddedArgumentsStable(args: seq<string>)
    ensures AddedArguments(AddedArguments(args)) == AddedArguments(args)
  {
    var pieces := Split(Join(args, " "), ' ');
    var stored := AddedArguments(args);
    forall k | 0 <= k < |stored| ensures ' ' !in stored[k] && Trim(stored[k]) == stored[k] {
      assert ' ' !in pieces[k];
      assert forall c :: 0 <= c < |stored[k]| ==> stored[k][c] in pieces[k];
      TrimIdempotent(pieces[k]);
    }
    SplitJoin(stored, ' ');
  }

  /** addArgument() with no arguments appends one empty argument, since implode of nothing is "" and explode of "" is one piece. */
  lemma AddNothingAppendsEmpty()
    ensures AddedArguments([]) == [""]
  {
    assert Split("", ' ') == [""];
    assert Trim("") == "";
  }

  /** An argument holding a space is split in two: addArgument("a b") adds a and b. */
  lemma AddArgumentSplitsAtSpace(a: string, b: string)
    requires forall c :: 0 <= c < |a| ==> !IsTrimmable(a[c])
    requires forall c :: 0 <= c < |b| ==> !IsTrimmable(b[c])
    ensures AddedArguments([a + " " + b]) == [a, b]
  {
    var w := a + " " + b;
    assert Join([w], " ") == w;
    assert ' ' !in a by {
      assert forall c :: 0 <= c < |a| ==> a[c] != ' ';
    }
    assert ' ' !in b by {
      assert forall c :: 0 <= c < |b| ==> b[c] != ' ';
    }
    assert w == a + [' '] + b;
    SplitAtSeparator(a, b, ' ');
    SplitNoSeparator(a, ' ');
    SplitNoSeparator(b, ' ');
    assert Split(w, ' ') == [a, b];
  }
}
