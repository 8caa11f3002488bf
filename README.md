# sProcess and Buffer, modelled in Dafny

This project models two classes of the Sutra PHP library.

- `sProcess` runs external programs. The constructor tokenizes a command into a program and its arguments, joining quoted spans back into one argument. `commandLine()` assembles the escaped shell command. `execute()` runs it once. `beginInteractive()`, `write()` and `EOF()` drive an interactive session through a pipe. A class-wide cached search path is used by `exists()` to look for a binary.
- `Sutra\Component\Buffer\Buffer` wraps PHP's output-buffering stack with two flags, `started` and `capturing`, and refuses calls made in the wrong state.

The operating system is never called. Each of its answers is a parameter of the operation that needs it:

- exit codes from `exec` and `pclose`;
- the lines `exec` collects;
- the name `tempnam` would create;
- the handle `popen` returns;
- what the temporary file holds when a session ends;
- the environment (`getenv`), as a map;
- the files `is_file` accepts, as a set;
- the operating system `fCore::checkOS` reports;
- whether a directory exists and is writable;
- the names of the loaded PHP extensions (`extension_loaded`), as a set.

Modules, one file each:

| file | module | models |
|---|---|---|
| wrappers.dfy | `Wrappers` | `Option`, `Result`, `Outcome` for PHP's NULL and exceptions |
| strings.dfy | `Strings` | `explode`, `implode`, `trim`, `strpos`, `substr(s, -1)`, `str_replace` |
| shell.dfy | `Shell` | POSIX `escapeshellarg`, and a conservative reader that splits a shell line into words |
| tokenizer.dfy | `Tokenizer` | the constructor's tokenizer |
| command_line.dfy | `Commands` | the assembly in `commandLine()` |
| search_path.dfy | `SearchPath` | the static `$path`, `setPath`, `getPath`, `exists` |
| process.dfy | `Processes` | the `sProcess` object and its methods |
| buffer.dfy | `OutputBuffering` | PHP's output-buffer stack, and class `Buffer` |

The main results are these:

- `commandLine()` is safe for the shell. With a plain program name that is not a shell reserved word (`if`, `while`, ...) and plain verbatim flags, a POSIX shell reads the line without redirections back as exactly the program followed by every argument (`Commands.ShellReadsArguments`). A line with redirections is that line followed by the null sink and by `>` and the escaped capture file, which the shell reads back as that file (`Commands.RedirectedLineReadsArguments`).
- Every state-changing method either fails and leaves the object as it was, or makes exactly the stated change. The exception is `EOF()`, which drops the session's handle before its exit-code and temporary-file checks, so those two failures also end the session. The invariant `Valid()` says that an open write-mode session always has its temporary file, and every method preserves it.
- For `Buffer`, every method keeps the stack deep enough for its flags. `stop()` loses output only when the buffer holds exactly `"0"`.

## Model

| member | source | states |
|---|---|---|
| Tokenizer.ExplodeAndTrim | classes/sProcess.php:110-116 | one piece per `' '`-separated piece of the command, each trimmed, in order |
| Tokenizer.CloseIndex | classes/sProcess.php:127-135 | the first token at or after `from` that ends with the delimiter; none of the tokens before it does; None exactly when no such token exists |
| Tokenizer.AbsorbSpan | classes/sProcess.php:124-170 | the inner while loop: absorbs at least one following token, up to the first one ending in the delimiter, into one span; fails exactly when no later token closes it |
| Tokenizer.GroupArguments | classes/sProcess.php:124-171 | the grouping loop computes `GroupSpans`: each span becomes one argument, quotes cut off, backticks kept, absorbed tokens gone, None for an unclosed span |
| Tokenizer.TokenizeInvocation | classes/sProcess.php:99-172 | the three call forms (array, one string, several strings) give the program and grouped arguments of `Tokenize` |
| Tokenizer.GroupPlain | classes/sProcess.php:123-171 | tokens that open no span pass through grouping unchanged |
| Tokenizer.GroupShrinks | classes/sProcess.php:123-171 | grouping never adds arguments and leaves some exactly when there were some |
| Tokenizer.GroupBackticksKeepText | classes/sProcess.php:156-170 | backtick spans keep their text: the grouped arguments joined by spaces equal the raw tokens joined by spaces |
| Tokenizer.GroupCompose | classes/sProcess.php:124-171 | grouping tokens that group successfully followed by more tokens gives their groups followed by the groups of the rest |
| Tokenizer.GroupUnclosed | classes/sProcess.php:126-139 | a span opened anywhere, after any prefix that groups successfully, that no later token closes makes the whole tokenization fail |
| Tokenizer.GroupFailsOnlyUnclosed | classes/sProcess.php:126-139 | conversely, when tokenization fails there is a span opener, after a prefix that groups successfully, that no later token closes |
| Tokenizer.UnclosedAfterClosedExample | classes/sProcess.php:126-139 | example: `a 'b c' d "e f` fails although its first span is closed |
| Tokenizer.TokenizePlainCommand | classes/sProcess.php:110-120 | a one-string command with no span gives the first trimmed `' '`-piece as program and the rest, trimmed and in order, as arguments |
| Tokenizer.QuotedArgumentExample | classes/sProcess.php:140-154 | `'b` and `c'` merge into the one argument `b c`, and the arguments around it stay |
| Tokenizer.StringFormExample | classes/sProcess.php:110-154 | `prog a 'b c' d` gives program `prog` and arguments `a`, `b c`, `d` |
| Tokenizer.SelfClosedQuoteAbsorbsNext | classes/sProcess.php:124-135 | example: a token that opens and closes its own quote still absorbs the tokens up to a later closing one |
| Tokenizer.SelfClosedQuoteUnclosed | classes/sProcess.php:124-135 | example: a self-closed quoted token with no later closing token fails |
| Tokenizer.VariadicKeepsFirstCharacter | classes/sProcess.php:104-107 | example: with several string arguments the program is the first character of the first one |
| Tokenizer.ExeStripNeverFires | classes/sProcess.php:174-176 | the Windows ".exe" guard can never hold, so the program name is never changed by it |
| Shell.EscapeShellArgRoundTrip | classes/sProcess.php:336-337 | the shell reads an `escapeshellarg`'d argument back as that argument, as one word |
| Shell.ShellWordsOfJoined | classes/sProcess.php:361 | space-joined words, each escaped or plain, are read back as exactly their values, in order |
| Commands.QuoteArguments | classes/sProcess.php:334-341 | each argument starting with a dash, a pipe or a backtick appears verbatim, and every other argument appears escaped, in order |
| Commands.Assemble | classes/sProcess.php:333-361 | the line is the program, the quoted arguments, the optional null sink and the optional `> file`, joined by single spaces |
| Commands.ShellReadsArguments | classes/sProcess.php:333-361 | with standard-error redirection off and no capture file, a plain program that is not a reserved word and plain verbatim flags, the shell reads the command line as the program followed by every argument, unchanged |
| Commands.RedirectedLineReadsArguments | classes/sProcess.php:333-361 | any command line is the line without redirections, read as the program and every argument, then the optional null sink, then `> ` and the escaped capture file, which reads back as that file |
| Commands.RedirectionSuffix | classes/sProcess.php:346-359 | exactly one `2>nul` (Windows) or `2>/dev/null` segment follows the arguments iff redirection is on, then `> file` iff a capture file is given |
| SearchPath.BinaryName | classes/sProcess.php:257-266 | the name looked for has no `/`; it is the last `/`-piece of the name, with ".exe" appended on Windows exactly when that piece does not contain it |
| SearchPath.ScanPaths | classes/sProcess.php:269-275 | the scan reports true iff some entry holds a file named `entry/bin` |
| SearchPath.PathCache.SetPath | classes/sProcess.php:220-235 | the first call caches the environment's Path or PATH; later calls replace the cache with a given path (`:` turned into `;` on Windows) and otherwise keep it |
| SearchPath.PathCache.GetPath | classes/sProcess.php:243-246 | fills the cache if empty, never changes a filled one, returns it whole or split at `:` |
| SearchPath.PathCache.Exists | classes/sProcess.php:256-276 | fills the cache if empty; true iff some `:`-separated entry holds the last `/`-segment of the name (".exe" added on Windows) |
| SearchPath.SetPathFirstCallIgnoresArgument | classes/sProcess.php:221-228 | the first `setPath` gives the same cache whatever its argument, namely the environment's path |
| SearchPath.CachedPathIsStable | classes/sProcess.php:229-235 | once filled, the cache is unchanged by `setPath()` without argument, as `getPath` and `exists` call it |
| SearchPath.ExplicitPathStored | classes/sProcess.php:229-234 | a path set explicitly is stored with no `:` left in it on Windows, and as given elsewhere |
| SearchPath.BinaryNameIgnoresDirectories | classes/sProcess.php:257-261 | `dir/name` and `name` look for the same binary |
| SearchPath.BinaryNameExeOptional | classes/sProcess.php:265-267 | on Windows, `name` and `name.exe` look for the same binary |
| SearchPath.FoundInAnyEntry | classes/sProcess.php:268-275 | a binary present in any one entry of the path is found, whatever the other entries hold |
| SearchPath.BinaryNameKeepsBackslashDirectories | classes/sProcess.php:257-264 | a `\`-separated directory is not stripped from the name looked for |
| SearchPath.IntendedBinaryNameIgnoresDirectories | classes/sProcess.php:257-264 | with directories after either separator stripped, `dir/name` and `dir\name` look for the same binary as `name` |
| Processes.NewProcess | classes/sProcess.php:99-179 | fails exactly when a span is unclosed; otherwise a new object holding the tokenized program and arguments, no session, mode w, no temporary file, working directory ".", tossing and redirection off |
| Processes.Process.constructor | classes/sProcess.php:118-179 | the object starts with the given command, no session, mode w, no temporary file, working directory ".", flags off |
| Processes.Process.SetWorkingDirectory | classes/sProcess.php:189-196 | fails for a missing or unwritable directory, leaving the object unchanged; otherwise only the working directory changes |
| Processes.Process.TossIfUnexpected | classes/sProcess.php:284-286 | only the toss flag changes, to on |
| Processes.Process.Execute | classes/sProcess.php:297-309 | runs the command line without a capture file; throws iff tossing is on and the exit code differs; otherwise returns the lines joined by newlines, which split back into those lines when there is at least one and none contains a newline |
| Processes.Process.GetTemporaryFileName | classes/sProcess.php:316-323 | returns the remembered temporary file if there is one, unchanged; otherwise remembers and returns the fresh name |
| Processes.Process.CommandLine | classes/sProcess.php:333-362 | the assembled line, with `> file` only for a write-mode session being opened, whose temporary file is then chosen; nothing else changes |
| Processes.Process.BeginInteractive | classes/sProcess.php:372-387 | refuses when a session is open (checked first), then any mode but w or r, leaving the object unchanged; otherwise stores the mode, opens the handle and (mode w) chooses the temporary file |
| Processes.Process.RedirectStandardError | classes/sProcess.php:396-402 | refused while a session is open, leaving the object unchanged; otherwise only the flag changes |
| Processes.Process.RedirectStdErr | classes/sProcess.php:412-414 | the same contract as `RedirectStandardError` |
| Processes.Process.Write | classes/sProcess.php:427-444 | fails with no session, then in mode r, then when the text is empty, since fprintf returns the formatted length; succeeds iff a write-mode session is open and the text is non-empty |
| Processes.Process.EOF | classes/sProcess.php:456-475 | fails with no session; otherwise the handle is dropped before the exit-code check, so the session is closed even when it throws (the temporary file is then kept); on success returns the file's contents and forgets the file; a write-mode session never lacks its file |
| Processes.Process.AddArgument | classes/sProcess.php:486-497 | refused while a session is open, leaving the object unchanged; otherwise appends the arguments joined by spaces, split at spaces and trimmed, in order |
| Processes.AddedArgumentsOfWords | classes/sProcess.php:491-495 | words without spaces or trimmable characters are appended as exactly those arguments |
| Processes.AddNothingAppendsEmpty | classes/sProcess.php:491-495 | `addArgument()` with no arguments appends one empty argument |
| Processes.AddArgumentSplitsAtSpace | classes/sProcess.php:491-495 | one argument `a b` is appended as the two arguments `a` and `b` |
| Processes.AddedArgumentsStable | classes/sProcess.php:491-495 | the arguments addArgument stores, passed to it again, are stored unchanged: they hold no space and need no trimming |
| OutputBuffering.PrintedAppends | src/Sutra/Component/Buffer/Buffer.php:64 | printing adds the text to the end of everything printed so far |
| OutputBuffering.PushedKeepsEmitted | src/Sutra/Component/Buffer/Buffer.php:81 | opening a buffer loses and adds nothing |
| OutputBuffering.FlushedKeepsEmitted | src/Sutra/Component/Buffer/Buffer.php:109 | `ob_end_flush` moves text outward without losing any |
| OutputBuffering.DroppedLosesTop | src/Sutra/Component/Buffer/Buffer.php:112 | `ob_end_clean` loses exactly the innermost buffer's contents |
| OutputBuffering.StopLosesOnlyZero | src/Sutra/Component/Buffer/Buffer.php:105-113 | `stop()` keeps all output unless the buffer holds exactly `"0"`, which it loses |
| OutputBuffering.StopDiscardsZero | src/Sutra/Component/Buffer/Buffer.php:108-113 | a buffer holding `"0"` is discarded by `stop()` |
| OutputBuffering.StoppedIntendedKeepsEmitted | src/Sutra/Component/Buffer/Buffer.php:105-113 | flushing whenever the buffer is non-empty loses no output |
| OutputBuffering.CaptureRoundTrip | src/Sutra/Component/Buffer/Buffer.php:118-127 | opening a capture, printing text and `ob_get_clean` yields exactly that text and restores the stack |
| OutputBuffering.ReplaceRewritesTop | src/Sutra/Component/Buffer/Buffer.php:60-64 | emptying the buffer and printing the replaced text leaves the buffer equal to `str_replace` of its old contents |
| OutputBuffering.ReplaceWithItselfKeepsTop | src/Sutra/Component/Buffer/Buffer.php:60-64 | replacing a string by itself leaves the stack unchanged |
| OutputBuffering.ReplaceAbsentKeepsTop | src/Sutra/Component/Buffer/Buffer.php:60-64 | replacing a string the innermost buffer does not contain leaves the stack unchanged |
| OutputBuffering.Buffer.constructor | src/Sutra/Component/Buffer/Buffer.php:16-17 | both flags start off |
| OutputBuffering.Buffer.Erase | src/Sutra/Component/Buffer/Buffer.php:19-30 | fails unless started, then while capturing, leaving the stack unchanged; otherwise empties the innermost buffer |
| OutputBuffering.Buffer.Get | src/Sutra/Component/Buffer/Buffer.php:32-43 | fails unless started, then while capturing; otherwise returns the innermost buffer's contents |
| OutputBuffering.Buffer.IsStarted | src/Sutra/Component/Buffer/Buffer.php:45-48 | true iff started |
| OutputBuffering.Buffer.Replace | src/Sutra/Component/Buffer/Buffer.php:50-65 | fails unless started, then while capturing; otherwise the innermost buffer becomes `str_replace(find, rep, old)` and nothing else changes |
| OutputBuffering.GzipGuardRejectsZlib | src/Sutra/Component/Buffer/Buffer.php:77-79 | with zlib loaded and no extension named `gzip`, the written test refuses `start(true)` while the intended one accepts it |
| OutputBuffering.IntendedGzipGuardRefusesOnlyWithoutZlib | src/Sutra/Component/Buffer/Buffer.php:77-79 | the intended test refuses exactly a gzip request without zlib, and agrees with the written test when gzip is not requested |
| OutputBuffering.Buffer.Start | src/Sutra/Component/Buffer/Buffer.php:67-83 | fails when started, then while capturing, then when gzip is asked for and no extension named `gzip` is loaded, each time leaving flags and stack unchanged; otherwise pushes a buffer and sets `started` |
| OutputBuffering.Buffer.StartCapture | src/Sutra/Component/Buffer/Buffer.php:85-93 | fails only while capturing, whether started or not; otherwise pushes a buffer and sets `capturing` |
| OutputBuffering.Buffer.Stop | src/Sutra/Component/Buffer/Buffer.php:95-116 | fails unless started, then while capturing, leaving everything unchanged; otherwise clears `started`, keeps `capturing`, and flushes the buffer if its contents are truthy, else discards it |
| OutputBuffering.Buffer.StopCapture | src/Sutra/Component/Buffer/Buffer.php:118-127 | fails unless capturing; otherwise clears `capturing`, returns the innermost buffer's contents and pops it |

## Left out

- Process I/O is not modelled: `exec`, `popen`, `pclose`, `fprintf`, `tempnam`, the temporary file's reading and deletion, `is_file` and `getenv`. Each enters as a parameter instead.
- The process-wide working directory is left out: the `chdir` in `setWorkingDirectory` and the `chdir` back in `EOF`.
- `fCore::debug` logging is left out, together with the 100-character preview that `write()` builds for it.
- `fCore::checkOS` is the constant `os` of each object.
- A `popen` that returns FALSE is not modelled. In the source it leaves a non-NULL, unusable handle.
- Processes.Process.Write: takes the text after `sprintf` formatting. The format string and its arguments are not modelled. The bytes reaching the pipe are not modelled either: PHP's `fprintf` reports the formatted length whether or not the stream write succeeded, so a failed write to the pipe goes unnoticed, in the model as in the source.
- Processes.NewProcess: requires that no absorbed token opens a span of its own. The source walks a snapshot of the arguments and rewrites the array in place, so such a token would start a second, overlapping merge. The single-scan model does not cover that case.
- Processes.NewProcess: an unclosed span is reported as a failure. The source keeps reading past the end of the array and never returns.
- Tokenizer.TokenizeInvocation: array-form commands are lists. Associative arrays, and non-string arguments, are not modelled.
- The docblock gives `new sProcess('app', '--help')` as an example. The code takes `$name[0]`, the first character, as the program, and the model follows the code.
- The Windows `.exe` stripping in the constructor is not modelled as a change. Its guard can never hold (`Tokenizer.ExeStripNeverFires`).
- Tokenizer.TokenizeInvocation: strings are sequences of characters, while PHP strings are bytes. In the variadic form the program is `$name[0]`, the first byte of the first argument, and the model takes its first character; the two differ when that argument starts with a non-ASCII character.
- Shell.EscapeShellArg: models `escapeshellarg` as PHP defines it on POSIX systems. The Windows variant is not modelled. PHP's implementation also skips any byte sequence that `mblen` rejects in the current locale; the model copies every character, as in the C locale. Since PHP 7.0, `escapeshellarg` also refuses a string containing a NUL byte (a fatal error in PHP 7, a `ValueError` in PHP 8), so `commandLine()`, `execute()` and `beginInteractive()` stop for such an argument. The model quotes the NUL like any other character and has no error for it, and `Shell.EscapeShellArgRoundTrip` and `Commands.ShellReadsArguments` also cover arguments that PHP refuses.
- Commands.ShellReadsArguments: covers the line without `2>/dev/null` (`2>nul` on Windows) and without `> file`. `Shell.ShellWords` does not read redirection operators and gives up on a line that has them, so `Commands.RedirectedLineReadsArguments` describes such a line by its parts instead: the argument part as the shell reads it, then the redirections.
- Shell.ShellWords: reads only single quotes, backslashes, spaces and plain characters. Any other character makes it give up, so `Commands.ShellReadsArguments` covers only plain program names and flags. It does not know reserved words either: `Commands.ShellReadsArguments` requires the program name to be outside `Shell.ReservedWords`, and a program named after a shell alias is not covered. It also reads a backslash before a newline as an escaped newline, where the shell removes the pair as a line continuation. Escaped arguments never put that pair outside quotes, so `Commands.ShellReadsArguments` is unaffected.
- SearchPath.PathCache.SetPath: an unset variable is cached as "". The source caches FALSE. `getPath(true)` and `exists` read both the same way, but `getPath()` returns "" where the source returns FALSE.
- SearchPath.PathCache: the static property shared by every `sProcess` is one object that callers share.
- The gzip output handler (`ob_gzhandler`) is not modelled. `start(true)` only checks the extension name against the set of loaded extensions, given as a parameter.
- Sending flushed output to the client is modelled as appending it to `sent`, with no headers and no output handlers.
- OutputBuffering.Buffer: its invariant `Valid` counts the buffers its flags need but does not track which buffer is its own. Buffers opened or closed by other code in between are not tied to the flags.
- The PHPUnit test of an exception class that ships in the repository has no behaviour to model.

## Findings

| source | as written | input that shows it | evidently intended | confidence | as-written member | corrected member |
|---|---|---|---|---|---|---|
| src/Sutra/Component/Buffer/Buffer.php:108-113 | `stop()` tests `ob_get_contents()` for PHP truthiness, so a buffer holding exactly `"0"` is discarded with `ob_end_clean` | a buffer whose only output is `0` | flush whenever the buffer holds content, as the comment at lines 105-106 says | not executed; high | OutputBuffering.StopDiscardsZero | OutputBuffering.StoppedIntendedKeepsEmitted |
| classes/sProcess.php:257-264 | the second test is `sizeof($other)`, which is always at least 1, and it takes `end($test)`, so the split at `\` is never used | `exists('bin\app')` on Linux looks for `bin\app` in each entry | strip everything up to the last `/` or `\` | not executed; medium | SearchPath.BinaryNameKeepsBackslashDirectories | SearchPath.IntendedBinaryNameIgnoresDirectories |
| src/Sutra/Component/Buffer/Buffer.php:77-79 | `start(true)` tests `extension_loaded('gzip')`, but the extension that provides `ob_gzhandler` is named `zlib` and none is named `gzip` | `start(true)` with zlib loaded fails with the environment exception | test `extension_loaded('zlib')`, as the exception message says | not executed; high | OutputBuffering.GzipGuardRejectsZlib | OutputBuffering.IntendedGzipGuardRefusesOnlyWithoutZlib |

`Buffer.Stop`, `PathCache.Exists` and `Buffer.Start` keep the behaviour as written. The corrected definitions, `StoppedIntended`, `IntendedBinaryName` and `IntendedGzipGuardPasses`, are stated beside them with their properties proved. `StopLosesOnlyZero` shows that the written `stop()` differs from the intended one only when the buffer holds `"0"`.
