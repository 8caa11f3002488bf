/**
 * escapeshellarg() as PHP documents it on POSIX systems, and a conservative
 * reading of a command line the way a POSIX shell splits it into words.
 *
 * The reader knows single quotes, backslash escapes outside quotes and
 * spaces as word separators; every other character is either plain
 * (letters, digits and - _ . / , : + @ %) or one the shell would interpret
 * (a metacharacter, a redirection, an expansion), and reading stops there.
 * A line it accepts is one the shell splits into those words, with two
 * exceptions: the reader takes a backslash before a newline as an escaped
 * newline, where the shell removes both as a line continuation (an escaped
 * argument never puts that pair outside its quotes), and it reads a NUL
 * character like any other, where a real command line ends at it. The shell
 * also gives the first word of a command a meaning of its own when it is a
 * reserved word (if, while, ...); that word is then the start of a compound
 * command rather than a program to run, so a line is taken word for word as a
 * simple command only when its first word is not one of ReservedWords.
 */
module Shell {
  import opened Wrappers
  import Strings

  /** Characters a POSIX shell passes through unquoted without interpreting them. */
  predicate Plain(c: char)
  {
    ('a' <= c <= 'z') || ('A' <= c <= 'Z') || ('0' <= c <= '9') || c in "-_./,:+@%"
  }

  /**
   * Words the shell reads as reserved words when they open a command: the
   * POSIX list made of plain characters, with the words some shells add
   * (function, select, time, and coproc in bash).
   */
  const ReservedWords: set<string> :=
    {"case", "do", "done", "elif", "else", "esac", "fi", "for", "if", "in", "then", "until", "while",
     "function", "select", "time", "coproc"}

  predicate AllPlain(w: string)
  {
    forall k :: 0 <= k < |w| ==> Plain(w[k])
  }

  /** The inside of an escaped argument: each ' becomes '\'' (close, escaped quote, reopen). */
  function EscapeBody(s: string): string
    decreases |s|
  {
    if s == [] then ""
    else (if s[0] == '\'' then "'\\''" else [s[0]]) + EscapeBody(s[1..])
  }

  /** escapeshellarg(s) on POSIX: s in single quotes, each ' in s written as '\''. */
  function EscapeShellArg(s: string): string
  {
    "'" + EscapeBody(s) + "'"
  }

  datatype Mode = Unquoted | SingleQuoted | AfterBackslash

  /** The reader's state: finished words, the word in progress, and the quoting mode. */
  datatype Reader = Reading(words: seq<string>, word: string, inWord: bool, mode: Mode) | Interpreted

  function Step(st: Reader, c: char): Reader
  {
    match st
    case Interpreted => Interpreted
    case Reading(words, word, inWord, mode) =>
      match mode
      case SingleQuoted =>
        if c == '\'' then Reading(words, word, true, Unquoted)
        else Reading(words, word + [c], true, SingleQuoted)
      case AfterBackslash => Reading(words, word + [c], true, Unquoted)
      case Unquoted =>
        if c == ' ' then
          if inWord then Reading(words + [word], "", false, Unquoted) else st
        else if c == '\'' then Reading(words, word, true, SingleQuoted)
        else if c == '\\' then Reading(words, word, true, AfterBackslash)
        else if Plain(c) then Reading(words, word + [c], true, Unquoted)
        else Interpreted
  }

  function Run(st: Reader, s: string): Reader
    decreases |s|
  {
    if s == [] then st else Run(Step(st, s[0]), s[1..])
  }

  const Start := Reading([], "", false, Unquoted)

  /** The words the shell reads from `line`, or None if the shell would interpret something in it. */
  function ShellWords(line: string): Option<seq<string>>
  {
    match Run(Start, line)
    case Interpreted => None
    case Reading(words, word, inWord, mode) =>
      if mode != Unquoted then None
      else Some(if inWord then words + [word] else words)
  }

  /** Reading is a left fold: reading a + b is reading b after a. */
  lemma {:induction false} RunAppend(st: Reader, a: string, b: string)
    ensures Run(st, a + b) == Run(Run(st, a), b)
    decreases |a|
  {
    if a == [] {
      assert a + b == b;
    } else {
      assert (a + b)[0] == a[0];
      assert (a + b)[1..] == a[1..] + b;
      RunAppend(Step(st, a[0]), a[1..], b);
    }
  }

  /** Inside single quotes, the escaped body of s reads back as exactly s. */
  lemma {:induction false} RunEscapeBody(words: seq<string>, word: string, s: string)
    ensures Run(Reading(words, word, true, SingleQuoted), EscapeBody(s))
         == Reading(words, word + s, true, SingleQuoted)
    decreases |s|
  {
    var st := Reading(words, word, true, SingleQuoted);
    if s == [] {
      assert word + s == word;
    } else {
      var head := if s[0] == '\'' then "'\\''" else [s[0]];
      RunAppend(st, head, EscapeBody(s[1..]));
      if s[0] == '\'' {
        var s1 := Reading(words, word, true, Unquoted);
        var s2 := Reading(words, word, true, AfterBackslash);
        var s3 := Reading(words, word + "'", true, Unquoted);
        var s4 := Reading(words, word + "'", true, SingleQuoted);
        assert head[1..] == "\\''" && head[2..] == "''" && head[3..] == "'";
        assert Run(s3, "'") == s4;
        assert Run(s2, "''") == s4;
        assert Run(s1, "\\''") == s4;
        assert Run(st, head) == s4;
      } else {
        assert Run(st, head) == Reading(words, word + [s[0]], true, SingleQuoted);
      }
      RunEscapeBody(words, word + [s[0]], s[1..]);
      assert word + [s[0]] + s[1..] == word + s;
    }
  }

  /** Outside quotes, an escaped argument extends the current word by exactly s. */
  lemma RunEscape(words: seq<string>, word: string, inWord: bool, s: string)
    ensures Run(Reading(words, word, inWord, Unquoted), EscapeShellArg(s))
         == Reading(words, word + s, true, Unquoted)
  {
    var st := Reading(words, word, inWord, Unquoted);
    RunAppend(st, "'" + EscapeBody(s), "'");
    RunAppend(st, "'", EscapeBody(s));
    RunEscapeBody(words, word, s);
  }

  /** Outside quotes, a run of plain characters extends the current word by itself. */
  lemma {:induction false} RunPlain(words: seq<string>, word: string, inWord: bool, w: string)
    requires w != [] && AllPlain(w)
    ensures Run(Reading(words, word, inWord, Unquoted), w) == Reading(words, word + w, true, Unquoted)
    decreases |w|
  {
    var next := Reading(words, word + [w[0]], true, Unquoted);
    assert Step(Reading(words, word, inWord, Unquoted), w[0]) == next;
    if |w| == 1 {
      assert w[1..] == [];
      assert word + [w[0]] == word + w;
    } else {
      RunPlain(words, word + [w[0]], true, w[1..]);
      assert word + [w[0]] + w[1..] == word + w;
    }
  }

  /** The shell reads an escaped argument back as that argument, as a single word. */
  lemma EscapeShellArgRoundTrip(s: string)
    ensures ShellWords(EscapeShellArg(s)) == Some([s])
  {
    RunEscape([], "", false, s);
    assert "" + s == s;
    assert Run(Start, EscapeShellArg(s)) == Reading([], s, true, Unquoted);
    assert [] + [s] == [s];
  }

  /** `w` is what the shell reads as the single word `t`: an escaped t, or t itself made of plain characters. */
  predicate Denotes(w: string, t: string)
  {
    w == EscapeShellArg(t) || (w == t && w != [] && AllPlain(w))
  }

  lemma RunDenoted(words: seq<string>, inWord: bool, w: string, t: string)
    requires Denotes(w, t)
    ensures Run(Reading(words, "", inWord, Unquoted), w) == Reading(words, t, true, Unquoted)
  {
    if w == EscapeShellArg(t) {
      RunEscape(words, "", inWord, t);
    } else {
      RunPlain(words, "", inWord, w);
    }
    assert "" + t == t;
  }

  /** A denoting word followed by a space finishes that word. */
  lemma RunWordThenSpace(words: seq<string>, w: string, t: string, rest: string)
    requires Denotes(w, t)
    ensures Run(Reading(words, "", false, Unquoted), w + (" " + rest))
         == Run(Reading(words + [t], "", false, Unquoted), rest)
  {
    var st := Reading(words, "", false, Unquoted);
    RunDenoted(words, false, w, t);
    RunAppend(st, w, " " + rest);
    var after := Reading(words, t, true, Unquoted);
    RunAppend(after, " ", rest);
    assert Run(after, " ") == Reading(words + [t], "", false, Unquoted);
  }

  /** Reading space-joined words, each denoting its target, collects the targets in order. */
  lemma {:induction false} RunJoined(words: seq<string>, ws: seq<string>, ts: seq<string>)
    requires |ws| == |ts| >= 1
    requires forall k :: 0 <= k < |ws| ==> Denotes(ws[k], ts[k])
    ensures Run(Reading(words, "", false, Unquoted), Strings.Join(ws, " "))
         == Reading(words + ts[..|ts| - 1], ts[|ts| - 1], true, Unquoted)
    decreases |ws|
  {
    assert Denotes(ws[0], ts[0]);
    if |ws| == 1 {
      RunDenoted(words, false, ws[0], ts[0]);
      assert ts[..0] == [];
      assert words + [] == words;
    } else {
      var rest := Strings.Join(ws[1..], " ");
      assert Strings.Join(ws, " ") == ws[0] + (" " + rest);
      RunWordThenSpace(words, ws[0], ts[0], rest);
      RunJoined(words + [ts[0]], ws[1..], ts[1..]);
      assert words + [ts[0]] + ts[1..][..|ts| - 2] == words + ts[..|ts| - 1];
    }
  }

  /** The shell reads a line of space-joined denoting words as exactly their targets. */
  lemma ShellWordsOfJoined(ws: seq<string>, ts: seq<string>)
    requires |ws| == |ts| >= 1
    requires forall k :: 0 <= k < |ws| ==> Denotes(ws[k], ts[k])
    ensures ShellWords(Strings.Join(ws, " ")) == Some(ts)
  {
    RunJoined([], ws, ts);
    assert [] + ts[..|ts| - 1] + [ts[|ts| - 1]] == ts;
  }
}
