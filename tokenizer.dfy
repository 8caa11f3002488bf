/**
 * The tokenizer in sProcess's constructor: how a program name and its
 * argument list are taken from the three call forms, and how a token that
 * opens with ", ' or ` absorbs the tokens after it into one argument.
 *
 * The source rewrites its argument array in place while a foreach walks a
 * snapshot of it; here one cursor scans the raw tokens once and builds the
 * result. The two agree when no absorbed token itself opens a span
 * (AbsorbedInert), the condition NewProcess asks of its caller.
 */
module Tokenizer {
  import opened Wrappers
  import opened Strings

  /** The three ways the constructor can be called. */
  datatype Invocation =
    | ArrayForm(items: seq<string>)                                  // new sProcess(array('prog', 'a', ...))
    | StringForm(command: string)                                    // new sProcess('prog a ...')
    | VariadicForm(first: string, second: string, more: seq<string>) // new sProcess('prog', 'a', ...)

  /** A constructed command: the program and its arguments in order. */
  datatype Command = Command(program: string, arguments: seq<string>)

  /** Trim every piece. */
  function TrimAll(pieces: seq<string>): seq<string>
  {
    seq(|pieces|, k requires 0 <= k < |pieces| => Trim(pieces[k]))
  }

  /** explode(' ', command) followed by the loop that trims each piece in place. */
  method ExplodeAndTrim(command: string) returns (pieces: seq<string>)
    ensures |pieces| == |Split(command, ' ')| >= 1
    ensures forall k :: 0 <= k < |pieces| ==> pieces[k] == Trim(Split(command, ' ')[k])
  {
    pieces := Split(command, ' ');
    var key := 0;
    while key < |pieces|
      invariant 0 <= key <= |pieces| == |Split(command, ' ')|
      invariant forall k :: 0 <= k < key ==> pieces[k] == Trim(Split(command, ' ')[k])
      invariant forall k :: key <= k < |pieces| ==> pieces[k] == Split(command, ' ')[k]
    {
      pieces := pieces[key := Trim(pieces[key])];
      key := key + 1;
    }
  }

  /**
   * The program name. In the variadic form the source indexes the first
   * argument, a string, so only its first character is kept. An empty
   * array or an empty first string reads as the empty name.
   */
  function ProgramName(inv: Invocation): string
  {
    match inv
    case ArrayForm(items) => if |items| > 0 then items[0] else ""
    case StringForm(command) => Trim(Split(command, ' ')[0])
    case VariadicForm(first, _, _) => if |first| > 0 then [first[0]] else ""
  }

  /** The tokens after the program name, before any grouping. */
  function RawArguments(inv: Invocation): seq<string>
  {
    match inv
    case ArrayForm(items) => if |items| > 0 then items[1..] else []
    case StringForm(command) => TrimAll(Split(command, ' '))[1..]
    case VariadicForm(_, second, more) => [second] + more
  }

  /** The span a token opens, by its first character: ", ' or `. */
  function Delimiter(arg: string): Option<char>
  {
    if |arg| > 0 && (arg[0] == '"' || arg[0] == '\'' || arg[0] == '`') then Some(arg[0]) else None
  }

  /** The first index at or after `from` whose token ends with d. */
  function CloseIndex(args: seq<string>, from: nat, d: char): (r: Option<nat>)
    ensures r.Some? ==> from <= r.value < |args| && EndsWith(args[r.value], d)
    ensures r.Some? ==> forall m :: from <= m < r.value ==> !EndsWith(args[m], d)
    ensures r.None? ==> forall m :: from <= m < |args| ==> !EndsWith(args[m], d)
    decreases |args| - from
  {
    if from >= |args| then None
    else if EndsWith(args[from], d) then Some(from)
    else CloseIndex(args, from + 1, d)
  }

  /** A span's tokens joined by single spaces; quotes are then cut off, backticks kept. */
  function MergeSpan(span: seq<string>, d: char): string
    requires |span| >= 2 && |span[0]| >= 1
  {
    var joined := Join(span, " ");
    if d == '`' then joined else joined[1..|joined| - 1]
  }

  function Prepend(done: seq<string>, rest: Option<seq<string>>): Option<seq<string>>
  {
    if rest.Some? then Some(done + rest.value) else None
  }

  lemma PrependPrepend(out: seq<string>, t: string, rest: Option<seq<string>>)
    ensures Prepend(out, Prepend([t], rest)) == Prepend(out + [t], rest)
  {
    if rest.Some? {
      assert out + ([t] + rest.value) == (out + [t]) + rest.value;
    }
  }

  /**
   * The grouped arguments: a token opening a span is replaced by the merge of
   * itself and the tokens up to the first LATER token ending in its
   * delimiter; None when no later token closes it.
   */
  function GroupSpans(args: seq<string>): Option<seq<string>>
    decreases |args|
  {
    if args == [] then Some([])
    else match Delimiter(args[0])
      case None => Prepend([args[0]], GroupSpans(args[1..]))
      case Some(d) =>
        match CloseIndex(args, 1, d)
        case None => None
        case Some(j) => Prepend([MergeSpan(args[..j + 1], d)], GroupSpans(args[j + 1..]))
  }

  /** No token absorbed into a span opens a span of its own. */
  predicate AbsorbedInert(args: seq<string>)
    decreases |args|
  {
    args == [] ||
    match Delimiter(args[0])
    case None => AbsorbedInert(args[1..])
    case Some(d) =>
      match CloseIndex(args, 1, d)
      case None => true
      case Some(j) => (forall m :: 1 <= m <= j ==> Delimiter(args[m]).None?) && AbsorbedInert(args[j + 1..])
  }

  /**
   * The inner loop of the grouping: starting from the token at `key`, which
   * opens a span delimited by d, absorb the following tokens up to the first
   * that ends in d. Yields the merged token and the index after the span, or
   * None where the source would read past the end of the array.
   */
  method AbsorbSpan(args: seq<string>, key: nat, d: char) returns (r: Option<(string, nat)>)
    requires key < |args| && Delimiter(args[key]) == Some(d)
    ensures r.None? <==> CloseIndex(args[key..], 1, d).None?
    ensures r.Some? ==> key + 2 <= r.value.1 <= |args|
    ensures r.Some? ==> CloseIndex(args[key..], 1, d) == Some(r.value.1 - 1 - key)
    ensures r.Some? ==> r.value.0 == MergeSpan(args[key..r.value.1], d)
  {
    ghost var s := args[key..];
    assert forall m :: 1 <= m < |s| ==> s[m] == args[key + m];
    var merged := args[key];
    var i := key + 1;
    var found := false;
    while !found
      invariant key + 1 <= i <= |args|
      invariant !found ==> merged == Join(args[key..i], " ")
      invariant !found ==> forall m :: key + 1 <= m < i ==> !EndsWith(args[m], d)
      invariant found ==> i >= key + 2 && EndsWith(args[i - 1], d)
      invariant found ==> forall m :: key + 1 <= m < i - 1 ==> !EndsWith(args[m], d)
      invariant found ==> merged == MergeSpan(args[key..i], d)
      decreases |args| - i
    {
      if i == |args| {
        // the source reads past the end of the array here and never stops
        assert CloseIndex(s, 1, d) == None;
        return None;
      }
      JoinAppend(args[key..i], [args[i]], " ");
      assert args[key..i + 1] == args[key..i] + [args[i]];
      merged := merged + " " + args[i];
      if EndsWith(args[i], d) {
        if d != '`' {
          merged := merged[1..|merged| - 1];
        }
        found := true;
      }
      i := i + 1;
    }
    assert EndsWith(s[i - 1 - key], d);
    assert CloseIndex(s, 1, d) == Some(i - 1 - key);
    r := Some((merged, i));
  }

  /** Grouping from a token that opens no span keeps that token and groups the rest. */
  lemma GroupStepPlain(args: seq<string>, key: nat)
    requires key < |args| && Delimiter(args[key]).None?
    ensures GroupSpans(args[key..]) == Prepend([args[key]], GroupSpans(args[key + 1..]))
  {
    assert args[key..][0] == args[key];
    assert args[key..][1..] == args[key + 1..];
  }

  /** Grouping from a token that opens a span closed at next - 1 keeps the merge and groups from next. */
  lemma GroupStepSpan(args: seq<string>, key: nat, d: char, merged: string, next: nat)
    requires key < |args| && Delimiter(args[key]) == Some(d)
    requires key + 2 <= next <= |args|
    requires CloseIndex(args[key..], 1, d) == Some(next - 1 - key)
    requires merged == MergeSpan(args[key..next], d)
    ensures GroupSpans(args[key..]) == Prepend([merged], GroupSpans(args[next..]))
  {
    var j := next - 1 - key;
    assert args[key..][0] == args[key];
    assert args[key..][..j + 1] == args[key..next];
    assert args[key..][j + 1..] == args[next..];
  }

  /** The grouping loop of the constructor, as a single cursor scan. */
  method GroupArguments(args: seq<string>) returns (r: Option<seq<string>>)
    ensures r == GroupSpans(args)
  {
    var out: seq<string> := [];
    var key := 0;
    assert args[key..] == args;
    assert GroupSpans(args).Some? ==> [] + GroupSpans(args).value == GroupSpans(args).value;
    while key < |args|
      invariant 0 <= key <= |args|
      invariant GroupSpans(args) == Prepend(out, GroupSpans(args[key..]))
      decreases |args| - key
    {
      var arg := args[key];
      if |arg| > 0 && (arg[0] == '"' || arg[0] == '\'' || arg[0] == '`') {
        var span := AbsorbSpan(args, key, arg[0]);
        if span.None? {
          assert GroupSpans(args[key..]) == None;
          return None;
        }
        var (merged, next) := span.value;
        GroupStepSpan(args, key, arg[0], merged, next);
        PrependPrepend(out, merged, GroupSpans(args[next..]));
        out := out + [merged];
        key := next;
      } else {
        GroupStepPlain(args, key);
        PrependPrepend(out, arg, GroupSpans(args[key + 1..]));
        out := out + [arg];
        key := key + 1;
      }
    }
    assert args[key..] == [];
    assert out + [] == out;
    r := Some(out);
  }

  /** The program and grouped arguments a constructor call yields, None for an unclosed span. */
  function Tokenize(inv: Invocation): Option<Command>
  {
    match GroupSpans(RawArguments(inv))
    case None => None
    case Some(args) => Some(Command(ProgramName(inv), args))
  }

  /** The constructor's tokenizing part (its first three branches and the grouping loop). */
  method TokenizeInvocation(inv: Invocation) returns (r: Option<Command>)
    ensures r == Tokenize(inv)
  {
    var program: string;
    var raw: seq<string>;
    match inv {
      case ArrayForm(items) =>
        program := if |items| > 0 then items[0] else "";
        raw := if |items| > 0 then items[1..] else [];
      case VariadicForm(first, second, more) =>
        program := if |first| > 0 then [first[0]] else "";
        raw := [second] + more;
      case StringForm(command) =>
        var pieces := ExplodeAndTrim(command);
        assert pieces == TrimAll(Split(command, ' '));
        program := pieces[0];
        raw := pieces[1..];
    }
    var grouped := GroupArguments(raw);
    r := if grouped.Some? then Some(Command(program, grouped.value)) else None;
  }

  /** Tokens that open no span pass through grouping unchanged. */
  lemma {:induction false} GroupPlain(args: seq<string>)
    requires forall k :: 0 <= k < |args| ==> Delimiter(args[k]).None?
    ensures GroupSpans(args) == Some(args)
    decreases |args|
  {
    if args != [] {
      GroupPlain(args[1..]);
      assert [args[0]] + args[1..] == args;
    }
  }

  /** Grouping never adds tokens; a non-empty list stays non-empty. */
  lemma {:induction false} GroupShrinks(args: seq<string>)
    requires GroupSpans(args).Some?
    ensures |GroupSpans(args).value| <= |args|
    ensures |GroupSpans(args).value| == 0 <==> |args| == 0
    decreases |args|
  {
    if args != [] {
      match Delimiter(args[0])
      case None => GroupShrinks(args[1..]);
      case Some(d) =>
        var j := CloseIndex(args, 1, d).value;
        GroupShrinks(args[j + 1..]);
    }
  }

  /**
   * When only backtick spans occur, grouping keeps every character: the
   * grouped arguments joined by spaces are the raw tokens joined by spaces.
   */
  lemma {:induction false} GroupBackticksKeepText(args: seq<string>)
    requires forall k :: 0 <= k < |args| ==> Delimiter(args[k]) != Some('"') && Delimiter(args[k]) != Some('\'')
    requires GroupSpans(args).Some?
    ensures Join(GroupSpans(args).value, " ") == Join(args, " ")
    decreases |args|
  {
    if args != [] {
      var out := GroupSpans(args).value;
      match Delimiter(args[0])
      case None =>
        var rest := GroupSpans(args[1..]).value;
        GroupBackticksKeepText(args[1..]);
        GroupShrinks(args[1..]);
        assert out == [args[0]] + rest;
        if |args| > 1 {
          JoinAppend([args[0]], rest, " ");
          JoinAppend([args[0]], args[1..], " ");
          assert [args[0]] + args[1..] == args;
        } else {
          assert rest == [];
        }
      case Some(d) =>
        assert d == '`';
        var j := CloseIndex(args, 1, d).value;
        var rest := GroupSpans(args[j + 1..]).value;
        assert out == [Join(args[..j + 1], " ")] + rest;
        GroupBackticksKeepText(args[j + 1..]);
        GroupShrinks(args[j + 1..]);
        assert args[..j + 1] + args[j + 1..] == args;
        if j + 1 < |args| {
          JoinAppend([Join(args[..j + 1], " ")], rest, " ");
          JoinAppend(args[..j + 1], args[j + 1..], " ");
        } else {
          assert rest == [];
          assert args[..j + 1] == args;
        }
    }
  }

  /** A closing token found inside pre is found at the same place in pre followed by anything. */
  lemma {:induction false} CloseIndexPrefix(pre: seq<string>, rest: seq<string>, from: nat, d: char)
    requires CloseIndex(pre, from, d).Some?
    ensures CloseIndex(pre + rest, from, d) == CloseIndex(pre, from, d)
    decreases |pre| - from
  {
    assert (pre + rest)[from] == pre[from];
    if !EndsWith(pre[from], d) {
      CloseIndexPrefix(pre, rest, from + 1, d);
    }
  }

  lemma PrependAssociative(a: seq<string>, b: seq<string>, rest: Option<seq<string>>)
    ensures Prepend(a, Prepend(b, rest)) == Prepend(a + b, rest)
  {
    if rest.Some? {
      assert a + (b + rest.value) == (a + b) + rest.value;
    }
  }

  /** Grouping a list that groups successfully, followed by more tokens, is grouping each part. */
  lemma {:induction false} GroupCompose(pre: seq<string>, rest: seq<string>)
    requires GroupSpans(pre).Some?
    ensures GroupSpans(pre + rest) == Prepend(GroupSpans(pre).value, GroupSpans(rest))
    decreases |pre|
  {
    if pre == [] {
      assert pre + rest == rest;
      if GroupSpans(rest).Some? {
        assert [] + GroupSpans(rest).value == GroupSpans(rest).value;
      }
    } else {
      assert (pre + rest)[0] == pre[0];
      match Delimiter(pre[0])
      case None =>
        assert (pre + rest)[1..] == pre[1..] + rest;
        GroupCompose(pre[1..], rest);
        PrependAssociative([pre[0]], GroupSpans(pre[1..]).value, GroupSpans(rest));
      case Some(d) =>
        var j := CloseIndex(pre, 1, d).value;
        CloseIndexPrefix(pre, rest, 1, d);
        assert (pre + rest)[..j + 1] == pre[..j + 1];
        assert (pre + rest)[j + 1..] == pre[j + 1..] + rest;
        GroupCompose(pre[j + 1..], rest);
        PrependAssociative([MergeSpan(pre[..j + 1], d)], GroupSpans(pre[j + 1..]).value, GroupSpans(rest));
    }
  }

  /**
   * A span that no later token closes makes the whole grouping fail, even
   * after spans that were closed: pre groups successfully, then t opens a
   * span delimited by d, and no token after t ends with d.
   */
  lemma GroupUnclosed(pre: seq<string>, t: string, post: seq<string>, d: char)
    requires GroupSpans(pre).Some?
    requires Delimiter(t) == Some(d)
    requires forall m :: 0 <= m < |post| ==> !EndsWith(post[m], d)
    ensures GroupSpans(pre + ([t] + post)) == None
  {
    var tail := [t] + post;
    assert forall m :: 1 <= m < |tail| ==> tail[m] == post[m - 1];
    assert CloseIndex(tail, 1, d) == None;
    GroupCompose(pre, tail);
  }

  /** The first token at or after from that ends with d is the one CloseIndex finds. */
  lemma {:induction false} CloseIndexAt(args: seq<string>, from: nat, d: char, j: nat)
    requires from <= j < |args| && EndsWith(args[j], d)
    requires forall m :: from <= m < j ==> !EndsWith(args[m], d)
    ensures CloseIndex(args, from, d) == Some(j)
    decreases j - from
  {
    if from < j {
      CloseIndexAt(args, from + 1, d, j);
    }
  }

  /** A prefix that groups, behind a plain first token, still groups. */
  lemma GroupsAfterPlain(args: seq<string>, i: nat)
    requires 0 < i <= |args| && Delimiter(args[0]).None?
    requires GroupSpans(args[1..][..i - 1]).Some?
    ensures GroupSpans(args[..i]).Some?
  {
    var pre := args[..i];
    assert pre[0] == args[0] && pre[1..] == args[1..][..i - 1];
  }

  /** A prefix that groups, behind a closed span, still groups. */
  lemma GroupsAfterSpan(args: seq<string>, d: char, j: nat, i: nat)
    requires |args| > 0 && Delimiter(args[0]) == Some(d) && CloseIndex(args, 1, d) == Some(j)
    requires j + 1 <= i <= |args|
    requires GroupSpans(args[j + 1..][..i - (j + 1)]).Some?
    ensures GroupSpans(args[..i]).Some?
  {
    var span := args[..j + 1];
    assert span[0] == args[0];
    CloseIndexAt(span, 1, d, j);
    assert span[..j + 1] == span && span[j + 1..] == [];
    assert GroupSpans(span).Some?;
    GroupCompose(span, args[j + 1..][..i - (j + 1)]);
    assert args[..i] == span + args[j + 1..][..i - (j + 1)];
  }

  /**
   * The converse of GroupUnclosed: grouping fails only at a span opener,
   * after a prefix that groups successfully, that no later token closes.
   */
  lemma {:induction false} GroupFailsOnlyUnclosed(args: seq<string>) returns (i: nat, d: char)
    requires GroupSpans(args) == None
    ensures i < |args| && GroupSpans(args[..i]).Some? && Delimiter(args[i]) == Some(d)
    ensures forall m :: i < m < |args| ==> !EndsWith(args[m], d)
    decreases |args|
  {
    match Delimiter(args[0])
    case None =>
      var i', d' := GroupFailsOnlyUnclosed(args[1..]);
      i, d := i' + 1, d';
      GroupsAfterPlain(args, i);
      assert forall m :: i < m < |args| ==> args[m] == args[1..][m - 1];
    case Some(d0) =>
      match CloseIndex(args, 1, d0)
      case None =>
        i, d := 0, d0;
        assert args[..0] == [];
      case Some(j) =>
        var i', d' := GroupFailsOnlyUnclosed(args[j + 1..]);
        i, d := j + 1 + i', d';
        GroupsAfterSpan(args, d0, j, i);
        assert forall m :: i < m < |args| ==> args[m] == args[j + 1..][m - (j + 1)];
  }

  /** Example: a closed quote span followed by an unclosed one fails. */
  lemma UnclosedAfterClosedExample()
    ensures GroupSpans(["a", "'b", "c'", "d", "\"e", "f"]) == None
  {
    QuotedArgumentExample();
    assert ["a", "'b", "c'", "d"] + (["\"e"] + ["f"]) == ["a", "'b", "c'", "d", "\"e", "f"];
    GroupUnclosed(["a", "'b", "c'", "d"], "\"e", ["f"], '"');
  }

  /** A command string without quotes or backticks after its first word is split at every space. */
  lemma TokenizePlainCommand(command: string)
    requires forall k :: 1 <= k < |Split(command, ' ')| ==> Delimiter(Trim(Split(command, ' ')[k])).None?
    ensures Tokenize(StringForm(command)).Some?
    ensures Tokenize(StringForm(command)).value.program == Trim(Split(command, ' ')[0])
    ensures Tokenize(StringForm(command)).value.arguments == TrimAll(Split(command, ' '))[1..]
  {
    GroupPlain(TrimAll(Split(command, ' '))[1..]);
  }

  /** The quoted argument of "prog a 'b c' d" comes out as one argument without its quotes. */
  lemma QuotedArgumentExample()
    ensures GroupSpans(["a", "'b", "c'", "d"]) == Some(["a", "b c", "d"])
  {
    var args := ["a", "'b", "c'", "d"];
    assert GroupSpans(["d"]) == Some(["d"]) by { GroupPlain(["d"]); }
    var span := args[1..];
    assert span == ["'b", "c'", "d"];
    assert Delimiter(span[0]) == Some('\'');
    assert CloseIndex(span, 1, '\'') == Some(1);
    assert span[..2] == ["'b", "c'"];
    assert Join(["'b", "c'"], " ") == "'b c'";
    assert MergeSpan(span[..2], '\'') == "b c";
    assert span[2..] == ["d"];
    assert GroupSpans(span) == Prepend(["b c"], GroupSpans(["d"]));
    assert ["b c"] + ["d"] == ["b c", "d"];
    assert Prepend(["b c"], GroupSpans(["d"])) == Some(["b c", "d"]);
    assert GroupSpans(span) == Some(["b c", "d"]);
    assert GroupSpans(args) == Prepend(["a"], GroupSpans(span));
    assert ["a"] + ["b c", "d"] == ["a", "b c", "d"];
    assert args[1..] == span;
  }

  /** new sProcess("prog a 'b c' d") runs prog with the arguments a, "b c" and d. */
  lemma StringFormExample()
    ensures Tokenize(StringForm("prog a 'b c' d")) == Some(Command("prog", ["a", "b c", "d"]))
  {
    var pieces := ["prog", "a", "'b", "c'", "d"];
    assert Join(pieces, " ") == "prog a 'b c' d" by {
      assert Join(pieces[3..], " ") == "c' d";
      assert Join(pieces[1..], " ") == "a 'b c' d";
    }
    SplitJoin(pieces, ' ');
    TrimAllUntrimmed(pieces);
    assert pieces[1..] == ["a", "'b", "c'", "d"];
    QuotedArgumentExample();
  }

  lemma TrimAllUntrimmed(pieces: seq<string>)
    requires pieces == ["prog", "a", "'b", "c'", "d"]
    ensures TrimAll(pieces) == pieces
  {
    TrimLetters(pieces[0]);
    TrimLetters(pieces[1]);
    TrimLetters(pieces[2]);
    TrimLetters(pieces[3]);
    TrimLetters(pieces[4]);
  }

  /** Trimming leaves a word of lower-case letters and single quotes as it is. */
  lemma TrimLetters(w: string)
    requires forall i :: 0 <= i < |w| ==> 'a' <= w[i] <= 'z' || w[i] == '\''
    ensures Trim(w) == w
  {
  }

  /** A quote that opens and closes in one token still absorbs the next token, up to one ending in the quote. */
  lemma SelfClosedQuoteAbsorbsNext()
    ensures GroupSpans(["\"abc\"", "x\""]) == Some(["abc\" x"])
  {
    var args := ["\"abc\"", "x\""];
    assert CloseIndex(args, 1, '"') == Some(1);
    assert args[..2] == args;
    assert Join(args, " ") == "\"abc\" x\"";
    assert MergeSpan(args[..2], '"') == "abc\" x";
    assert args[2..] == [];
    assert GroupSpans(args) == Prepend(["abc\" x"], GroupSpans([]));
    assert ["abc\" x"] + [] == ["abc\" x"];
  }

  /** ... and when no later token ends in the quote, the span never closes. */
  lemma SelfClosedQuoteUnclosed()
    ensures GroupSpans(["\"abc\""]) == None
    ensures GroupSpans(["\"abc\"", "d"]) == None
  {
    assert CloseIndex(["\"abc\""], 1, '"') == None;
    assert !EndsWith("d", '"');
    assert CloseIndex(["\"abc\"", "d"], 1, '"') == None;
  }

  /** The variadic form keeps only the first character of the program: new sProcess('app', '--help') runs 'a'. */
  lemma VariadicKeepsFirstCharacter()
    ensures Tokenize(VariadicForm("app", "--help", [])) == Some(Command("a", ["--help"]))
  {
    assert GroupSpans(["--help"]) == Some(["--help"]) by { GroupPlain(["--help"]); }
  }

  /**
   * The Windows guard for stripping ".exe": the name minus its last four
   * characters must be ".exe" (so the name starts with ".exe") and
   * strpos(name, ".exe") must be truthy, that is, found at a non-zero offset.
   */
  predicate ExeStripFires(program: string)
  {
    |program| >= 4 && program[..|program| - 4] == ".exe" &&
    IndexOf(program, ".exe").Some? && IndexOf(program, ".exe").value != 0
  }

  /** The guard can never hold, so the program name is never changed by it. */
  lemma ExeStripNeverFires(program: string)
    ensures !ExeStripFires(program)
  {
    if |program| >= 4 && program[..|program| - 4] == ".exe" {
      assert program[0..4] == ".exe";
      assert OccursAt(program, ".exe", 0);
      assert IndexOf(program, ".exe") == Some(0);
    }
  }
}
