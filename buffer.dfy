/**
 * Sutra\Component\Buffer\Buffer: one object that guards PHP's process-wide
 * stack of output buffers with two flags, `started` (its own buffer is open)
 * and `capturing` (a capture buffer is open on top).
 *
 * The output-buffer stack itself is modelled by OutputStack: the open
 * buffers, bottom first, and what has already gone out to the client. Only
 * the ob_* functions the class calls are modelled, without output handlers.
 */
module OutputBuffering {
  import opened Wrappers
  import opened Strings

  /** The output-buffer stack: open buffers (the last is the innermost) and the text already sent out. */
  datatype Output = Output(levels: seq<string>, sent: string)

  /** The concatenation of a list of strings, first to last. */
  function Concat(parts: seq<string>): string
    decreases |parts|
  {
    if parts == [] then "" else parts[0] + Concat(parts[1..])
  }

  lemma {:induction false} ConcatAppend(xs: seq<string>, ys: seq<string>)
    ensures Concat(xs + ys) == Concat(xs) + Concat(ys)
    decreases |xs|
  {
    if xs == [] {
      assert xs + ys == ys;
    } else {
      assert (xs + ys)[1..] == xs[1..] + ys;
      ConcatAppend(xs[1..], ys);
    }
  }

  /** Everything printed so far, in order: what was sent, then each open buffer from the outermost in. */
  function Emitted(o: Output): string
  {
    o.sent + Concat(o.levels)
  }

  /** The innermost buffer's contents. */
  function Top(o: Output): string
    requires o.levels != []
  {
    o.levels[|o.levels| - 1]
  }

  /** print/echo: text goes into the innermost buffer, or out if none is open. */
  function Printed(o: Output, text: string): Output
  {
    if o.levels == [] then Output([], o.sent + text)
    else Output(o.levels[..|o.levels| - 1] + [Top(o) + text], o.sent)
  }

  /** ob_start(): a new, empty innermost buffer. */
  function Pushed(o: Output): Output
  {
    Output(o.levels + [""], o.sent)
  }

  /** ob_clean(): the innermost buffer emptied. */
  function Cleaned(o: Output): Output
    requires o.levels != []
  {
    Output(o.levels[..|o.levels| - 1] + [""], o.sent)
  }

  /** ob_end_flush(): the innermost buffer closed, its contents passed to the buffer below or sent. */
  function Flushed(o: Output): Output
    requires o.levels != []
  {
    var rest := o.levels[..|o.levels| - 1];
    if rest == [] then Output([], o.sent + Top(o))
    else Output(rest[..|rest| - 1] + [rest[|rest| - 1] + Top(o)], o.sent)
  }

  /** ob_end_clean(): the innermost buffer closed and its contents discarded. */
  function Dropped(o: Output): Output
    requires o.levels != []
  {
    Output(o.levels[..|o.levels| - 1], o.sent)
  }

  /** PHP's truthiness of what ob_get_contents() returns: FALSE, "" and "0" are false. */
  predicate Truthy(contents: Option<string>)
  {
    contents.Some? && contents.value != "" && contents.value != "0"
  }

  /** The stack after stop(): flushed when its contents are truthy, otherwise discarded. */
  function Stopped(o: Output): Output
    requires o.levels != []
  {
    if Truthy(Some(Top(o))) then Flushed(o) else Dropped(o)
  }

  /** Printing appends the text to everything printed so far. */
  lemma PrintedAppends(o: Output, text: string)
    ensures Emitted(Printed(o, text)) == Emitted(o) + text
  {
    if o.levels != [] {
      var rest := o.levels[..|o.levels| - 1];
      assert o.levels == rest + [Top(o)];
      ConcatAppend(rest, [Top(o)]);
      ConcatAppend(rest, [Top(o) + text]);
    }
  }

  /** Opening a buffer loses nothing and adds nothing. */
  lemma PushedKeepsEmitted(o: Output)
    ensures Emitted(Pushed(o)) == Emitted(o)
  {
    ConcatAppend(o.levels, [""]);
  }

  /** Flushing moves text between buffers but loses none of it. */
  lemma FlushedKeepsEmitted(o: Output)
    requires o.levels != []
    ensures Emitted(Flushed(o)) == Emitted(o)
  {
    var rest := o.levels[..|o.levels| - 1];
    assert o.levels == rest + [Top(o)];
    ConcatAppend(rest, [Top(o)]);
    if rest != [] {
      var below := rest[..|rest| - 1];
      var last := rest[|rest| - 1];
      assert rest == below + [last];
      ConcatAppend(below, [last]);
      ConcatAppend(below, [last + Top(o)]);
    }
  }

  /** Discarding loses exactly the innermost buffer's contents, from the end. */
  lemma DroppedLosesTop(o: Output)
    requires o.levels != []
    ensures Emitted(Dropped(o)) + Top(o) == Emitted(o)
  {
    var rest := o.levels[..|o.levels| - 1];
    assert o.levels == rest + [Top(o)];
    ConcatAppend(rest, [Top(o)]);
  }

  /**
   * stop() loses output only when the buffer holds exactly "0": a buffer
   * whose contents are falsy is discarded, and "" carries nothing.
   */
  lemma StopLosesOnlyZero(o: Output)
    requires o.levels != []
    ensures Top(o) != "0" ==> Emitted(Stopped(o)) == Emitted(o)
    ensures Top(o) == "0" ==> Emitted(Stopped(o)) + "0" == Emitted(o)
  {
    if Truthy(Some(Top(o))) {
      FlushedKeepsEmitted(o);
    } else {
      DroppedLosesTop(o);
    }
  }

  /** A stop() that discards "0": the output is lost although the buffer held content. */
  lemma StopDiscardsZero()
    ensures Emitted(Stopped(Output(["0"], ""))) == ""
    ensures Emitted(Output(["0"], "")) == "0"
  {
    assert Stopped(Output(["0"], "")) == Output([], "");
  }

  /** stop() as its comment means it: flush whenever there is content, discard only an empty buffer. */
  function StoppedIntended(o: Output): Output
    requires o.levels != []
  {
    if Top(o) != "" then Flushed(o) else Dropped(o)
  }

  /** The intended stop() never loses output. */
  lemma StoppedIntendedKeepsEmitted(o: Output)
    requires o.levels != []
    ensures Emitted(StoppedIntended(o)) == Emitted(o)
  {
    if Top(o) != "" {
      FlushedKeepsEmitted(o);
    } else {
      DroppedLosesTop(o);
      assert Emitted(Dropped(o)) + "" == Emitted(Dropped(o));
    }
  }

  /** Capturing: a new buffer, some output, then ob_get_clean yields exactly that output and restores the stack. */
  lemma CaptureRoundTrip(o: Output, text: string)
    ensures Printed(Pushed(o), text).levels != []
    ensures Top(Printed(Pushed(o), text)) == text
    ensures Dropped(Printed(Pushed(o), text)) == o
  {
    var p := Pushed(o);
    assert p.levels[..|p.levels| - 1] == o.levels;
    assert "" + text == text;
  }

  /** replace(find, rep) as its two steps: empty the innermost buffer, then print the replaced text into it. */
  lemma ReplaceRewritesTop(o: Output, find: string, rep: string)
    requires o.levels != []
    ensures Printed(Cleaned(o), StrReplace(find, rep, Top(o)))
         == Output(o.levels[..|o.levels| - 1] + [StrReplace(find, rep, Top(o))], o.sent)
  {
    var c := Cleaned(o);
    assert c.levels[..|c.levels| - 1] == o.levels[..|o.levels| - 1];
    assert "" + StrReplace(find, rep, Top(o)) == StrReplace(find, rep, Top(o));
  }

  /** Replacing a string by itself leaves the innermost buffer as it was. */
  lemma ReplaceWithItselfKeepsTop(o: Output, find: string)
    requires o.levels != []
    ensures Printed(Cleaned(o), StrReplace(find, find, Top(o))) == o
  {
    ReplaceRewritesTop(o, find, find);
    StrReplaceSelf(find, Top(o));
    assert o.levels == o.levels[..|o.levels| - 1] + [Top(o)];
  }

  /** Replacing a string the innermost buffer does not contain leaves it as it was. */
  lemma ReplaceAbsentKeepsTop(o: Output, find: string, rep: string)
    requires o.levels != []
    requires forall i :: !OccursAt(Top(o), find, i)
    ensures Printed(Cleaned(o), StrReplace(find, rep, Top(o))) == o
  {
    ReplaceRewritesTop(o, find, rep);
    StrReplaceAbsent(find, rep, Top(o));
    assert o.levels == o.levels[..|o.levels| - 1] + [Top(o)];
  }

  /** PHP's output-buffer stack, shared by everything in the process. */
  class OutputStack {
    var levels: seq<string>
    var sent: string

    function State(): Output
      reads this
    {
      Output(levels, sent)
    }

    constructor ()
      ensures State() == Output([], "")
    {
      levels := [];
      sent := "";
    }

    /** print / echo. */
    method Print(text: string)
      modifies this
      ensures State() == Printed(old(State()), text)
    {
      if levels == [] {
        sent := sent + text;
      } else {
        levels := levels[..|levels| - 1] + [levels[|levels| - 1] + text];
      }
    }

    /** ob_start(). */
    method Start()
      modifies this
      ensures State() == Pushed(old(State()))
    {
      levels := levels + [""];
    }

    /** ob_get_contents(): the innermost buffer, FALSE (None) when none is open. */
    method GetContents() returns (contents: Option<string>)
      ensures levels == [] ==> contents == None
      ensures levels != [] ==> contents == Some(Top(State()))
    {
      if levels == [] {
        return None;
      }
      contents := Some(levels[|levels| - 1]);
    }

    /** ob_clean(). */
    method Clean()
      requires levels != []
      modifies this
      ensures State() == Cleaned(old(State()))
    {
      levels := levels[..|levels| - 1] + [""];
    }

    /** ob_end_flush(). */
    method EndFlush()
      requires levels != []
      modifies this
      ensures State() == Flushed(old(State()))
    {
      var top := levels[|levels| - 1];
      levels := levels[..|levels| - 1];
      if levels == [] {
        sent := sent + top;
      } else {
        levels := levels[..|levels| - 1] + [levels[|levels| - 1] + top];
      }
    }

    /** ob_end_clean(). */
    method EndClean()
      requires levels != []
      modifies this
      ensures State() == Dropped(old(State()))
    {
      levels := levels[..|levels| - 1];
    }

    /** ob_get_clean(): the innermost buffer's contents, and the buffer closed. */
    method GetClean() returns (contents: string)
      requires levels != []
      modifies this
      ensures contents == Top(old(State()))
      ensures State() == Dropped(old(State()))
    {
      contents := levels[|levels| - 1];
      levels := levels[..|levels| - 1];
    }
  }

  /** The exceptions Buffer throws. */
  datatype BufferError =
    | AlreadyStarted      // start() while started
    | NotStarted          // erase, get, replace, stop before start()
    | CaptureActive       // start, erase, get, replace, stop while capturing
    | AlreadyCapturing    // startCapture() while capturing
    | NotCapturing        // stopCapture() while not capturing
    | GzipUnavailable     // start(true) without the extension

  /**
   * The extension test in start(gzip), given the names of the loaded PHP
   * extensions: it asks for an extension named "gzip".
   */
  predicate GzipGuardPasses(gzip: bool, extensions: set<string>)
  {
    !gzip || "gzip" in extensions
  }

  /** The test start(gzip) is meant to make: ob_gzhandler comes with the zlib extension. */
  predicate IntendedGzipGuardPasses(gzip: bool, extensions: set<string>)
  {
    !gzip || "zlib" in extensions
  }

  /**
   * PHP has no extension named "gzip": with zlib loaded, and so ob_gzhandler
   * available, the written test still refuses start(true).
   */
  lemma GzipGuardRejectsZlib(extensions: set<string>)
    requires "zlib" in extensions && "gzip" !in extensions
    ensures !GzipGuardPasses(true, extensions)
    ensures IntendedGzipGuardPasses(true, extensions)
  {
  }

  /**
   * The intended test refuses exactly a gzip request without zlib, and agrees
   * with the written one on every request without gzip; the two disagree
   * exactly when gzip is asked for and only one of the two names is loaded.
   */
  lemma IntendedGzipGuardRefusesOnlyWithoutZlib(gzip: bool, extensions: set<string>)
    ensures !IntendedGzipGuardPasses(gzip, extensions) <==> gzip && "zlib" !in extensions
    ensures !gzip ==> IntendedGzipGuardPasses(gzip, extensions) && GzipGuardPasses(gzip, extensions)
    ensures IntendedGzipGuardPasses(gzip, extensions) != GzipGuardPasses(gzip, extensions)
        <==> gzip && (("zlib" in extensions) != ("gzip" in extensions))
  {
  }

  class Buffer {
    const ob: OutputStack
    var capturing: bool
    var started: bool

    /** Each open flag accounts for one buffer on the stack. */
    ghost predicate Valid()
      reads this, ob
    {
      |ob.levels| >= (if started then 1 else 0) + (if capturing then 1 else 0)
    }

    constructor (ob: OutputStack)
      ensures this.ob == ob && !started && !capturing
      ensures Valid()
    {
      this.ob := ob;
      capturing := false;
      started := false;
    }

    /** erase(): empty the buffer; needs it started and no capture. */
    method Erase() returns (r: Outcome<BufferError>)
      requires Valid()
      modifies ob
      ensures Valid()
      ensures !started ==> r == Fail(NotStarted) && ob.State() == old(ob.State())
      ensures started && capturing ==> r == Fail(CaptureActive) && ob.State() == old(ob.State())
      ensures started && !capturing ==> r == Pass && ob.State() == Cleaned(old(ob.State()))
    {
      if !started {
        return Fail(NotStarted);
      }
      if capturing {
        return Fail(CaptureActive);
      }
      ob.Clean();
      r := Pass;
    }

    /** get(): the buffer's contents; needs it started and no capture. */
    method Get() returns (r: Result<string, BufferError>)
      requires Valid()
      ensures !started ==> r == Failure(NotStarted)
      ensures started && capturing ==> r == Failure(CaptureActive)
      ensures started && !capturing ==> ob.levels != [] && r == Success(ob.levels[|ob.levels| - 1])
    {
      if !started {
        return Failure(NotStarted);
      }
      if capturing {
        return Failure(CaptureActive);
      }
      var contents := ob.GetContents();
      r := Success(contents.value);
    }

    /** isStarted(). */
    method IsStarted() returns (b: bool)
      ensures b <==> started
    {
      b := started;
    }

    /** replace(find, rep): the buffer rewritten by str_replace; needs it started and no capture. */
    method Replace(find: string, rep: string) returns (r: Outcome<BufferError>)
      requires Valid()
      modifies ob
      ensures Valid()
      ensures !started ==> r == Fail(NotStarted) && ob.State() == old(ob.State())
      ensures started && capturing ==> r == Fail(CaptureActive) && ob.State() == old(ob.State())
      ensures started && !capturing ==>
                r == Pass && old(ob.levels) != []
                && ob.levels == old(ob.levels)[..|old(ob.levels)| - 1] + [StrReplace(find, rep, Top(old(ob.State())))]
                && ob.sent == old(ob.sent)
    {
      if !started {
        return Fail(NotStarted);
      }
      if capturing {
        return Fail(CaptureActive);
      }
      var contents := ob.GetContents();
      ob.Clean();
      ob.Print(StrReplace(find, rep, contents.value));
      ReplaceRewritesTop(old(ob.State()), find, rep);
      r := Pass;
    }

    /**
     * start(gzip): open the buffer; refused when started, while capturing, or
     * when the extension test fails; extensions names the loaded extensions.
     */
    method Start(gzip: bool, extensions: set<string>) returns (r: Outcome<BufferError>)
      requires Valid()
      modifies this, ob
      ensures Valid()
      ensures capturing == old(capturing)
      ensures old(started) ==> r == Fail(AlreadyStarted) && started && ob.State() == old(ob.State())
      ensures !old(started) && capturing ==> r == Fail(CaptureActive) && !started && ob.State() == old(ob.State())
      ensures !old(started) && !capturing && !GzipGuardPasses(gzip, extensions) ==>
                r == Fail(GzipUnavailable) && !started && ob.State() == old(ob.State())
      ensures !old(started) && !capturing && GzipGuardPasses(gzip, extensions) ==>
                r == Pass && started && ob.State() == Pushed(old(ob.State()))
    {
      if started {
        return Fail(AlreadyStarted);
      }
      if capturing {
        return Fail(CaptureActive);
      }
      if gzip && "gzip" !in extensions {
        return Fail(GzipUnavailable);
      }
      ob.Start();
      started := true;
      r := Pass;
    }

    /** startCapture(): open a capture buffer on top; refused only while already capturing. */
    method StartCapture() returns (r: Outcome<BufferError>)
      requires Valid()
      modifies this, ob
      ensures Valid()
      ensures started == old(started)
      ensures old(capturing) ==> r == Fail(AlreadyCapturing) && capturing && ob.State() == old(ob.State())
      ensures !old(capturing) ==> r == Pass && capturing && ob.State() == Pushed(old(ob.State()))
    {
      if capturing {
        return Fail(AlreadyCapturing);
      }
      ob.Start();
      capturing := true;
      r := Pass;
    }

    /**
     * stop(): close the buffer, flushing its contents when they are truthy
     * and discarding them otherwise; needs it started and no capture.
     */
    method Stop() returns (r: Outcome<BufferError>)
      requires Valid()
      modifies this, ob
      ensures Valid()
      ensures capturing == old(capturing)
      ensures !old(started) ==> r == Fail(NotStarted) && !started && ob.State() == old(ob.State())
      ensures old(started) && capturing ==> r == Fail(CaptureActive) && started && ob.State() == old(ob.State())
      ensures old(started) && !capturing ==>
                r == Pass && !started && old(ob.levels) != [] && ob.State() == Stopped(old(ob.State()))
    {
      if !started {
        return Fail(NotStarted);
      }
      if capturing {
        return Fail(CaptureActive);
      }
      var contents := ob.GetContents();
      if Truthy(contents) {
        ob.EndFlush();
      } else {
        ob.EndClean();
      }
      started := false;
      r := Pass;
    }

    /** stopCapture(): close the capture buffer and return what it caught. */
    method StopCapture() returns (r: Result<string, BufferError>)
      requires Valid()
      modifies this, ob
      ensures Valid()
      ensures started == old(started)
      ensures !old(capturing) ==> r == Failure(NotCapturing) && !capturing && ob.State() == old(ob.State())
      ensures old(capturing) ==>
                !capturing && old(ob.levels) != []
                && r == Success(Top(old(ob.State()))) && ob.State() == Dropped(old(ob.State()))
    {
      if !capturing {
        return Failure(NotCapturing);
      }
      capturing := false;
      var contents := ob.GetClean();
      r := Success(contents);
    }
  }
}
