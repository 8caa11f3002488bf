/**
 * sProcess's search path: the class-wide cached PATH string (setPath,
 * getPath) and the binary lookup that scans it (exists).
 *
 * The cache is a static property shared by every process object; here it is
 * one PathCache object that callers share. The environment and the file
 * system are parameters: `env` is what getenv sees and `files` is the set of
 * paths is_file accepts.
 */
module SearchPath {
  import opened Wrappers
  import opened Strings
  import opened Commands

  /** getenv(name), with an unset variable read as the empty string. */
  function GetEnv(env: map<string, string>, name: string): string
  {
    if name in env then env[name] else ""
  }

  /** The variable the path is read from: Path on Windows, PATH elsewhere. */
  function PathVariable(os: OS): string
  {
    if os == Windows then "Path" else "PATH"
  }

  /** The text after the last sep of s (all of s when it has none): end(explode(sep, s)). */
  function LastPiece(s: string, sep: char): (r: string)
    ensures sep !in r
    ensures |r| <= |s| && s[|s| - |r|..] == r
    ensures |r| < |s| ==> s[|s| - |r| - 1] == sep
  {
    LastPieceIsSuffix(s, sep);
    Split(s, sep)[|Split(s, sep)| - 1]
  }

  /** The last piece of a split is a suffix of the string, preceded by the separator unless it is all of it. */
  lemma LastPieceIsSuffix(s: string, sep: char)
    ensures var parts := Split(s, sep);
            var l := parts[|parts| - 1];
            |l| <= |s| && s[|s| - |l|..] == l && (|l| < |s| ==> s[|s| - |l| - 1] == sep)
  {
    var parts := Split(s, sep);
    var l := parts[|parts| - 1];
    JoinSplit(s, sep);
    if |parts| > 1 {
      var init := parts[..|parts| - 1];
      assert parts == init + [l];
      JoinAppend(init, [l], [sep]);
      var front := Join(init, [sep]);
      assert s == front + [sep] + l;
      assert s[|s| - |l|..] == l;
      assert s[|s| - |l| - 1] == sep;
    }
  }

  /** The last piece after a separator that does not occur in the tail is that tail. */
  lemma LastPieceAfter(dir: string, base: string, sep: char)
    requires sep !in base
    ensures LastPiece(dir + [sep] + base, sep) == base
  {
    SplitAtSeparator(dir, base, sep);
    SplitNoSeparator(base, sep);
  }

  /** A string without the separator is its own last piece. */
  lemma LastPieceWhole(s: string, sep: char)
    requires sep !in s
    ensures LastPiece(s, sep) == s
  {
    SplitNoSeparator(s, sep);
  }

  /**
   * The file name exists() looks for: the last '/'-segment of the name, with
   * ".exe" appended on Windows unless it already mentions ".exe".
   */
  function BinaryName(name: string, os: OS): (r: string)
    ensures '/' !in r
    ensures os == Windows ==> Contains(r, ".exe")
    ensures os == Windows && Contains(LastPiece(name, '/'), ".exe") ==> r == LastPiece(name, '/')
    ensures os == Windows && !Contains(LastPiece(name, '/'), ".exe") ==> r == LastPiece(name, '/') + ".exe"
    ensures os != Windows ==> r == LastPiece(name, '/')
  {
    var base := LastPiece(name, '/');
    if os == Windows && !Contains(base, ".exe") then
      ContainsSuffix(base, ".exe");
      base + ".exe"
    else base
  }

  /** Some entry of the path holds a file named bin. */
  predicate FoundIn(entries: seq<string>, bin: string, files: set<string>)
  {
    exists k :: 0 <= k < |entries| && entries[k] + "/" + bin in files
  }

  /** exists(name) against a cached path: some ':'-separated entry holds the binary. */
  predicate OnPath(path: string, name: string, os: OS, files: set<string>)
  {
    FoundIn(Split(path, ':'), BinaryName(name, os), files)
  }

  /** The cached path after setPath(requested) when `current` was cached before (None: nothing yet). */
  function NextPath(current: Option<string>, requested: Option<string>, os: OS, env: map<string, string>): string
  {
    if current.None? then GetEnv(env, PathVariable(os))
    else if requested.None? then current.value
    else if os == Windows && Contains(requested.value, ":") then StrReplace(":", ";", requested.value)
    else requested.value
  }

  /** The foreach of exists(): the first entry holding the binary ends the scan. */
  method ScanPaths(entries: seq<string>, bin: string, files: set<string>) returns (found: bool)
    ensures found <==> FoundIn(entries, bin, files)
  {
    var i := 0;
    while i < |entries|
      invariant 0 <= i <= |entries|
      invariant forall k :: 0 <= k < i ==> entries[k] + "/" + bin !in files
    {
      if entries[i] + "/" + bin in files {
        return true;
      }
      i := i + 1;
    }
    return false;
  }

  /** getPath()'s two shapes: the cached string, or its ':'-separated entries. */
  datatype PathView = Joined(text: string) | Entries(entries: seq<string>)

  /** The static $path of sProcess. */
  class PathCache {
    const os: OS
    var path: Option<string>

    constructor (os: OS)
      ensures this.os == os && path == None
    {
      this.os := os;
      path := None;
    }

    /**
     * setPath(requested): the first call caches the environment's path and
     * ignores its argument; later calls replace the cache with a given
     * argument (':' turned into ';' on Windows) and keep it otherwise.
     */
    method SetPath(requested: Option<string>, env: map<string, string>)
      modifies this
      ensures path == Some(NextPath(old(path), requested, os, env))
    {
      if path.None? {
        if os == Windows {
          path := Some(GetEnv(env, "Path"));
        } else {
          path := Some(GetEnv(env, "PATH"));
        }
      } else if requested.Some? {
        var p := requested.value;
        if os == Windows && IndexOf(p, ":").Some? {
          p := StrReplace(":", ";", p);
        }
        path := Some(p);
      }
    }

    /** getPath(asArray): fills the cache if it is empty, then returns it whole or split at ':'. */
    method GetPath(asArray: bool, env: map<string, string>) returns (view: PathView)
      modifies this
      ensures path == Some(NextPath(old(path), None, os, env))
      ensures old(path).Some? ==> path == old(path)
      ensures asArray ==> view == Entries(Split(path.value, ':'))
      ensures !asArray ==> view == Joined(path.value)
    {
      SetPath(None, env);
      if asArray {
        view := Entries(Split(path.value, ':'));
      } else {
        view := Joined(path.value);
      }
    }

    /** exists(name): fills the cache if it is empty, then scans its entries for the binary. */
    method Exists(name: string, env: map<string, string>, files: set<string>) returns (found: bool)
      modifies this
      ensures path == Some(NextPath(old(path), None, os, env))
      ensures old(path).Some? ==> path == old(path)
      ensures found <==> OnPath(path.value, name, os, files)
    {
      var test := Split(name, '/');
      var binName := test[|test| - 1];
      assert binName == LastPiece(name, '/');
      if os == Windows && IndexOf(binName, ".exe").None? {
        binName := binName + ".exe";
      }
      assert binName == BinaryName(name, os);
      SetPath(None, env);
      var paths := Split(path.value, ':');
      found := ScanPaths(paths, binName, files);
      assert OnPath(path.value, name, os, files) <==> FoundIn(paths, binName, files);
    }
  }

  /** The first setPath call does not depend on its argument. */
  lemma SetPathFirstCallIgnoresArgument(p: Option<string>, q: Option<string>, os: OS, env: map<string, string>)
    ensures NextPath(None, p, os, env) == NextPath(None, q, os, env)
    ensures NextPath(None, p, os, env) == GetEnv(env, PathVariable(os))
  {
  }

  /** Once a path is cached, setPath() with no argument (as getPath and exists call it) keeps it. */
  lemma CachedPathIsStable(current: string, os: OS, env: map<string, string>)
    ensures NextPath(Some(current), None, os, env) == current
  {
  }

  /** Replacing every c by a string without c leaves no c behind. */
  lemma {:induction false} StrReplaceRemoves(c: char, rep: string, s: string)
    requires c !in rep
    ensures c !in StrReplace([c], rep, s)
    decreases |s|
  {
    if |s| >= 1 {
      if s[..1] == [c] {
        StrReplaceRemoves(c, rep, s[1..]);
      } else {
        StrReplaceRemoves(c, rep, s[1..]);
        assert s[0] != c;
      }
    }
  }

  /** A path set explicitly on Windows is stored with no ':' left in it; elsewhere it is stored as given. */
  lemma ExplicitPathStored(current: string, p: string, os: OS, env: map<string, string>)
    ensures os == Windows ==> ':' !in NextPath(Some(current), Some(p), os, env)
    ensures os != Windows ==> NextPath(Some(current), Some(p), os, env) == p
  {
    if os == Windows {
      if Contains(p, ":") {
        StrReplaceRemoves(':', ";", p);
      } else {
        forall i | 0 <= i < |p| ensures p[i] != ':' {
          assert !OccursAt(p, ":", i);
          assert p[i..i + 1] == [p[i]];
        }
      }
    }
  }

  /** The directories in front of a name do not change the binary looked for. */
  lemma BinaryNameIgnoresDirectories(dir: string, base: string, os: OS)
    requires '/' !in base
    ensures BinaryName(dir + "/" + base, os) == BinaryName(base, os)
  {
    LastPieceAfter(dir, base, '/');
    LastPieceWhole(base, '/');
  }

  /**
   * Backslash-separated directories are kept: the split at '\\' is computed
   * but never used, so a Windows-style path is looked for whole.
   */
  lemma BinaryNameKeepsBackslashDirectories(dir: string, base: string)
    requires '/' !in dir && '/' !in base
    ensures BinaryName(dir + "\\" + base, Linux) == dir + "\\" + base
  {
    assert '/' !in dir + "\\" + base;
    LastPieceWhole(dir + "\\" + base, '/');
  }

  /** The binary name with directories written with either separator removed, as the unused split at '\\' suggests. */
  function IntendedBinaryName(name: string, os: OS): (r: string)
    ensures '/' !in r && '\\' !in r
    ensures os == Windows ==> Contains(r, ".exe")
  {
    var base := IntendedBase(name);
    if os == Windows && !Contains(base, ".exe") then
      ContainsSuffix(base, ".exe");
      AppendAvoids(base, ".exe");
      base + ".exe"
    else base
  }

  /** The text after the last '/' or '\\' of name. */
  function IntendedBase(name: string): (r: string)
    ensures '/' !in r && '\\' !in r
  {
    var slashFree := LastPiece(name, '/');
    var base := LastPiece(slashFree, '\\');
    SuffixAvoids(slashFree, base, '/');
    base
  }

  /** A suffix has no character its string lacks. */
  lemma SuffixAvoids(s: string, r: string, c: char)
    requires c !in s && |r| <= |s| && s[|s| - |r|..] == r
    ensures c !in r
  {
  }

  lemma AppendAvoids(base: string, ext: string)
    requires '/' !in base && '\\' !in base && ext == ".exe"
    ensures '/' !in base + ext && '\\' !in base + ext
  {
  }

  /** With the intended split, directories before the name are ignored whichever separator they use. */
  lemma IntendedBinaryNameIgnoresDirectories(dir: string, base: string, os: OS)
    requires '/' !in base && '\\' !in base
    ensures IntendedBinaryName(dir + "/" + base, os) == IntendedBinaryName(base, os)
    ensures '/' !in dir ==> IntendedBinaryName(dir + "\\" + base, os) == IntendedBinaryName(base, os)
  {
    IntendedBaseOfPath(dir, base);
    SameBaseSameName(dir + "/" + base, base, os);
    if '/' !in dir {
      SameBaseSameName(dir + "\\" + base, base, os);
    }
  }

  /** The intended binary name depends on the name only through its base. */
  lemma SameBaseSameName(a: string, b: string, os: OS)
    requires IntendedBase(a) == IntendedBase(b)
    ensures IntendedBinaryName(a, os) == IntendedBinaryName(b, os)
  {
  }

  lemma IntendedBaseOfPath(dir: string, base: string)
    requires '/' !in base && '\\' !in base
    ensures IntendedBase(base) == base
    ensures IntendedBase(dir + "/" + base) == base
    ensures '/' !in dir ==> IntendedBase(dir + "\\" + base) == base
  {
    LastPieceWhole(base, '/');
    LastPieceWhole(base, '\\');
    LastPieceAfter(dir, base, '/');
    if '/' !in dir {
      assert '/' !in dir + "\\" + base;
      LastPieceWhole(dir + "\\" + base, '/');
      LastPieceAfter(dir, base, '\\');
    }
  }

  /** On Windows, naming the binary with or without ".exe" finds the same file. */
  lemma BinaryNameExeOptional(base: string)
    requires '/' !in base && !Contains(base, ".exe")
    ensures BinaryName(base + ".exe", Windows) == BinaryName(base, Windows)
  {
    SplitNoSeparator(base, '/');
    assert '/' !in base + ".exe";
    SplitNoSeparator(base + ".exe", '/');
    ContainsSuffix(base, ".exe");
  }

  /** A binary present in one entry of the path is found, whatever the other entries hold. */
  lemma FoundInAnyEntry(before: string, entry: string, after: string, bin: string, files: set<string>)
    requires ':' !in entry
    requires entry + "/" + bin in files
    ensures FoundIn(Split(before + ":" + entry + ":" + after, ':'), bin, files)
  {
    var whole := before + ":" + entry + ":" + after;
    assert whole == before + [':'] + (entry + [':'] + after);
    SplitAtSeparator(before, entry + [':'] + after, ':');
    SplitAtSeparator(entry, after, ':');
    SplitNoSeparator(entry, ':');
    var entries := Split(whole, ':');
    assert entries == Split(before, ':') + ([entry] + Split(after, ':'));
    assert entries[|Split(before, ':')|] == entry;
  }
}
