/**
 * The PHP string primitives the core relies on: explode, implode, trim,
 * strpos, substr(s, -1) and str_replace, each on plain strings.
 */
module Strings {
  import opened Wrappers

  /** explode(sep, s) for a one-character separator: the pieces between separators. */
  function Split(s: string, sep: char): (parts: seq<string>)
    ensures |parts| >= 1
    ensures forall k :: 0 <= k < |parts| ==> sep !in parts[k]
    decreases |s|
  {
    if s == [] then [""]
    else
      var rest := Split(s[1..], sep);
      if s[0] == sep then [""] + rest
      else [[s[0]] + rest[0]] + rest[1..]
  }

  /** implode(sep, parts). */
  function Join(parts: seq<string>, sep: string): string
    decreases |parts|
  {
    if parts == [] then ""
    else if |parts| == 1 then parts[0]
    else parts[0] + sep + Join(parts[1..], sep)
  }

  /** Joining two non-empty lists puts exactly one separator between them. */
  lemma {:induction false} JoinAppend(xs: seq<string>, ys: seq<string>, sep: string)
    requires xs != [] && ys != []
    ensures Join(xs + ys, sep) == Join(xs, sep) + sep + Join(ys, sep)
    decreases |xs|
  {
    if |xs| == 1 {
      assert (xs + ys)[1..] == ys;
    } else {
      assert (xs + ys)[1..] == xs[1..] + ys;
      JoinAppend(xs[1..], ys, sep);
    }
  }

  /** Appending a possibly empty list to a non-empty one. */
  lemma JoinExtend(xs: seq<string>, ys: seq<string>, sep: string)
    requires xs != []
    ensures Join(xs + ys, sep) == Join(xs, sep) + (if ys == [] then "" else sep + Join(ys, sep))
  {
    if ys == [] {
      assert xs + ys == xs;
    } else {
      JoinAppend(xs, ys, sep);
    }
  }

  /** A separator-free prefix glues onto the first piece of what follows it. */
  lemma {:induction false} SplitPrefix(w: string, tail: string, sep: char)
    requires sep !in w
    ensures Split(w + tail, sep) == [w + Split(tail, sep)[0]] + Split(tail, sep)[1..]
    decreases |w|
  {
    if w == [] {
      var parts := Split(tail, sep);
      assert w + tail == tail;
      assert w + parts[0] == parts[0];
      assert [w + parts[0]] + parts[1..] == parts;
    } else {
      assert (w + tail)[1..] == w[1..] + tail;
      SplitPrefix(w[1..], tail, sep);
      assert [w[0]] + (w[1..] + Split(tail, sep)[0]) == w + Split(tail, sep)[0];
    }
  }

  /** Splitting at a separator splits each side separately. */
  lemma {:induction false} SplitAtSeparator(a: string, b: string, sep: char)
    ensures Split(a + [sep] + b, sep) == Split(a, sep) + Split(b, sep)
    decreases |a|
  {
    if a == [] {
      assert a + [sep] + b == [sep] + b;
      assert ([sep] + b)[1..] == b;
    } else {
      assert (a + [sep] + b)[1..] == a[1..] + [sep] + b;
      SplitAtSeparator(a[1..], b, sep);
      if a[0] != sep {
        var left := Split(a[1..], sep);
        assert (left + Split(b, sep))[0] == left[0];
        assert (left + Split(b, sep))[1..] == left[1..] + Split(b, sep);
      }
    }
  }

  /** A separator-free string is a single piece. */
  lemma SplitNoSeparator(w: string, sep: char)
    requires sep !in w
    ensures Split(w, sep) == [w]
  {
    SplitJoin([w], sep);
  }

  /** explode undoes implode when no piece contains the separator. */
  lemma {:induction false} SplitJoin(parts: seq<string>, sep: char)
    requires |parts| >= 1
    requires forall k :: 0 <= k < |parts| ==> sep !in parts[k]
    ensures Split(Join(parts, [sep]), sep) == parts
    decreases |parts|
  {
    if |parts| == 1 {
      SplitPrefix(parts[0], "", sep);
      assert parts[0] + "" == parts[0];
    } else {
      var rest := Join(parts[1..], [sep]);
      assert Join(parts, [sep]) == parts[0] + ([sep] + rest);
      SplitPrefix(parts[0], [sep] + rest, sep);
      assert ([sep] + rest)[1..] == rest;
      assert Split([sep] + rest, sep) == [""] + Split(rest, sep);
      SplitJoin(parts[1..], sep);
      assert parts[0] + "" == parts[0];
      assert parts == [parts[0]] + parts[1..];
    }
  }

  /** implode undoes explode: splitting never loses a character. */
  lemma {:induction false} JoinSplit(s: string, sep: char)
    ensures Join(Split(s, sep), [sep]) == s
    decreases |s|
  {
    if s != [] {
      JoinSplit(s[1..], sep);
      var rest := Split(s[1..], sep);
      if s[0] != sep && |rest| > 1 {
        assert Join(rest, [sep]) == rest[0] + [sep] + Join(rest[1..], [sep]);
      }
    }
  }

  /** The characters PHP's trim() strips by default: space, tab, LF, CR, NUL and vertical tab. */
  predicate IsTrimmable(c: char)
  {
    c == ' ' || c == '\t' || c == '\n' || c == '\r' || c as int == 0 || c as int == 11
  }

  /** The number of trimmable characters at the start of s. */
  function LeadingTrimmable(s: string): (n: nat)
    ensures n <= |s|
    ensures forall k :: 0 <= k < n ==> IsTrimmable(s[k])
    ensures n < |s| ==> !IsTrimmable(s[n])
    decreases |s|
  {
    if s != [] && IsTrimmable(s[0]) then 1 + LeadingTrimmable(s[1..]) else 0
  }

  /** The number of trimmable characters at the end of s. */
  function TrailingTrimmable(s: string): (n: nat)
    ensures n <= |s|
    ensures forall k :: |s| - n <= k < |s| ==> IsTrimmable(s[k])
    ensures n < |s| ==> !IsTrimmable(s[|s| - n - 1])
    decreases |s|
  {
    if s != [] && IsTrimmable(s[|s| - 1]) then 1 + TrailingTrimmable(s[..|s| - 1]) else 0
  }

  /** trim(s): s without its leading and trailing trimmable characters. */
  function Trim(s: string): (r: string)
    ensures |r| <= |s|
    ensures r == [] || (!IsTrimmable(r[0]) && !IsTrimmable(r[|r| - 1]))
    ensures (forall k :: 0 <= k < |s| ==> !IsTrimmable(s[k])) ==> r == s
  {
    var t := s[LeadingTrimmable(s)..];
    t[..|t| - TrailingTrimmable(t)]
  }

  /** Trimming twice is trimming once. */
  lemma TrimIdempotent(s: string)
    ensures Trim(Trim(s)) == Trim(s)
  {
    var r := Trim(s);
    assert LeadingTrimmable(r) == 0;
    assert r[0..] == r;
    assert TrailingTrimmable(r) == 0;
    assert r[..|r|] == r;
  }

  /** substr(s, -1) === c: the last character of s is c. */
  predicate EndsWith(s: string, c: char)
  {
    |s| > 0 && s[|s| - 1] == c
  }

  /** pat occurs in s at offset i. */
  predicate OccursAt(s: string, pat: string, i: nat)
  {
    i + |pat| <= |s| && s[i..i + |pat|] == pat
  }

  /** strpos(s, pat, from): the first offset at or after `from` where pat occurs. */
  function IndexOfFrom(s: string, pat: string, from: nat): (r: Option<nat>)
    ensures r.Some? ==> from <= r.value && OccursAt(s, pat, r.value)
    ensures r.Some? ==> forall i :: from <= i < r.value ==> !OccursAt(s, pat, i)
    ensures r.None? ==> forall i :: from <= i ==> !OccursAt(s, pat, i)
    decreases |s| - from
  {
    if from + |pat| > |s| then None
    else if OccursAt(s, pat, from) then Some(from)
    else IndexOfFrom(s, pat, from + 1)
  }

  /** strpos(s, pat): the first offset where pat occurs, None for PHP's FALSE. */
  function IndexOf(s: string, pat: string): Option<nat>
  {
    IndexOfFrom(s, pat, 0)
  }

  /** strpos(s, pat) !== FALSE. */
  predicate Contains(s: string, pat: string)
  {
    IndexOf(s, pat).Some?
  }

  /** A string that ends with pat contains it. */
  lemma ContainsSuffix(s: string, pat: string)
    ensures Contains(s + pat, pat)
  {
    assert (s + pat)[|s|..|s| + |pat|] == pat;
    assert OccursAt(s + pat, pat, |s|);
  }

  /** str_replace(find, rep, s): every non-overlapping occurrence of find, scanned left to right, replaced by rep. */
  function StrReplace(find: string, rep: string, s: string): string
    decreases |s|
  {
    if find == [] || |s| < |find| then s
    else if s[..|find|] == find then rep + StrReplace(find, rep, s[|find|..])
    else [s[0]] + StrReplace(find, rep, s[1..])
  }

  /** Replacing a string by itself changes nothing. */
  lemma {:induction false} StrReplaceSelf(find: string, s: string)
    ensures StrReplace(find, find, s) == s
    decreases |s|
  {
    if find == [] || |s| < |find| {
    } else if s[..|find|] == find {
      StrReplaceSelf(find, s[|find|..]);
      assert s[..|find|] + s[|find|..] == s;
    } else {
      StrReplaceSelf(find, s[1..]);
      assert [s[0]] + s[1..] == s;
    }
  }

  /** A subject in which find never occurs comes back unchanged. */
  lemma {:induction false} StrReplaceAbsent(find: string, rep: string, s: string)
    requires forall i :: !OccursAt(s, find, i)
    ensures StrReplace(find, rep, s) == s
    decreases |s|
  {
    if find == [] || |s| < |find| {
    } else {
      assert !OccursAt(s, find, 0);
      assert s[0..|find|] == s[..|find|];
      forall i: nat ensures !OccursAt(s[1..], find, i) {
        assert !OccursAt(s, find, i + 1);
        if i + |find| <= |s[1..]| {
          assert s[1..][i..i + |find|] == s[i + 1..i + 1 + |find|];
        }
      }
      StrReplaceAbsent(find, rep, s[1..]);
      assert [s[0]] + s[1..] == s;
    }
  }
}
