/**
 * Python's `str.split(sep)` and `str.find(sep)` for a non-empty separator,
 * and `sep.join(parts)`, as used by the message parser in ima/app.py.
 */
module Text {

  import opened Wrappers

  /** `sep` starts at index `i` of `s`. */
  predicate OccursAt(s: string, sep: string, i: int)
  {
    0 <= i && i + |sep| <= |s| && s[i..i + |sep|] == sep
  }

  /** `sep in s` for a non-empty separator. */
  predicate Contains(s: string, sep: string)
  {
    exists i :: 0 <= i <= |s| && OccursAt(s, sep, i)
  }

  /**
   * A separator whose first character occurs nowhere else in it: two
   * occurrences can never overlap, so one cannot straddle a boundary that
   * another occurrence starts at. Both `", "` and `": "` are of this kind.
   */
  predicate Unbordered(sep: string)
  {
    |sep| > 0 && forall k :: 0 < k < |sep| ==> sep[k] != sep[0]
  }

  /**
   * `s.find(sep, from)`: the first index at or after `from` where `sep`
   * occurs, scanning left to right.
   */
  function FindFrom(s: string, sep: string, from: nat): (r: Option<nat>)
    requires |sep| > 0
    ensures r.Some? ==> from <= r.value && OccursAt(s, sep, r.value)
    ensures r.Some? ==> forall j :: from <= j < r.value ==> !OccursAt(s, sep, j)
    ensures r.None? ==> forall j :: from <= j ==> !OccursAt(s, sep, j)
    decreases |s| - from
  {
    if from + |sep| > |s| then None
    else if s[from..from + |sep|] == sep then Some(from)
    else FindFrom(s, sep, from + 1)
  }

  /** `s.find(sep)`, with `None` for Python's -1. */
  function Find(s: string, sep: string): (r: Option<nat>)
    requires |sep| > 0
    ensures r.None? <==> !Contains(s, sep)
    ensures r.Some? ==> OccursAt(s, sep, r.value) && forall j :: 0 <= j < r.value ==> !OccursAt(s, sep, j)
  {
    FindFrom(s, sep, 0)
  }

  /**
   * `s.split(sep)`: scanning left to right, every non-overlapping occurrence
   * of `sep` ends one part and starts the next. The first part is always a
   * prefix of `s`.
   */
  function Split(s: string, sep: string): (parts: seq<string>)
    requires |sep| > 0
    ensures |parts| >= 1 && parts[0] <= s
    decreases |s|
  {
    if |s| < |sep| then [s]
    else if s[..|sep|] == sep then [""] + Split(s[|sep|..], sep)
    else
      var rest := Split(s[1..], sep);
      [[s[0]] + rest[0]] + rest[1..]
  }

  /** `sep.join(parts)`. */
  function Join(parts: seq<string>, sep: string): string
  {
    if |parts| == 0 then ""
    else if |parts| == 1 then parts[0]
    else parts[0] + sep + Join(parts[1..], sep)
  }

  /** Without an occurrence of `sep`, splitting yields the whole string. */
  lemma {:induction false} SplitWithout(s: string, sep: string)
    requires |sep| > 0 && !Contains(s, sep)
    ensures Split(s, sep) == [s]
    decreases |s|
  {
    if |s| >= |sep| {
      assert !OccursAt(s, sep, 0);
      assert s[..|sep|] != sep;
      forall i | 0 <= i <= |s| - 1 ensures !OccursAt(s[1..], sep, i) {
        assert !OccursAt(s, sep, i + 1);
        if i + |sep| <= |s| - 1 {
          assert s[1..][i..i + |sep|] == s[i + 1..i + 1 + |sep|];
        }
      }
      SplitWithout(s[1..], sep);
      assert [s[0]] + s[1..] == s;
    }
  }

  /**
   * Splitting at the first occurrence: the first part is the text before it,
   * and the remaining parts are the split of the text after it.
   */
  lemma {:induction false} SplitAtFirst(s: string, sep: string, i: nat)
    requires |sep| > 0 && OccursAt(s, sep, i)
    requires forall j :: 0 <= j < i ==> !OccursAt(s, sep, j)
    ensures Split(s, sep) == [s[..i]] + Split(s[i + |sep|..], sep)
    decreases i
  {
    if i == 0 {
      SplitAtStart(s, sep);
    } else {
      var t, k := s[1..], i - 1;
      FirstOccurrenceShifts(s, sep, i);
      SplitAtFirst(t, sep, k);
      SplitAtFirstStep(s, t, sep, i, k);
    }
  }

  /** A separator at the start gives an empty first part. */
  lemma SplitAtStart(s: string, sep: string)
    requires |sep| > 0 && OccursAt(s, sep, 0)
    ensures Split(s, sep) == [s[..0]] + Split(s[|sep|..], sep)
  {
    assert s[..|sep|] == sep && s[..0] == "";
  }

  /** Dropping the first character moves the first occurrence one place left. */
  lemma FirstOccurrenceShifts(s: string, sep: string, i: nat)
    requires |sep| > 0 && 0 < i && OccursAt(s, sep, i)
    requires forall j :: 0 <= j < i ==> !OccursAt(s, sep, j)
    ensures !OccursAt(s, sep, 0) && OccursAt(s[1..], sep, i - 1)
    ensures forall j :: 0 <= j < i - 1 ==> !OccursAt(s[1..], sep, j)
  {
    var t := s[1..];
    assert t[i - 1..i - 1 + |sep|] == s[i..i + |sep|];
    forall j | 0 <= j < i - 1 ensures !OccursAt(t, sep, j) {
      assert t[j..j + |sep|] == s[j + 1..j + 1 + |sep|];
      assert !OccursAt(s, sep, j + 1);
    }
  }

  /** SplitAtFirst for `s` from SplitAtFirst for `s[1..]`. */
  lemma SplitAtFirstStep(s: string, t: string, sep: string, i: nat, k: nat)
    requires |sep| > 0 && i == k + 1 && i + |sep| <= |s| && !OccursAt(s, sep, 0) && t == s[1..]
    requires Split(t, sep) == [t[..k]] + Split(t[k + |sep|..], sep)
    ensures Split(s, sep) == [s[..i]] + Split(s[i + |sep|..], sep)
  {
    SplitSkipsChar(s, sep);
    var rest, after := Split(t, sep), Split(s[i + |sep|..], sep);
    assert t[k + |sep|..] == s[i + |sep|..];
    assert rest[0] == t[..k] && rest[1..] == after;
    assert [s[0]] + t[..k] == s[..i];
  }

  /** Where the separator does not start the string, its first character joins the first part. */
  lemma SplitSkipsChar(s: string, sep: string)
    requires |sep| > 0 && |s| >= |sep| && !OccursAt(s, sep, 0)
    ensures var rest := Split(s[1..], sep);
      Split(s, sep) == [[s[0]] + rest[0]] + rest[1..]
  {
  }

  /** Joining the parts of a split gives back the original string. */
  lemma {:induction false} JoinSplit(s: string, sep: string)
    requires |sep| > 0
    ensures Join(Split(s, sep), sep) == s
    decreases |s|
  {
    match Find(s, sep)
    case None =>
      SplitWithout(s, sep);
    case Some(i) =>
      SplitAtFirst(s, sep, i);
      var rest := s[i + |sep|..];
      JoinSplit(rest, sep);
      assert s[i..i + |sep|] == sep;
      assert s == s[..i] + sep + rest;
  }

  /** No part of a split contains the separator. */
  lemma {:induction false} SplitPartsFree(s: string, sep: string)
    requires |sep| > 0
    ensures forall k :: 0 <= k < |Split(s, sep)| ==> !Contains(Split(s, sep)[k], sep)
    decreases |s|
  {
    match Find(s, sep)
    case None =>
      SplitWithout(s, sep);
    case Some(i) =>
      SplitAtFirst(s, sep, i);
      var rest := s[i + |sep|..];
      SplitPartsFree(rest, sep);
      forall j | 0 <= j <= i ensures !OccursAt(s[..i], sep, j) {
        if j + |sep| <= i {
          assert !OccursAt(s, sep, j);
          assert s[..i][j..j + |sep|] == s[j..j + |sep|];
        }
      }
  }

  /** A split has a second part exactly when the separator occurs. */
  lemma SplitHasSecondPart(s: string, sep: string)
    requires |sep| > 0
    ensures |Split(s, sep)| >= 2 <==> Contains(s, sep)
  {
    match Find(s, sep)
    case None =>
      SplitWithout(s, sep);
    case Some(i) =>
      SplitAtFirst(s, sep, i);
  }

  /**
   * Splitting a concatenation around one separator splits the two halves
   * independently, provided occurrences of `sep` cannot overlap.
   */
  lemma {:induction false} SplitAppend(a: string, sep: string, b: string)
    requires Unbordered(sep)
    ensures Split(a + sep + b, sep) == Split(a, sep) + Split(b, sep)
    decreases |a|, 1
  {
    match Find(a, sep)
    case None =>
      SplitWithout(a, sep);
      SplitAppendWithout(a, sep, b);
    case Some(i) =>
      SplitAppendAt(a, sep, b, i);
  }

  /** The step of SplitAppend when the first occurrence in `a` is at `i`. */
  lemma {:induction false} SplitAppendAt(a: string, sep: string, b: string, i: nat)
    requires Unbordered(sep) && OccursAt(a, sep, i)
    requires forall j :: 0 <= j < i ==> !OccursAt(a, sep, j)
    ensures Split(a + sep + b, sep) == Split(a, sep) + Split(b, sep)
    decreases |a|, 0
  {
    var s, rest := a + sep + b, a[i + |sep|..];
    FirstOccurrenceInPrefix(a, sep, b, i);
    SplitAtFirst(s, sep, i);
    ConcatSlices(a, sep, b, i);
    SplitAppend(rest, sep, b);
    SplitAtFirst(a, sep, i);
    var head, tail, ys, zs := a[..i], Split(rest + sep + b, sep), Split(rest, sep), Split(b, sep);
    assert Split(s, sep) == [head] + tail;
    assert tail == ys + zs;
    assert Split(a, sep) == [head] + ys;
    ConcatAssoc([head], ys, zs);
  }

  /** Concatenation of sequences is associative. */
  lemma ConcatAssoc<T>(x: seq<T>, y: seq<T>, z: seq<T>)
    ensures x + (y + z) == (x + y) + z
  {
  }

  /** Slicing `a + sep + b` at a cut `k` inside `a` plus `sep`. */
  lemma ConcatSlices(a: string, sep: string, b: string, k: nat)
    requires k <= |a|
    ensures (a + sep + b)[..k] == a[..k]
    ensures k + |sep| <= |a| ==> (a + sep + b)[k + |sep|..] == a[k + |sep|..] + sep + b
    ensures k == |a| ==> (a + sep + b)[k + |sep|..] == b
  {
  }

  /** The base case of SplitAppend: `a` holds no occurrence. */
  lemma SplitAppendWithout(a: string, sep: string, b: string)
    requires Unbordered(sep) && !Contains(a, sep)
    ensures Split(a + sep + b, sep) == [a] + Split(b, sep)
  {
    FirstOccurrenceIsSeparator(a, sep, b);
    SplitAtFirst(a + sep + b, sep, |a|);
    ConcatSlices(a, sep, b, |a|);
    assert a[..|a|] == a;
  }

  /** When `a` has no occurrence, the first one in `a + sep + b` is the inserted `sep`. */
  lemma FirstOccurrenceIsSeparator(a: string, sep: string, b: string)
    requires Unbordered(sep) && !Contains(a, sep)
    ensures OccursAt(a + sep + b, sep, |a|)
    ensures forall j :: 0 <= j < |a| ==> !OccursAt(a + sep + b, sep, j)
  {
    var s := a + sep + b;
    forall j | 0 <= j < |a| ensures !OccursAt(s, sep, j) {
      if j + |sep| <= |a| {
        assert !OccursAt(a, sep, j);
        assert s[j..j + |sep|] == a[j..j + |sep|];
      } else if j + |sep| <= |s| {
        var k := |a| - j;
        assert s[j..j + |sep|][k] == s[|a|] == sep[0] != sep[k];
      }
    }
    assert s[|a|..|a| + |sep|] == sep;
  }

  /** The first occurrence in `a` is also the first one in `a + sep + b`. */
  lemma FirstOccurrenceInPrefix(a: string, sep: string, b: string, i: nat)
    requires |sep| > 0 && OccursAt(a, sep, i)
    requires forall j :: 0 <= j < i ==> !OccursAt(a, sep, j)
    ensures OccursAt(a + sep + b, sep, i)
    ensures forall j :: 0 <= j < i ==> !OccursAt(a + sep + b, sep, j)
  {
    var s := a + sep + b;
    forall j | 0 <= j < i ensures !OccursAt(s, sep, j) {
      assert !OccursAt(a, sep, j);
      assert s[j..j + |sep|] == a[j..j + |sep|];
    }
    assert s[i..i + |sep|] == a[i..i + |sep|];
  }

  /** A string in which some character of the separator never appears does not contain it. */
  lemma NotContainsWithoutChar(s: string, sep: string, k: nat)
    requires k < |sep| && sep[k] !in s
    ensures !Contains(s, sep)
  {
    forall i | 0 <= i <= |s| ensures !OccursAt(s, sep, i) {
      if i + |sep| <= |s| {
        assert s[i..i + |sep|][k] == s[i + k];
      }
    }
  }

  /**
   * Two strings free of a two-character separator stay free of it when
   * concatenated, unless the separator straddles the seam.
   */
  lemma NotContainsConcat(x: string, y: string, sep: string)
    requires |sep| == 2 && !Contains(x, sep) && !Contains(y, sep)
    requires |x| > 0 && |y| > 0 ==> x[|x| - 1] != sep[0] || y[0] != sep[1]
    ensures !Contains(x + y, sep)
  {
    var s := x + y;
    forall i | 0 <= i <= |s| ensures !OccursAt(s, sep, i) {
      if i + 2 <= |x| {
        assert !OccursAt(x, sep, i);
        assert s[i..i + 2] == x[i..i + 2];
      } else if |x| <= i && i + 2 <= |s| {
        assert !OccursAt(y, sep, i - |x|);
        assert s[i..i + 2] == y[i - |x|..i - |x| + 2];
      } else if i + 2 <= |s| {
        assert i == |x| - 1;
        assert s[i..i + 2] == [x[|x| - 1], y[0]];
      }
    }
  }

  /**
   * Joining parts free of an unbordered separator and splitting again gives
   * back the parts.
   */
  lemma {:induction false} SplitJoin(parts: seq<string>, sep: string)
    requires Unbordered(sep) && |parts| >= 1
    requires forall k :: 0 <= k < |parts| ==> !Contains(parts[k], sep)
    ensures Split(Join(parts, sep), sep) == parts
    decreases |parts|
  {
    SplitWithout(parts[0], sep);
    if |parts| > 1 {
      SplitJoin(parts[1..], sep);
      SplitAppend(parts[0], sep, Join(parts[1..], sep));
    }
  }

  /** Two strings that agree at every index are equal. */
  lemma SameText(x: string, y: string)
    requires |x| == |y| && forall i :: 0 <= i < |x| ==> x[i] == y[i]
    ensures x == y
  {
  }
}
