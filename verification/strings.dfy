/**
 Python's `str.split(sep, 1)`, `str.split(sep)` and `sep.join(parts)` for a
 one-character separator, with the laws that relate them.
 */
module Strings {
  import opened Wrappers

  /** Index of the first occurrence of `c` in `s`. */
  function FindFirst(s: string, c: char): (r: Option<nat>)
    ensures r.None? <==> c !in s
    ensures r.Some? ==> r.value < |s| && s[r.value] == c && c !in s[..r.value]
  {
    if |s| == 0 then None
    else if s[0] == c then Some(0)
    else
      match FindFirst(s[1..], c)
      case None => None
      case Some(i) =>
        assert s[..i + 1] == [s[0]] + s[1..][..i];
        Some(i + 1)
  }

  /** A `c` with no `c` in front of it is the one `FindFirst` reports. */
  lemma {:induction false} FindFirstAt(s: string, c: char, k: nat)
    requires k < |s| && s[k] == c && c !in s[..k]
    ensures FindFirst(s, c) == Some(k)
  {
    if k > 0 {
      assert s[0] == s[..k][0];
      assert s[1..][..k - 1] == s[1..k];
      FindFirstAt(s[1..], c, k - 1);
    }
  }

  /**
   Splitting at most once at `c` into two parts: the text before the first
   `c` and everything after it; `None` where Python's two-way unpacking
   raises `ValueError` (no `c`).
   */
  function SplitOnce(s: string, c: char): (r: Option<(string, string)>)
    ensures r.None? <==> c !in s
    ensures r.Some? ==> s == r.value.0 + [c] + r.value.1 && c !in r.value.0
  {
    match FindFirst(s, c)
    case None => None
    case Some(i) =>
      assert s == s[..i] + [c] + s[i + 1..];
      Some((s[..i], s[i + 1..]))
  }

  /** `SplitOnce` undoes gluing two parts with `c` when the first part holds no `c`. */
  lemma SplitOnceOfJoined(a: string, b: string, c: char)
    requires c !in a
    ensures SplitOnce(a + [c] + b, c) == Some((a, b))
  {
    var s := a + [c] + b;
    var r := SplitOnce(s, c);
    assert c in s by { assert s[|a|] == c; }
    assert s[..|a|] == a;
    FindFirstAt(s, c, |a|);
    assert s[|a| + 1..] == b;
  }

  /** `sep.join(parts)`; the empty list joins to the empty string. */
  function Join(parts: seq<string>, c: char): (r: string)
    ensures |parts| >= 1 ==> parts[0] <= r
    ensures |parts| > 1 ==> c in r
  {
    if |parts| == 0 then ""
    else if |parts| == 1 then parts[0]
    else parts[0] + [c] + Join(parts[1..], c)
  }

  /** `s.split(c)`: the maximal c-free pieces of `s`, at least one of them. */
  function Split(s: string, c: char): (r: seq<string>)
    ensures |r| >= 1
    ensures forall i :: 0 <= i < |r| ==> c !in r[i]
    decreases |s|
  {
    var r := SplitOnce(s, c);
    if r.None? then [s] else [r.value.0] + Split(r.value.1, c)
  }

  /** Joining the pieces of `s.split(c)` with `c` gives `s` back. */
  lemma {:induction false} JoinOfSplit(s: string, c: char)
    ensures Join(Split(s, c), c) == s
    decreases |s|
  {
    var r := SplitOnce(s, c);
    if r.Some? {
      var a, b := r.value.0, r.value.1;
      JoinOfSplit(b, c);
      var rest := Split(b, c);
      assert ([a] + rest)[1..] == rest;
    }
  }

  /** Splitting a join of c-free parts gives the parts back, in order and with repeats. */
  lemma {:induction false} SplitOfJoin(parts: seq<string>, c: char)
    requires |parts| >= 1
    requires forall i :: 0 <= i < |parts| ==> c !in parts[i]
    ensures Split(Join(parts, c), c) == parts
    decreases |parts|
  {
    if |parts| == 1 {
      assert SplitOnce(parts[0], c).None?;
    } else {
      var rest := Join(parts[1..], c);
      assert Join(parts, c) == parts[0] + [c] + rest;
      SplitStep(Join(parts, c), c, parts[0], rest);
      SplitOfJoin(parts[1..], c);
      assert [parts[0]] + parts[1..] == parts;
    }
  }

  /** Last element of a non-empty sequence (Python's `xs[-1]`). */
  function Last<T>(xs: seq<T>): T
    requires |xs| >= 1
  {
    xs[|xs| - 1]
  }

  /** A suffix of a suffix is a suffix. */
  lemma SuffixOfSuffix(x: string, n: nat, m: nat)
    requires m <= n <= |x|
    ensures x[|x| - n..][n - m..] == x[|x| - m..]
  {
  }

  /** One step of `Split`: the piece before the first `c`, then the split of the rest. */
  lemma SplitStep(s: string, c: char, a: string, b: string)
    requires c !in a && s == a + [c] + b
    ensures Split(s, c) == [a] + Split(b, c)
    ensures Last(Split(s, c)) == Last(Split(b, c))
  {
    SplitOnceOfJoined(a, b, c);
    LastOfCons(a, Split(b, c));
  }

  /** Putting an element in front does not change the last one. */
  lemma LastOfCons<T>(x: T, t: seq<T>)
    requires |t| >= 1
    ensures Last([x] + t) == Last(t)
  {
  }

  /** The last piece of `s.split(c)` is a suffix of `s`. */
  lemma {:induction false} LastPieceIsSuffix(s: string, c: char)
    ensures |Last(Split(s, c))| <= |s|
    ensures Last(Split(s, c)) == s[|s| - |Last(Split(s, c))|..]
    decreases |s|
  {
    var r := SplitOnce(s, c);
    if r.None? {
      assert s[0..] == s;
    } else {
      var a, b := r.value.0, r.value.1;
      SplitStep(s, c, a, b);
      LastPieceIsSuffix(b, c);
      var p := Last(Split(b, c));
      assert s[|s| - |b|..] == b;
      SuffixOfSuffix(s, |b|, |p|);
    }
  }

  /** The last piece of `s.split(c)` starts right after a `c`, unless `s` holds none. */
  lemma {:induction false} LastPieceFollowsSeparator(s: string, c: char)
    ensures c in s ==> |Last(Split(s, c))| < |s| && s[|s| - |Last(Split(s, c))| - 1] == c
    ensures c !in s ==> Last(Split(s, c)) == s
    decreases |s|
  {
    var r := SplitOnce(s, c);
    if r.Some? {
      var a, b := r.value.0, r.value.1;
      SplitStep(s, c, a, b);
      LastPieceFollowsSeparator(b, c);
      LastPieceIsSuffix(b, c);
      var p := Last(Split(b, c));
      if c in b {
        assert s[|s| - |p| - 1] == b[|b| - |p| - 1];
      } else {
        assert s[|s| - |p| - 1] == s[|a|];
      }
    }
  }

  /**
   `s.split(c)[-1]` is the text after the last `c` of `s`: a c-free suffix,
   preceded by `c` when `s` holds one, and all of `s` otherwise.
   */
  lemma LastPieceIsTail(s: string, c: char)
    ensures var p := Last(Split(s, c));
      && |p| <= |s| && p == s[|s| - |p|..]
      && c !in p
      && (c in s ==> |p| < |s| && s[|s| - |p| - 1] == c)
      && (c !in s ==> p == s)
  {
    LastPieceIsSuffix(s, c);
    LastPieceFollowsSeparator(s, c);
  }
}
