/**
 * Text split at, and joined with, a one-character separator: Python's
 * `str.split(sep)` / `sep.join(parts)` and JavaScript's `Array.join(sep)`.
 */
module Separated {

  /** The index of the first `c` in `s`, or `|s|` when there is none. */
  function FirstIndex(s: string, c: char): (i: nat)
    ensures i <= |s|
    ensures i < |s| ==> s[i] == c
    ensures forall k :: 0 <= k < i ==> s[k] != c
  {
    if s == [] then 0
    else if s[0] == c then 0
    else 1 + FirstIndex(s[1..], c)
  }

  /** `str.split(sep)`: the pieces between separators, empty pieces included. */
  function Split(s: string, sep: char): (r: seq<string>)
    ensures |r| >= 1
    decreases |s|
  {
    var i := FirstIndex(s, sep);
    if i == |s| then [s] else [s[..i]] + Split(s[i + 1..], sep)
  }

  /** `sep.join(parts)`. */
  function Join(parts: seq<string>, sep: char): string {
    if parts == [] then []
    else if |parts| == 1 then parts[0]
    else parts[0] + [sep] + Join(parts[1..], sep)
  }

  /** Splitting loses nothing: joining the pieces back gives the argument, and no piece holds a separator. */
  lemma {:induction false} SplitJoin(s: string, sep: char)
    ensures Join(Split(s, sep), sep) == s
    ensures forall piece :: piece in Split(s, sep) ==> sep !in piece
    decreases |s|
  {
    var i := FirstIndex(s, sep);
    if i < |s| {
      SplitJoin(s[i + 1..], sep);
      var rest := Split(s[i + 1..], sep);
      assert Split(s, sep) == [s[..i]] + rest;
      assert ([s[..i]] + rest)[1..] == rest;
      assert s == s[..i] + [sep] + s[i + 1..];
    }
  }

  /** A text without the separator is a single piece. */
  lemma NoSeparatorSplit(t: string, sep: char)
    requires forall k :: 0 <= k < |t| ==> t[k] != sep
    ensures Split(t, sep) == [t]
  {
    FirstIndexOf(t, sep, |t|);
  }

  /** The first piece ends at the first separator. */
  lemma SplitAt(s: string, sep: char, i: nat)
    requires i < |s| && s[i] == sep && forall k :: 0 <= k < i ==> s[k] != sep
    ensures Split(s, sep) == [s[..i]] + Split(s[i + 1..], sep)
  {
    FirstIndexOf(s, sep, i);
  }

  /** The first index is the one position that holds `c` with no `c` before it. */
  lemma {:induction false} FirstIndexOf(s: string, c: char, i: nat)
    requires i <= |s| && (i < |s| ==> s[i] == c) && forall k :: 0 <= k < i ==> s[k] != c
    ensures FirstIndex(s, c) == i
  {
    if s != [] && s[0] != c {
      FirstIndexOf(s[1..], c, i - 1);
    }
  }

  /** Joining pieces that are each longer gives a longer text. */
  lemma {:induction false} JoinLonger(p: seq<string>, q: seq<string>, sep: char)
    requires |p| == |q| > 0
    requires forall i :: 0 <= i < |p| ==> |p[i]| < |q[i]|
    ensures |Join(p, sep)| < |Join(q, sep)|
    decreases |p|
  {
    if |p| > 1 {
      assert forall i :: 0 <= i < |p[1..]| ==> p[1..][i] == p[i + 1] && q[1..][i] == q[i + 1];
      JoinLonger(p[1..], q[1..], sep);
    }
  }
}
