/**
 * The two ECMAScript array built-ins the list's store relies on, over Dafny
 * sequences: `Array.prototype.indexOf` (strict equality, -1 when absent) and
 * `Array.prototype.splice(start, deleteCount)` with its clamping of a negative
 * or too large start. `RemoveFirst` is an independent reference definition of
 * "drop the first occurrence" against which `splice(indexOf(x), 1)` is proved.
 */
module JsArray {

  function Min(a: int, b: int): int { if a <= b then a else b }
  function Max(a: int, b: int): int { if a <= b then b else a }

  /** `s.indexOf(x)`: the index of the first element equal to `x`, or -1. */
  function IndexOf<T(==)>(s: seq<T>, x: T): (i: int)
    ensures -1 <= i < |s|
    ensures i == -1 <==> x !in s
    ensures 0 <= i ==> s[i] == x && x !in s[..i]
  {
    if |s| == 0 then -1
    else if s[0] == x then 0
    else
      var j := IndexOf(s[1..], x);
      if j < 0 then -1
      else
        assert s[..j + 1] == [s[0]] + s[1..][..j];
        j + 1
  }

  /** The index `splice` actually starts at: a negative start counts from the end. */
  function ActualStart(len: nat, start: int): (k: nat)
    ensures k <= len
  {
    if start < 0 then Max(len + start, 0) else Min(start, len)
  }

  /**
   * What `s` holds after `s.splice(start, deleteCount)`: the deletion count is
   * clamped to what remains after the actual start.
   */
  function Splice<T>(s: seq<T>, start: int, deleteCount: int): seq<T>
  {
    var k := ActualStart(|s|, start);
    var n := Min(Max(deleteCount, 0), |s| - k);
    s[..k] + s[k + n..]
  }

  /**
   * `splice` keeps what precedes the actual start, removes the clamped count
   * (never negative, never past the end) and keeps what follows, in order.
   */
  lemma SpliceKeeps<T>(s: seq<T>, start: int, deleteCount: int)
    ensures var r := Splice(s, start, deleteCount);
      && |r| == |s| - Min(Max(deleteCount, 0), |s| - ActualStart(|s|, start))
      && (forall j :: 0 <= j < ActualStart(|s|, start) ==> r[j] == s[j])
      && (forall j :: ActualStart(|s|, start) <= j < |r| ==> r[j] == s[|s| - |r| + j])
  {
  }

  /** Reference definition: `s` without its first occurrence of `x`. */
  function RemoveFirst<T(==)>(s: seq<T>, x: T): seq<T>
  {
    if s == [] then []
    else if s[0] == x then s[1..]
    else [s[0]] + RemoveFirst(s[1..], x)
  }

  /** Removing the first occurrence at `i` keeps every other element in order. */
  lemma {:induction false} RemoveFirstAt<T>(s: seq<T>, x: T, i: nat)
    requires i < |s| && s[i] == x && x !in s[..i]
    ensures RemoveFirst(s, x) == s[..i] + s[i + 1..]
  {
    if i > 0 {
      assert s[0] in s[..i];
      assert s[1..][..i - 1] == s[1..i];
      assert x !in s[1..][..i - 1];
      RemoveFirstAt(s[1..], x, i - 1);
      assert s[..i] == [s[0]] + s[1..][..i - 1];
      assert s[1..][i..] == s[i + 1..];
    }
  }

  /** `RemoveFirst` takes exactly one copy of `x` out of the multiset of elements. */
  lemma {:induction false} RemoveFirstMultiset<T>(s: seq<T>, x: T)
    requires x in s
    ensures |RemoveFirst(s, x)| == |s| - 1
    ensures multiset(RemoveFirst(s, x)) == multiset(s) - multiset{x}
  {
    assert s == [s[0]] + s[1..];
    if s[0] != x {
      assert x in s[1..];
      RemoveFirstMultiset(s[1..], x);
    }
  }

  /** With a present element, `splice(indexOf(x), 1)` removes exactly its first occurrence. */
  lemma SpliceIndexOfPresent<T>(s: seq<T>, x: T)
    requires x in s
    ensures Splice(s, IndexOf(s, x), 1) == RemoveFirst(s, x)
  {
    RemoveFirstAt(s, x, IndexOf(s, x));
  }

  /**
   * With an absent element `indexOf` yields -1 and `splice(-1, 1)` removes the
   * LAST element of a non-empty list; an empty list stays empty.
   */
  lemma SpliceIndexOfAbsent<T>(s: seq<T>, x: T)
    requires x !in s
    ensures Splice(s, IndexOf(s, x), 1) == if s == [] then [] else s[..|s| - 1]
  {
  }
}
