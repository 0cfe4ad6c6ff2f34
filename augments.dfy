/**
 * The two methods the editor adds to every JavaScript array: `clear`, which
 * empties the array in place, and `remove`, which deletes the first
 * occurrence of a value. Arrays are growable lists, so an array is a class
 * whose `elems` field the methods reassign.
 */
module Augments {
  import opened Seqs


  /** Index of the first occurrence of `x`; the caller knows `x` occurs. */
  function FirstIndex<T(==)>(s: seq<T>, x: T): (i: nat)
    requires x in s
    ensures i < |s| && s[i] == x && x !in s[..i]
  {
    if s[0] == x then 0
    else
      assert x in s[1..];
      var j := FirstIndex(s[1..], x);
      assert s[..j + 1] == [s[0]] + s[1..][..j];
      j + 1
  }

  /** `s` without its first occurrence of `x`; `s` itself when `x` is absent. */
  function RemoveFirst<T(==)>(s: seq<T>, x: T): (r: seq<T>)
    ensures x !in s ==> r == s
    ensures x in s ==> |r| == |s| - 1
  {
    if s == [] then []
    else if s[0] == x then s[1..]
    else
      assert x in s ==> x in s[1..];
      [s[0]] + RemoveFirst(s[1..], x)
  }

  /** Removing the first occurrence takes exactly one `x` out of the multiset of elements, if there is one. */
  lemma {:induction false} RemoveFirstMultiset<T>(s: seq<T>, x: T)
    ensures multiset(RemoveFirst(s, x)) == multiset(s) - multiset{x}
  {
    if s != [] {
      assert s == [s[0]] + s[1..];
      if s[0] != x {
        RemoveFirstMultiset(s[1..], x);
      }
    }
  }

  /** The first occurrence is the only index holding `x` with no `x` before it. */
  lemma {:induction false} FirstIndexUnique<T>(s: seq<T>, x: T, i: nat)
    requires i < |s| && s[i] == x && x !in s[..i]
    ensures FirstIndex(s, x) == i
  {
    if i > 0 {
      assert s[0] == s[..i][0];
      assert s[1..][..i - 1] == s[1..i];
      assert forall y :: y in s[1..i] ==> y in s[..i];
      FirstIndexUnique(s[1..], x, i - 1);
    }
  }

  /** Removing `x` from `a + [x] + b` leaves `a + b` when `a` holds no `x`. */
  lemma {:induction false} RemoveFirstAfter<T>(a: seq<T>, x: T, b: seq<T>)
    requires x !in a
    ensures RemoveFirst(a + [x] + b, x) == a + b
  {
    var s := a + [x] + b;
    if a == [] {
      assert s == [x] + b;
    } else {
      var rest := a[1..];
      assert a == [a[0]] + rest && x !in rest;
      assert s[0] == a[0] && s[1..] == rest + [x] + b;
      RemoveFirstAfter(rest, x, b);
      assert RemoveFirst(s, x) == [a[0]] + (rest + b);
      assert a + b == [a[0]] + (rest + b) by {
        forall i | 0 <= i < |a + b|
          ensures (a + b)[i] == ([a[0]] + (rest + b))[i]
        {
        }
      }
    }
  }

  /** Removing the first occurrence deletes exactly position `FirstIndex(s, x)` and keeps the others in order. */
  lemma RemoveFirstSplices<T>(s: seq<T>, x: T)
    requires x in s
    ensures RemoveFirst(s, x) == s[..FirstIndex(s, x)] + s[FirstIndex(s, x) + 1..]
  {
    var i := FirstIndex(s, x);
    assert s == s[..i] + [x] + s[i + 1..];
    RemoveFirstAfter(s[..i], x, s[i + 1..]);
  }

  /** Every element other than `x` keeps its number of occurrences, and `x` loses one when present. */
  lemma RemoveFirstCounts<T>(s: seq<T>, x: T, y: T)
    ensures multiset(RemoveFirst(s, x))[y] == if y == x && x in s then multiset(s)[y] - 1 else multiset(s)[y]
  {
    RemoveFirstMultiset(s, x);
    if y == x && x in s {
      assert multiset(s)[x] >= 1;
    }
  }

  /** In a list without repetitions, removing the first occurrence removes every occurrence. */
  lemma {:induction false} RemoveFirstWithout<T>(s: seq<T>, x: T)
    requires NoDup(s)
    ensures RemoveFirst(s, x) == Without(s, {x})
  {
    if s != [] {
      assert NoDup(s[1..]) by {
        forall i, j | 0 <= i < j < |s[1..]|
          ensures s[1..][i] != s[1..][j]
        {
          assert s[1..][i] == s[i + 1] && s[1..][j] == s[j + 1];
        }
      }
      RemoveFirstWithout(s[1..], x);
      if s[0] == x {
        assert x !in s[1..] by {
          forall i | 0 <= i < |s[1..]|
            ensures s[1..][i] != x
          {
            assert s[1..][i] == s[i + 1];
          }
        }
        WithoutAbsent(s[1..], {x});
      }
    }
  }

  /**
   * Index search used by `remove`: the first index holding `x`, or -1.
   */
  method IndexOf<T(==)>(s: seq<T>, x: T) returns (idx: int)
    ensures idx == -1 <==> x !in s
    ensures idx != -1 ==> 0 <= idx < |s| && s[idx] == x && x !in s[..idx]
  {
    idx := 0;
    while idx < |s|
      invariant 0 <= idx <= |s|
      invariant x !in s[..idx]
    {
      if s[idx] == x {
        return;
      }
      assert s[..idx + 1] == s[..idx] + [s[idx]];
      idx := idx + 1;
    }
    assert s[..idx] == s;
    idx := -1;
  }

  /** A JavaScript array with the two added methods. */
  class JsArray<T(==)> {
    var elems: seq<T>

    constructor (init: seq<T>)
      ensures elems == init
    {
      elems := init;
    }

    /** `Array.prototype.includes`. */
    function Includes(x: T): bool
      reads this
    {
      x in elems
    }

    /** `Array.prototype.push`. */
    method Push(x: T)
      modifies this
      ensures elems == old(elems) + [x]
    {
      elems := elems + [x];
    }

    /** `Array.prototype.clear`: empties the array in place and returns the same array. */
    method Clear() returns (r: JsArray<T>)
      modifies this
      ensures r == this && elems == []
    {
      elems := [];
      r := this;
    }

    /**
     * `Array.prototype.remove`: false and no change when `x` is absent;
     * otherwise the first occurrence is spliced out and the result is true.
     */
    method Remove(x: T) returns (found: bool)
      modifies this
      ensures found <==> x in old(elems)
      ensures elems == RemoveFirst(old(elems), x)
    {
      var idx := IndexOf(elems, x);
      if idx == -1 {
        return false;
      }
      FirstIndexUnique(elems, x, idx);
      RemoveFirstSplices(elems, x);
      elems := elems[..idx] + elems[idx + 1..];
      return true;
    }
  }

  /**
   * The array test scenario: removing 2 from [1, 2, 3] succeeds and leaves
   * no 2 behind; removing it a second time reports false.
   */
  method RemoveTwice() returns (first: bool, second: bool, after: seq<int>)
    ensures first && !second
    ensures after == [1, 3] && 2 !in after
  {
    var a := new JsArray([1, 2, 3]);
    first := a.Remove(2);
    assert [1, 2, 3][1..] == [2, 3] && [2, 3][1..] == [3];
    assert a.elems == [1, 3];
    second := a.Remove(2);
    after := a.elems;
  }

  /** The clear test scenario: clearing [1, 2, 3] leaves a length-0 array, the same object. */
  method ClearExample() returns (same: bool, len: nat)
    ensures same && len == 0
  {
    var a := new JsArray([1, 2, 3]);
    var r := a.Clear();
    same := r == a;
    len := |a.elems|;
  }
}
