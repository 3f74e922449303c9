/** Go slices over one backing array, and removal by shifting it in place.

    A Go slice is a window on a backing array.  `checkAndRemove` closes the gap left by
    the removed key by copying the tail one cell to the left and then shortens the
    window; the cells beyond the window keep stale values that another slice header
    over the same array can still see.
 */
module Slices {
  /** The cells of the backing array and how many of them are live. */
  datatype Slice = Slice(cells: seq<string>, len: nat) {
    ghost predicate Valid() { len <= |cells| }

    function Live(): seq<string>
      requires Valid()
    {
      cells[..len]
    }
  }

  /** The first position of `key` in `s`, or |s| when it does not occur. */
  function IndexOf(s: seq<string>, key: string): (i: nat)
    ensures i <= |s|
    ensures key !in s[..i]
    ensures i < |s| ==> s[i] == key
  {
    if s == [] || s[0] == key then 0 else 1 + IndexOf(s[1..], key)
  }

  /** What removing `key` leaves: the live cells after its first occurrence move one to
      the left; the last live cell keeps its value but is no longer live. */
  function RemoveFirst(s: Slice, key: string): (r: Slice)
    requires s.Valid()
    ensures r.Valid() && |r.cells| == |s.cells|
  {
    var i := IndexOf(s.Live(), key);
    if i == s.len then s
    else Slice(s.cells[..i] + s.cells[i + 1..s.len] + s.cells[s.len - 1..], s.len - 1)
  }

  /** A slice header that is passed by pointer, so that the callee can shorten it. */
  class StringSlice {
    const cells: array<string>
    var len: nat

    ghost predicate Valid()
      reads this
    {
      len <= cells.Length
    }

    function Model(): (s: Slice)
      reads this, cells
    {
      Slice(cells[..], len)
    }

    constructor (a: array<string>)
      ensures cells == a && len == a.Length && Valid()
    {
      cells, len := a, a.Length;
    }

    method CheckAndRemove(key: string) returns (found: bool)
      requires Valid()
      modifies this, cells
      ensures Valid()
      ensures found <==> key in old(Model().Live())
      ensures Model() == RemoveFirst(old(Model()), key)
    {
      for i := 0 to len
        invariant key !in cells[..i]
        invariant Model() == old(Model())
      {
        if cells[i] == key {
          IndexIs(cells[..len], key, i);
          Close(i);
          return true;
        }
      }
      IndexIs(cells[..len], key, len);
      return false;
    }

    /** append(keys[:i], keys[i+1:]...) and the assignment of the shorter slice. */
    method Close(i: nat)
      requires Valid() && i < len
      modifies this, cells
      ensures Valid() && len == old(len) - 1
      ensures cells[..] == old(cells[..i] + cells[i + 1..len] + cells[len - 1..])
    {
      for j := i to len - 1
        invariant len == old(len)
        invariant forall k :: 0 <= k < i || j <= k < cells.Length ==> cells[k] == old(cells[k])
        invariant forall k :: i <= k < j ==> cells[k] == old(cells[k + 1])
      {
        cells[j] := cells[j + 1];
      }
      len := len - 1;
    }
  }

  lemma IndexIs(s: seq<string>, key: string, i: nat)
    requires i <= |s| && key !in s[..i] && (i < |s| ==> s[i] == key)
    ensures IndexOf(s, key) == i
  {
  }

  // ---- What a removal keeps ----

  predicate Distinct(s: seq<string>) {
    forall i, j :: 0 <= i < j < |s| ==> s[i] != s[j]
  }

  /** `a` can be obtained from `b` by dropping elements. */
  ghost predicate Subsequence(a: seq<string>, b: seq<string>) {
    a == [] ||
    (b != [] && ((a[0] == b[0] && Subsequence(a[1..], b[1..])) || Subsequence(a, b[1..])))
  }

  lemma {:induction false} SubsequenceRefl(a: seq<string>)
    ensures Subsequence(a, a)
  {
    if a != [] { SubsequenceRefl(a[1..]); }
  }

  /** Dropping one more element of a subsequence leaves a subsequence. */
  lemma {:induction false} SubsequenceDrop(a: seq<string>, b: seq<string>, i: nat)
    requires Subsequence(a, b) && i < |a|
    ensures Subsequence(a[..i] + a[i + 1..], b)
    decreases |b|
  {
    var r := a[..i] + a[i + 1..];
    if a[0] == b[0] && Subsequence(a[1..], b[1..]) {
      if i == 0 {
        assert r == a[1..];
      } else {
        SubsequenceDrop(a[1..], b[1..], i - 1);
        assert r[1..] == a[1..][..i - 1] + a[1..][i..];
      }
    } else {
      SubsequenceDrop(a, b[1..], i);
    }
  }

  lemma {:induction false} SubsequenceMember(a: seq<string>, b: seq<string>, x: string)
    requires Subsequence(a, b) && x in a
    ensures x in b
    decreases |b|
  {
    if a[0] == b[0] && Subsequence(a[1..], b[1..]) {
      if x != a[0] { SubsequenceMember(a[1..], b[1..], x); }
    } else {
      SubsequenceMember(a, b[1..], x);
    }
  }

  /** The last element of `b`, if it is kept, is the last one kept. */
  lemma {:induction false} SubsequenceLast(a: seq<string>, b: seq<string>)
    requires Subsequence(a, b) && Distinct(b) && b != [] && b[|b| - 1] in a
    ensures a[|a| - 1] == b[|b| - 1]
    decreases |b|
  {
    var z := b[|b| - 1];
    assert |b| > 1 ==> b[1..] != [] && b[1..][|b| - 2] == z;
    if a[0] == b[0] && Subsequence(a[1..], b[1..]) {
      if z in a[1..] { SubsequenceLast(a[1..], b[1..]); }
    } else {
      SubsequenceLast(a, b[1..]);
    }
  }

  lemma {:induction false} DistinctSize(s: seq<string>)
    requires Distinct(s)
    ensures |set x | x in s| == |s|
  {
    if s != [] {
      DistinctSize(s[1..]);
      assert (set x | x in s) == {s[0]} + set x | x in s[1..];
      assert s[0] !in s[1..];
    }
  }

  /** Some of the keys of `b` without `x` are fewer, and one fewer only if they are all the others. */
  lemma FewerKeys(a: seq<string>, b: seq<string>, x: string)
    requires Distinct(a) && Distinct(b) && x in b && x !in a
    requires forall y :: y in a ==> y in b
    ensures |a| < |b|
    ensures |a| == |b| - 1 ==> forall y :: y in b && y != x ==> y in a
  {
    var some, all := set y | y in a, set y | y in b;
    DistinctSize(a);
    DistinctSize(b);
    assert some <= all - {x};
    SubsetSize(some, all - {x});
    assert |all - {x}| == |all| - 1;
    assert |a| == |b| - 1 ==> forall y :: y in b && y != x ==> y in all - {x};
  }

  lemma NoMoreKeys(a: seq<string>, b: seq<string>)
    requires Distinct(a) && Distinct(b) && forall y :: y in a ==> y in b
    ensures |a| <= |b|
  {
    DistinctSize(a);
    DistinctSize(b);
    SubsetSize(set y | y in a, set y | y in b);
  }

  lemma {:induction false} SubsetSize(a: set<string>, b: set<string>)
    requires a <= b
    ensures |a| <= |b| && (|a| == |b| ==> a == b)
    decreases |a|
  {
    if a != {} {
      var x :| x in a;
      SubsetSize(a - {x}, b - {x});
      assert a == a - {x} + {x} && b == b - {x} + {x};
    }
  }

  /** The live keys after a removal, and the one key that left. */
  lemma RemoveFirstLive(s: Slice, key: string)
    requires s.Valid()
    ensures var r := RemoveFirst(s, key);
            var i := IndexOf(s.Live(), key);
            && (i == s.len <==> key !in s.Live())
            && (key !in s.Live() ==> r == s)
            && (key in s.Live() ==> i < s.len && r.Live() == s.Live()[..i] + s.Live()[i + 1..])
  {
  }

  /** Where the value of each cell comes from after a removal. */
  lemma RemoveFirstCell(s: Slice, key: string, j: nat)
    requires s.Valid() && key in s.Live() && j < |s.cells|
    ensures IndexOf(s.Live(), key) < s.len
    ensures RemoveFirst(s, key).cells[j] ==
            s.cells[if IndexOf(s.Live(), key) <= j < s.len - 1 then j + 1 else j]
  {
  }

  lemma RemoveFirstMultiset(s: Slice, key: string)
    requires s.Valid() && key in s.Live()
    ensures multiset(s.Live()) == multiset(RemoveFirst(s, key).Live()) + multiset{key}
  {
    RemoveFirstLive(s, key);
    var live, i := s.Live(), IndexOf(s.Live(), key);
    assert live == live[..i] + [key] + live[i + 1..];
  }

  /** Removing moves values between cells but brings in no new one, and never touches the last cell. */
  lemma RemoveFirstCells(s: Slice, key: string)
    requires s.Valid()
    ensures forall c :: c in RemoveFirst(s, key).cells ==> c in s.cells
    ensures s.cells != [] ==> RemoveFirst(s, key).cells[|s.cells| - 1] == s.cells[|s.cells| - 1]
  {
  }

  /** From a list without repeats, removal takes out exactly the key. */
  lemma RemoveFirstDistinct(s: Slice, key: string)
    requires s.Valid() && Distinct(s.Live())
    ensures Distinct(RemoveFirst(s, key).Live())
    ensures forall x :: x in RemoveFirst(s, key).Live() <==> x in s.Live() && x != key
  {
  }
}
