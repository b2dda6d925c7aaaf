/** Sorting and de-duplication of integer sequences, the model of
    JavaScript's `sort((a, b) => a - b)`, `sort().reverse()` and spreading a
    `Set` back into an array. */
module Sorting {

  predicate Ascending(s: seq<int>) {
    forall i, j :: 0 <= i < j < |s| ==> s[i] <= s[j]
  }

  predicate StrictlyDescending(s: seq<int>) {
    forall i, j :: 0 <= i < j < |s| ==> s[i] > s[j]
  }

  function Insert(x: int, s: seq<int>): (r: seq<int>)
    requires Ascending(s)
    ensures Ascending(r)
    ensures multiset(r) == multiset(s) + multiset{x}
    ensures |r| == |s| + 1
    ensures forall y :: y in r ==> y == x || y in s
  {
    if s == [] || x <= s[0] then [x] + s
    else
      assert s == [s[0]] + s[1..];
      var t := Insert(x, s[1..]);
      assert forall k :: 0 <= k < |t| ==> s[0] <= t[k] by {
        forall k | 0 <= k < |t| ensures s[0] <= t[k] {
          assert t[k] in t;
        }
      }
      [s[0]] + t
  }

  /** Insertion sort: an ascending permutation of `s`. */
  function SortAscending(s: seq<int>): (r: seq<int>)
    ensures Ascending(r)
    ensures multiset(r) == multiset(s)
    ensures |r| == |s|
  {
    if s == [] then []
    else
      assert s == [s[0]] + s[1..];
      Insert(s[0], SortAscending(s[1..]))
  }

  lemma MultisetHead(s: seq<int>)
    requires s != []
    ensures multiset(s) == multiset{s[0]} + multiset(s[1..])
  {
    assert s == [s[0]] + s[1..];
  }

  /** An ascending arrangement of a multiset is unique, so any sorting
      algorithm computes the same sequence as SortAscending. */
  lemma {:induction false} AscendingUnique(a: seq<int>, b: seq<int>)
    requires Ascending(a) && Ascending(b)
    requires multiset(a) == multiset(b)
    ensures a == b
  {
    if a == [] {
      assert |multiset(b)| == 0;
    } else {
      assert b != [] by {
        assert a[0] in multiset(a);
      }
      assert a[0] in b by {
        assert a[0] in multiset(b);
      }
      assert b[0] in a by {
        assert b[0] in multiset(a);
      }
      assert a[0] == b[0];
      MultisetHead(a);
      MultisetHead(b);
      assert multiset(a[1..]) == multiset(a) - multiset{a[0]};
      assert multiset(b[1..]) == multiset(b) - multiset{b[0]};
      AscendingUnique(a[1..], b[1..]);
      assert a == [a[0]] + a[1..];
      assert b == [b[0]] + b[1..];
    }
  }

  /** Sorting an ascending sequence leaves it as it is. */
  lemma SortAscendingSorted(s: seq<int>)
    requires Ascending(s)
    ensures SortAscending(s) == s
  {
    AscendingUnique(SortAscending(s), s);
  }

  function Reverse(s: seq<int>): (r: seq<int>)
    ensures |r| == |s|
    ensures forall i :: 0 <= i < |s| ==> r[i] == s[|s| - 1 - i]
  {
    if s == [] then [] else Reverse(s[1..]) + [s[0]]
  }

  /** The distinct elements of `s` in order of first occurrence
      (`[...new Set(s)]`). */
  function Distinct(s: seq<int>): (r: seq<int>)
    ensures forall x :: x in r <==> x in s
    ensures forall i, j :: 0 <= i < j < |r| ==> r[i] != r[j]
    ensures |r| <= |s|
  {
    if s == [] then []
    else
      var rest := Distinct(s[..|s| - 1]);
      if s[|s| - 1] in rest then rest else rest + [s[|s| - 1]]
  }

  /** The position of the first occurrence of `x` in `s`. */
  function FirstIndex(s: seq<int>, x: int): (i: nat)
    requires x in s
    ensures i < |s| && s[i] == x && x !in s[..i]
  {
    if s[0] == x then 0
    else
      assert s[1..][..FirstIndex(s[1..], x)] == s[1..1 + FirstIndex(s[1..], x)];
      1 + FirstIndex(s[1..], x)
  }

  /** Appending an element leaves the first occurrences before it in place. */
  lemma FirstIndexAppend(s: seq<int>, y: int, x: int)
    requires x in s
    ensures FirstIndex(s + [y], x) == FirstIndex(s, x)
  {
    var i, j := FirstIndex(s, x), FirstIndex(s + [y], x);
    assert (s + [y])[..i] == s[..i];
    var t := s + [y];
    assert forall k :: 0 <= k < i ==> t[k] != x by {
      forall k | 0 <= k < i ensures t[k] != x {
        assert s[..i][k] == t[k];
      }
    }
    assert forall k :: 0 <= k < j ==> t[k] != x by {
      forall k | 0 <= k < j ensures t[k] != x {
        assert t[..j][k] == t[k];
      }
    }
    assert t[i] == x && t[j] == x;
  }

  /** `Distinct` keeps the order of first occurrence: of two values, the one
      that first appears earlier in `s` comes earlier in the result. With the
      same elements and no repetitions this fixes the result entirely. */
  lemma {:induction false} DistinctFirstSeen(s: seq<int>)
    ensures forall i, j :: 0 <= i < j < |Distinct(s)| ==>
      FirstIndex(s, Distinct(s)[i]) < FirstIndex(s, Distinct(s)[j])
  {
    if s != [] {
      var p, y := s[..|s| - 1], s[|s| - 1];
      assert s == p + [y];
      var rp := Distinct(p);
      DistinctFirstSeen(p);
      forall x | x in p ensures FirstIndex(s, x) == FirstIndex(p, x) {
        FirstIndexAppend(p, y, x);
      }
      if y !in p {
        assert FirstIndex(s, y) == |p| by {
          assert y !in s[..|p|];
        }
      }
    }
  }

  /** The distinct values of `s`, newest (largest) first:
      `[...new Set(s)].sort().reverse()`. */
  function DistinctDescending(s: seq<int>): (r: seq<int>)
    ensures StrictlyDescending(r)
    ensures forall x :: x in r <==> x in s
    ensures |r| <= |s|
  {
    var d := Distinct(s);
    var a := SortAscending(d);
    SortedDistinctIsStrict(d);
    SameElements(a, d);
    ReverseStrict(a);
    Reverse(a)
  }

  lemma SameElements(a: seq<int>, b: seq<int>)
    requires multiset(a) == multiset(b)
    ensures forall x :: x in a <==> x in b
  {
    forall x ensures x in a <==> x in b {
      assert x in a <==> x in multiset(a);
      assert x in b <==> x in multiset(b);
    }
  }

  lemma ReverseStrict(a: seq<int>)
    requires forall i, j :: 0 <= i < j < |a| ==> a[i] < a[j]
    ensures StrictlyDescending(Reverse(a))
    ensures forall x :: x in Reverse(a) <==> x in a
  {
    var r := Reverse(a);
    forall x | x in a ensures x in r {
      var i :| 0 <= i < |a| && a[i] == x;
      assert r[|a| - 1 - i] == x;
    }
  }

  /** Sorting a sequence without repetitions gives a strictly ascending one. */
  lemma SortedDistinctIsStrict(d: seq<int>)
    requires forall i, j :: 0 <= i < j < |d| ==> d[i] != d[j]
    ensures forall i, j :: 0 <= i < j < |SortAscending(d)| ==> SortAscending(d)[i] < SortAscending(d)[j]
  {
    var a := SortAscending(d);
    forall i, j | 0 <= i < j < |a| ensures a[i] < a[j] {
      if a[i] == a[j] {
        DistinctCount(d, a[i]);
        TwiceCount(a, i, j);
      }
    }
  }

  /** In a sequence without repetitions every element occurs once. */
  lemma {:induction false} DistinctCount(s: seq<int>, x: int)
    requires forall i, j :: 0 <= i < j < |s| ==> s[i] != s[j]
    ensures multiset(s)[x] <= 1
  {
    if s != [] {
      var t := s[..|s| - 1];
      assert s == t + [s[|s| - 1]];
      assert forall i, j :: 0 <= i < j < |t| ==> t[i] != t[j];
      DistinctCount(t, x);
      if x == s[|s| - 1] {
        assert x !in t;
      }
    }
  }

  /** An element at two positions occurs at least twice. */
  lemma TwiceCount(s: seq<int>, i: nat, j: nat)
    requires i < j < |s| && s[i] == s[j]
    ensures multiset(s)[s[i]] >= 2
  {
    assert s == s[..j] + [s[j]] + s[j + 1..];
    assert s[i] in s[..j];
    assert multiset(s) == multiset(s[..j]) + multiset{s[j]} + multiset(s[j + 1..]);
  }
}
