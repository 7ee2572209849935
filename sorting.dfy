/**
 * Python's `list.sort(key=...)` and `sorted(...)`: a stable sort. It is given
 * as insertion sort over a strict "comes before" comparison of keys, and the
 * lemmas prove that the result is sorted, is a permutation of the input, and
 * keeps the input order of elements with equal keys.
 */
module Sorting {

  /** `before` is a strict weak order, which is what comparing sort keys with `<` gives. */
  ghost predicate StrictWeakOrder<T(!new)>(before: (T, T) -> bool) {
    && (forall a :: !before(a, a))
    && (forall a, b, c :: before(a, b) && before(b, c) ==> before(a, c))
    && (forall a, b, c :: !before(a, b) && !before(b, c) ==> !before(a, c))
  }

  /** No element is strictly before one that precedes it. */
  ghost predicate Sorted<T>(s: seq<T>, before: (T, T) -> bool) {
    forall i, j :: 0 <= i < j < |s| ==> !before(s[j], s[i])
  }

  /** Neither comes before the other: the keys are equal. */
  predicate Tied<T>(a: T, b: T, before: (T, T) -> bool) {
    !before(a, b) && !before(b, a)
  }

  /** `x` placed after every element it does not come before. */
  function Insert<T>(x: T, s: seq<T>, before: (T, T) -> bool): (r: seq<T>)
    ensures |r| == |s| + 1
  {
    if s == [] then [x]
    else if before(x, s[0]) then [x] + s
    else
      assert s == [s[0]] + s[1..];
      [s[0]] + Insert(x, s[1..], before)
  }

  /** The stable sort: each element in turn is inserted after the ones already placed that are not after it. */
  function Sort<T>(s: seq<T>, before: (T, T) -> bool): (r: seq<T>)
    ensures |r| == |s|
  {
    if s == [] then []
    else
      assert s == s[..|s| - 1] + [s[|s| - 1]];
      Insert(s[|s| - 1], Sort(s[..|s| - 1], before), before)
  }

  /** Inserting adds `x` and loses nothing. */
  lemma {:induction false} InsertPermutes<T>(x: T, s: seq<T>, before: (T, T) -> bool)
    ensures multiset(Insert(x, s, before)) == multiset(s) + multiset{x}
  {
    if s != [] && !before(x, s[0]) {
      InsertPermutes(x, s[1..], before);
      assert s == [s[0]] + s[1..];
    }
  }

  /** The sort's result is a permutation of its input. */
  lemma {:induction false} SortPermutes<T>(s: seq<T>, before: (T, T) -> bool)
    ensures multiset(Sort(s, before)) == multiset(s)
  {
    if s != [] {
      var init := s[..|s| - 1];
      SortPermutes(init, before);
      InsertPermutes(s[|s| - 1], Sort(init, before), before);
      assert s == init + [s[|s| - 1]];
    }
  }

  /** The elements of `s` tied with `k`, in their order in `s`. */
  function TiedWith<T>(s: seq<T>, k: T, before: (T, T) -> bool): seq<T> {
    if s == [] then []
    else (if Tied(s[0], k, before) then [s[0]] else []) + TiedWith(s[1..], k, before)
  }

  /** What is tied with `k` in `s` is what the head contributes followed by what the rest has. */
  lemma TiedWithCons<T>(s: seq<T>, k: T, before: (T, T) -> bool)
    requires s != []
    ensures TiedWith(s, k, before) == TiedWith([s[0]], k, before) + TiedWith(s[1..], k, before)
  {
    assert [s[0]][1..] == [];
  }

  lemma {:induction false} TiedWithConcat<T>(a: seq<T>, b: seq<T>, k: T, before: (T, T) -> bool)
    ensures TiedWith(a + b, k, before) == TiedWith(a, k, before) + TiedWith(b, k, before)
  {
    if a == [] {
      assert a + b == b;
    } else {
      var ab := a + b;
      assert ab[0] == a[0] && ab[1..] == a[1..] + b;
      TiedWithCons(ab, k, before);
      TiedWithConcat(a[1..], b, k, before);
      TiedWithCons(a, k, before);
    }
  }

  lemma {:induction false} InsertSorted<T(!new)>(x: T, s: seq<T>, before: (T, T) -> bool)
    requires StrictWeakOrder(before)
    requires Sorted(s, before)
    ensures Sorted(Insert(x, s, before), before)
  {
    if s != [] && !before(x, s[0]) {
      var tail := Insert(x, s[1..], before);
      InsertSorted(x, s[1..], before);
      InsertPermutes(x, s[1..], before);
      var r := [s[0]] + tail;
      forall j | 1 <= j < |r| ensures !before(r[j], s[0]) {
        assert r[j] in multiset(tail);
        assert r[j] == x || r[j] in multiset(s[1..]);
        if r[j] != x {
          var m :| 0 <= m < |s[1..]| && s[1..][m] == r[j];
          assert s[m + 1] == r[j];
        }
      }
    }
  }

  /** A sorted sequence that `x` comes before holds nothing tied with `x`. */
  lemma NothingTiedAfter<T(!new)>(x: T, s: seq<T>, k: T, before: (T, T) -> bool)
    requires StrictWeakOrder(before)
    requires Sorted(s, before)
    requires s != [] && before(x, s[0])
    requires Tied(x, k, before)
    ensures TiedWith(s, k, before) == []
  {
    forall e | e in s ensures !Tied(e, k, before) {
      var j :| 0 <= j < |s| && s[j] == e;
    }
    NoneTied(s, k, before);
  }

  lemma {:induction false} NoneTied<T>(s: seq<T>, k: T, before: (T, T) -> bool)
    requires forall e :: e in s ==> !Tied(e, k, before)
    ensures TiedWith(s, k, before) == []
  {
    if s != [] {
      assert s[0] in s;
      assert forall e :: e in s[1..] ==> e in s;
      NoneTied(s[1..], k, before);
    }
  }

  /** Inserting `x` in front of a sorted sequence it comes before. */
  lemma InsertTiedFront<T(!new)>(x: T, s: seq<T>, k: T, before: (T, T) -> bool)
    requires StrictWeakOrder(before)
    requires Sorted(s, before)
    requires s != [] && before(x, s[0])
    ensures TiedWith([x] + s, k, before) == TiedWith(s, k, before) + (if Tied(x, k, before) then [x] else [])
  {
    TiedWithCons([x] + s, k, before);
    assert ([x] + s)[1..] == s;
    if Tied(x, k, before) {
      NothingTiedAfter(x, s, k, before);
    }
  }

  /** Inserting `x` further along: the head stays first. */
  lemma InsertTiedBehind<T>(x: T, s: seq<T>, k: T, before: (T, T) -> bool)
    requires s != [] && !before(x, s[0])
    requires TiedWith(Insert(x, s[1..], before), k, before)
          == TiedWith(s[1..], k, before) + (if Tied(x, k, before) then [x] else [])
    ensures TiedWith(Insert(x, s, before), k, before)
         == TiedWith(s, k, before) + (if Tied(x, k, before) then [x] else [])
  {
    var rest := Insert(x, s[1..], before);
    var r := [s[0]] + rest;
    assert Insert(x, s, before) == r;
    assert r[0] == s[0] && r[1..] == rest;
    var head := TiedWith([s[0]], k, before);
    var tail: seq<T> := if Tied(x, k, before) then [x] else [];
    TiedWithCons(r, k, before);
    TiedWithCons(s, k, before);
    calc {
      TiedWith(r, k, before);
      head + TiedWith(rest, k, before);
      head + (TiedWith(s[1..], k, before) + tail);
      (head + TiedWith(s[1..], k, before)) + tail;
      TiedWith(s, k, before) + tail;
    }
  }

  /** Inserting `x` puts it after every element tied with it. */
  lemma {:induction false} InsertTied<T(!new)>(x: T, s: seq<T>, k: T, before: (T, T) -> bool)
    requires StrictWeakOrder(before)
    requires Sorted(s, before)
    ensures TiedWith(Insert(x, s, before), k, before)
         == TiedWith(s, k, before) + (if Tied(x, k, before) then [x] else [])
  {
    if s == [] {
      assert TiedWith([x][1..], k, before) == [];
    } else if before(x, s[0]) {
      InsertTiedFront(x, s, k, before);
    } else {
      assert Sorted(s[1..], before) by {
        forall i, j | 0 <= i < j < |s[1..]| ensures !before(s[1..][j], s[1..][i]) {
          assert s[1..][j] == s[j + 1] && s[1..][i] == s[i + 1];
        }
      }
      InsertTied(x, s[1..], k, before);
      InsertTiedBehind(x, s, k, before);
    }
  }

  /** The sort's result is sorted. */
  lemma {:induction false} SortSorted<T(!new)>(s: seq<T>, before: (T, T) -> bool)
    requires StrictWeakOrder(before)
    ensures Sorted(Sort(s, before), before)
  {
    if s != [] {
      SortSorted(s[..|s| - 1], before);
      InsertSorted(s[|s| - 1], Sort(s[..|s| - 1], before), before);
    }
  }

  /** The sort is stable: the elements tied with any `k` keep their input order. */
  lemma {:induction false} SortStable<T(!new)>(s: seq<T>, k: T, before: (T, T) -> bool)
    requires StrictWeakOrder(before)
    ensures TiedWith(Sort(s, before), k, before) == TiedWith(s, k, before)
  {
    if s != [] {
      var init, x := s[..|s| - 1], s[|s| - 1];
      var sortedInit := Sort(init, before);
      var tail: seq<T> := if Tied(x, k, before) then [x] else [];
      assert TiedWith([x], k, before) == tail by {
        assert TiedWith([x][1..], k, before) == [];
      }
      SortStable(init, k, before);
      SortSorted(init, before);
      InsertTied(x, sortedInit, k, before);
      TiedWithConcat(init, [x], k, before);
      calc {
        TiedWith(Sort(s, before), k, before);
        TiedWith(Insert(x, sortedInit, before), k, before);
        TiedWith(sortedInit, k, before) + tail;
        TiedWith(init, k, before) + tail;
        TiedWith(init + [x], k, before);
        { assert s == init + [x]; }
        TiedWith(s, k, before);
      }
    }
  }
}
