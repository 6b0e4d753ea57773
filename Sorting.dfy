/**
 * JavaScript's `Array.prototype.sort` with a comparator, which the source
 * uses for standings, captain selection, the history and the player page.
 * The ECMAScript sort is stable; for a consistent comparator every stable
 * sort returns the same sequence, so a stable insertion sort models it.
 * `less(a, b)` holds exactly when the source's comparator returns a
 * negative number for `(a, b)`, i.e. when `a` must come before `b`.
 */
module Sorting {
  import opened Seqs

  /** A consistent comparator: irreflexive, transitive, and its ties are transitive too. */
  ghost predicate StrictWeakOrder<T(!new)>(less: (T, T) -> bool) {
    && (forall a :: !less(a, a))
    && (forall a, b, c {:trigger less(a, b), less(b, c)} :: less(a, b) && less(b, c) ==> less(a, c))
    && (forall a, b, c {:trigger Tied(less, a, b), Tied(less, b, c)} :: Tied(less, a, b) && Tied(less, b, c) ==> Tied(less, a, c))
  }

  /** No element is strictly before an element that precedes it. */
  ghost predicate Sorted<T>(less: (T, T) -> bool, s: seq<T>) {
    forall i, j :: 0 <= i < j < |s| ==> !less(s[j], s[i])
  }

  /** Neither of `a`, `b` must come before the other: a tie for the comparator. */
  predicate Tied<T>(less: (T, T) -> bool, a: T, b: T) {
    !less(a, b) && !less(b, a)
  }

  /** The elements that tie with `x`, as a filter condition. */
  function TiedWith<T>(less: (T, T) -> bool, x: T): T -> bool {
    y => Tied(less, x, y)
  }

  /** The elements that must come before `x`, as a filter condition. */
  function Before<T>(less: (T, T) -> bool, x: T): T -> bool {
    y => less(y, x)
  }

  /** Where a new element goes: before the first element it must precede, so after all its ties. */
  function InsertPosition<T>(less: (T, T) -> bool, t: seq<T>, x: T): (k: nat)
    ensures k <= |t|
    ensures forall i :: 0 <= i < k ==> !less(x, t[i])
    ensures k < |t| ==> less(x, t[k])
  {
    if t == [] then 0
    else if less(x, t[0]) then 0
    else 1 + InsertPosition(less, t[1..], x)
  }

  function Insert<T>(less: (T, T) -> bool, t: seq<T>, x: T): seq<T> {
    var k := InsertPosition(less, t, x);
    t[..k] + [x] + t[k..]
  }

  /** Stable insertion sort: the elements are inserted in their original order. */
  function SortBy<T>(less: (T, T) -> bool, s: seq<T>): (r: seq<T>)
    ensures |r| == |s|
    ensures multiset(r) == multiset(s)
  {
    if s == [] then []
    else
      var t := SortBy(less, s[..|s| - 1]);
      var x := s[|s| - 1];
      var k := InsertPosition(less, t, x);
      assert s == s[..|s| - 1] + [x];
      assert t == t[..k] + t[k..];
      Insert(less, t, x)
  }

  lemma InsertSorted<T(!new)>(less: (T, T) -> bool, t: seq<T>, x: T)
    requires StrictWeakOrder(less)
    requires Sorted(less, t)
    ensures Sorted(less, Insert(less, t, x))
  {
    var k := InsertPosition(less, t, x);
    var r := Insert(less, t, x);
    assert |r| == |t| + 1;
    forall i, j | 0 <= i < j < |r| ensures !less(r[j], r[i]) {
      if j < k {
        assert r[i] == t[i] && r[j] == t[j];
      } else if j == k {
        assert r[i] == t[i] && r[j] == x;
      } else if i == k {
        assert r[i] == x && r[j] == t[j - 1];
      } else if i < k {
        assert r[i] == t[i] && r[j] == t[j - 1];
      } else {
        assert r[i] == t[i - 1] && r[j] == t[j - 1];
      }
    }
  }

  /** The sort orders its result. */
  lemma {:induction false} SortBySorted<T(!new)>(less: (T, T) -> bool, s: seq<T>)
    requires StrictWeakOrder(less)
    ensures Sorted(less, SortBy(less, s))
  {
    if s != [] {
      SortBySorted(less, s[..|s| - 1]);
      InsertSorted(less, SortBy(less, s[..|s| - 1]), s[|s| - 1]);
    }
  }

  /** Everything after the insertion point of `x` must come after `x`, so none of it ties with `x`'s ties. */
  lemma AfterInsertionNotTied<T(!new)>(less: (T, T) -> bool, t: seq<T>, x: T, y: T)
    requires StrictWeakOrder(less)
    requires Sorted(less, t)
    requires Tied(less, y, x)
    ensures Filter(TiedWith(less, y), t[InsertPosition(less, t, x)..]) == []
  {
    var f := TiedWith(less, y);
    var k := InsertPosition(less, t, x);
    var post := t[k..];
    forall j | 0 <= j < |post| ensures !f(post[j]) {
      var z := post[j];
      var w := t[k];
      assert less(x, w);
      assert !less(z, w) by {
        assert z == t[k + j];
      }
      // a tie of x with z would make x tie with w too
      assert Tied(less, x, z) && Tied(less, z, w) ==> Tied(less, x, w);
      assert less(x, z);
      assert Tied(less, x, y) && Tied(less, y, z) ==> Tied(less, x, z);
    }
    FilterNone(f, post);
  }

  /** Moving `x` behind `post` does not change what a filter keeps, when `post` keeps nothing or `x` is dropped. */
  lemma FilterMoveLast<T(!new)>(f: T -> bool, pre: seq<T>, x: T, post: seq<T>)
    requires f(x) ==> Filter(f, post) == []
    ensures Filter(f, pre + [x] + post) == Filter(f, pre + post) + Filter(f, [x])
  {
    FilterConcat(f, pre + [x], post);
    FilterConcat(f, pre, [x]);
    FilterConcat(f, pre, post);
    assert [x][1..] == [];
  }

  /** Inserting `x` keeps the relative order of the elements tied with `y`, with `x` last among them. */
  lemma InsertStable<T(!new)>(less: (T, T) -> bool, t: seq<T>, x: T, y: T)
    requires StrictWeakOrder(less)
    requires Sorted(less, t)
    ensures Filter(TiedWith(less, y), Insert(less, t, x))
         == Filter(TiedWith(less, y), t) + Filter(TiedWith(less, y), [x])
  {
    var k := InsertPosition(less, t, x);
    if TiedWith(less, y)(x) {
      AfterInsertionNotTied(less, t, x, y);
    }
    assert Insert(less, t, x) == t[..k] + [x] + t[k..];
    FilterMoveLast(TiedWith(less, y), t[..k], x, t[k..]);
    assert t[..k] + t[k..] == t;
  }

  /**
   * Stability: for every tie class, the sorted sequence lists its members in
   * exactly the order of the input.
   */
  lemma {:induction false} SortByStable<T(!new)>(less: (T, T) -> bool, s: seq<T>, y: T)
    requires StrictWeakOrder(less)
    ensures Filter(TiedWith(less, y), SortBy(less, s)) == Filter(TiedWith(less, y), s)
  {
    if s != [] {
      var init, x := s[..|s| - 1], s[|s| - 1];
      SortByStable(less, init, y);
      SortBySorted(less, init);
      InsertStable(less, SortBy(less, init), x, y);
      assert s == init + [x];
      FilterConcat(TiedWith(less, y), init, [x]);
    }
  }

  /** The first element of a sorted sequence is never after any other element. */
  lemma SortedHead<T>(less: (T, T) -> bool, s: seq<T>)
    requires Sorted(less, s)
    ensures forall j :: 0 < j < |s| ==> !less(s[j], s[0])
  {
  }

  /**
   * The first two of a sorted sequence lead it: nothing in the input is
   * before the first, and at most one element of the input is before the
   * second.
   */
  lemma SortByLeaders<T(!new)>(less: (T, T) -> bool, s: seq<T>)
    requires StrictWeakOrder(less)
    requires |s| >= 2
    ensures var t := SortBy(less, s);
      && t[0] in s && t[1] in s
      && (forall x :: x in s ==> !less(x, t[0]))
      && |Filter(Before(less, t[1]), s)| <= 1
  {
    var t := SortBy(less, s);
    SortBySorted(less, s);
    assert t[0] in multiset(t) && t[1] in multiset(t);
    forall x | x in s ensures !less(x, t[0]) {
      assert x in multiset(t);
      var j :| 0 <= j < |t| && t[j] == x;
      if j > 0 {
        SortedHead(less, t);
      }
    }
    var f := Before(less, t[1]);
    assert t == [t[0]] + [t[1]] + t[2..];
    forall j | 0 <= j < |t[2..]| ensures !f(t[2..][j]) {
      assert t[2..][j] == t[j + 2];
    }
    FilterNone(f, t[2..]);
    FilterConcat(f, [t[0]] + [t[1]], t[2..]);
    FilterConcat(f, [t[0]], [t[1]]);
    assert Filter(f, [t[1]]) == [] by {
      assert [t[1]][1..] == [];
    }
    FilterPermutation(f, t, s);
  }
}
