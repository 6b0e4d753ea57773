/**
 * Sequence helpers shared by the whole model: `Filter` is JavaScript's
 * `Array.prototype.filter`, which the source uses for cancellation, player
 * deletion, team moves, MVP toggling and every list view.
 */
module Seqs {

  /** The smaller of two counts (`Math.min`, and the length `slice(0, n)` keeps). */
  function Min(a: nat, b: nat): nat {
    if a <= b then a else b
  }

  /** The elements of `s` that satisfy `keep`, in their original order. */
  function Filter<T(==,!new)>(keep: T -> bool, s: seq<T>): (r: seq<T>)
    ensures |r| <= |s|
    ensures (forall i :: 0 <= i < |s| ==> keep(s[i])) ==> r == s
  {
    if s == [] then []
    else (if keep(s[0]) then [s[0]] else []) + Filter(keep, s[1..])
  }

  /** The kept elements are exactly the elements of `s` that satisfy `keep`. */
  lemma {:induction false} FilterMembers<T(!new)>(keep: T -> bool, s: seq<T>)
    ensures forall x :: x in Filter(keep, s) <==> x in s && keep(x)
  {
    if s != [] {
      FilterMembers(keep, s[1..]);
      assert s == [s[0]] + s[1..];
    }
  }

  /** Nothing is kept when no element satisfies `keep`. */
  lemma {:induction false} FilterNone<T(!new)>(keep: T -> bool, s: seq<T>)
    requires forall i :: 0 <= i < |s| ==> !keep(s[i])
    ensures Filter(keep, s) == []
  {
    if s != [] {
      FilterNone(keep, s[1..]);
    }
  }

  /** Filtering distributes over concatenation: this is what "keeps the others in their original order" means. */
  lemma {:induction false} FilterConcat<T(!new)>(keep: T -> bool, a: seq<T>, b: seq<T>)
    ensures Filter(keep, a + b) == Filter(keep, a) + Filter(keep, b)
  {
    if a == [] {
      assert a + b == b;
    } else {
      assert (a + b)[1..] == a[1..] + b;
      FilterConcat(keep, a[1..], b);
    }
  }

  /** An element that fails `keep` is dropped; one that passes is kept, once per occurrence. */
  lemma {:induction false} FilterMultiset<T(!new)>(keep: T -> bool, s: seq<T>)
    ensures forall x :: multiset(Filter(keep, s))[x] == if keep(x) then multiset(s)[x] else 0
  {
    if s != [] {
      FilterMultiset(keep, s[1..]);
      assert s == [s[0]] + s[1..];
    }
  }

  /** Two permutations of each other keep permutations of each other, hence equally many elements. */
  lemma {:induction false} FilterPermutation<T(!new)>(keep: T -> bool, a: seq<T>, b: seq<T>)
    requires multiset(a) == multiset(b)
    ensures multiset(Filter(keep, a)) == multiset(Filter(keep, b))
    ensures |Filter(keep, a)| == |Filter(keep, b)|
  {
    FilterMultiset(keep, a);
    FilterMultiset(keep, b);
    assert multiset(Filter(keep, a)) == multiset(Filter(keep, b));
    assert |multiset(Filter(keep, a))| == |Filter(keep, a)|;
    assert |multiset(Filter(keep, b))| == |Filter(keep, b)|;
  }

  /** When exactly the element at position `i` fails `keep`, filtering cuts it out. */
  lemma {:induction false} FilterRemovesOne<T(!new)>(keep: T -> bool, s: seq<T>, i: nat)
    requires i < |s|
    requires !keep(s[i])
    requires forall j :: 0 <= j < |s| && j != i ==> keep(s[j])
    ensures Filter(keep, s) == s[..i] + s[i + 1..]
  {
    var tail := s[1..];
    if i == 0 {
      assert forall j :: 0 <= j < |tail| ==> keep(tail[j]) by {
        forall j | 0 <= j < |tail| ensures keep(tail[j]) {
          assert tail[j] == s[j + 1];
        }
      }
      assert Filter(keep, s) == Filter(keep, tail);
    } else {
      assert tail[i - 1] == s[i];
      forall j | 0 <= j < |tail| && j != i - 1 ensures keep(tail[j]) {
        assert tail[j] == s[j + 1];
      }
      FilterRemovesOne(keep, tail, i - 1);
      assert Filter(keep, s) == [s[0]] + (tail[..i - 1] + tail[i..]);
      assert [s[0]] + tail[..i - 1] == s[..i];
      assert tail[i..] == s[i + 1..];
    }
  }

  /** No element of `s` occurs twice. */
  predicate NoDuplicates<T(==)>(s: seq<T>) {
    forall i, j :: 0 <= i < j < |s| ==> s[i] != s[j]
  }

  /** Filtering a duplicate-free sequence leaves it duplicate-free. */
  lemma {:induction false} FilterNoDuplicates<T(!new)>(keep: T -> bool, s: seq<T>)
    requires NoDuplicates(s)
    ensures NoDuplicates(Filter(keep, s))
  {
    if s != [] {
      FilterNoDuplicates(keep, s[1..]);
      FilterMembers(keep, s[1..]);
      assert s[0] !in s[1..] by {
        forall j | 0 <= j < |s[1..]| ensures s[1..][j] != s[0] {
          assert s[1..][j] == s[j + 1];
        }
      }
    }
  }

  /** The filtered prefix of `s` is a prefix of the filtered `s`: filtering keeps the original order. */
  lemma FilterPrefix<T(!new)>(keep: T -> bool, s: seq<T>, k: nat)
    requires k <= |s|
    ensures var f := Filter(keep, s[..k]);
      |f| <= |Filter(keep, s)| && Filter(keep, s)[..|f|] == f
  {
    FilterConcat(keep, s[..k], s[k..]);
    assert s[..k] + s[k..] == s;
  }

  /** A duplicate-free sequence has as many distinct elements as positions. */
  lemma {:induction false} NoDuplicatesCardinality<T>(s: seq<T>)
    requires NoDuplicates(s)
    ensures |set x | x in s| == |s|
  {
    if s != [] {
      var rest := s[1..];
      NoDuplicatesCardinality(rest);
      assert (set x | x in s) == {s[0]} + (set x | x in rest);
      assert s[0] !in rest;
    }
  }
}
