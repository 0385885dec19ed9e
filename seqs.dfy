/**
  Sequence helpers shared by the queries and the delete rules: `Filter` is a
  queryset's `.filter(...)` (order kept), and `Pairwise` states an ordering or a
  distinctness rule over every pair of positions.
*/
module Seqs {

  /** The elements of `s` that satisfy `f`, in their original order. */
  function Filter<T(!new)>(s: seq<T>, f: T -> bool): (r: seq<T>)
    ensures |r| <= |s|
    ensures forall x :: x in r <==> x in s && f(x)
  {
    if s == [] then []
    else
      assert s == [s[0]] + s[1..];
      (if f(s[0]) then [s[0]] else []) + Filter(s[1..], f)
  }

  /** `R` holds of every pair of elements, the earlier one first. */
  ghost predicate Pairwise<T>(s: seq<T>, R: (T, T) -> bool) {
    forall i, j :: 0 <= i < j < |s| ==> R(s[i], s[j])
  }

  lemma PairwiseCons<T>(x: T, s: seq<T>, R: (T, T) -> bool)
    ensures Pairwise([x] + s, R) <==> (forall y :: y in s ==> R(x, y)) && Pairwise(s, R)
  {
    var t := [x] + s;
    if Pairwise(t, R) {
      forall y | y in s ensures R(x, y) {
        var k :| 0 <= k < |s| && s[k] == y;
        assert t[0] == x && t[k + 1] == y;
      }
      forall i, j | 0 <= i < j < |s| ensures R(s[i], s[j]) {
        assert t[i + 1] == s[i] && t[j + 1] == s[j];
      }
    }
    if (forall y :: y in s ==> R(x, y)) && Pairwise(s, R) {
      forall i, j | 0 <= i < j < |t| ensures R(t[i], t[j]) {
        if i == 0 {
          assert t[j] == s[j - 1];
        } else {
          assert t[i] == s[i - 1] && t[j] == s[j - 1];
        }
      }
    }
  }

  /** Filtering keeps any pairwise rule, in particular an ordering. */
  lemma {:induction false} FilterPairwise<T(!new)>(s: seq<T>, f: T -> bool, R: (T, T) -> bool)
    requires Pairwise(s, R)
    ensures Pairwise(Filter(s, f), R)
  {
    if s != [] {
      assert s == [s[0]] + s[1..];
      PairwiseCons(s[0], s[1..], R);
      FilterPairwise(s[1..], f, R);
      if f(s[0]) {
        PairwiseCons(s[0], Filter(s[1..], f), R);
      } else {
        assert Filter(s, f) == Filter(s[1..], f);
      }
    }
  }

  /** Filtering with a condition every element meets changes nothing. */
  lemma {:induction false} FilterKeepsAll<T(!new)>(s: seq<T>, f: T -> bool)
    requires forall x :: x in s ==> f(x)
    ensures Filter(s, f) == s
  {
    if s != [] {
      assert s == [s[0]] + s[1..];
      FilterKeepsAll(s[1..], f);
    }
  }

  /** Filtering distributes over concatenation. */
  lemma {:induction false} FilterConcat<T(!new)>(a: seq<T>, b: seq<T>, f: T -> bool)
    ensures Filter(a + b, f) == Filter(a, f) + Filter(b, f)
  {
    if a == [] {
      assert a + b == b;
    } else {
      assert (a + b)[0] == a[0] && (a + b)[1..] == a[1..] + b;
      FilterConcat(a[1..], b, f);
    }
  }

  /** Filtering a sequence with a new first element. */
  lemma FilterCons<T(!new)>(x: T, s: seq<T>, f: T -> bool)
    ensures Filter([x] + s, f) == (if f(x) then [x] else []) + Filter(s, f)
  {
    assert ([x] + s)[0] == x && ([x] + s)[1..] == s;
  }
}
