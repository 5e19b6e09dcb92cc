/** src/server/MiscUtil.js: `clamp` and `uniq`. */
module MiscUtil {
  import opened JsMath

  /**
   * `clamp(num, min, max)` is `Math.min(Math.max(num, min), max)`: it lies in
   * `[lo, hi]` when that range is non-empty, returns `num` unchanged inside it,
   * and returns `hi` when `lo > hi`.
   */
  function Clamp(num: real, lo: real, hi: real): (r: real)
    ensures lo <= hi ==> lo <= r <= hi
    ensures lo <= num <= hi ==> r == num
    ensures lo <= hi && num < lo ==> r == lo
    ensures num > hi ==> r == hi
    ensures lo > hi ==> r == hi
  {
    Min(Max(num, lo), hi)
  }

  lemma ClampIdempotent(num: real, lo: real, hi: real)
    ensures Clamp(Clamp(num, lo, hi), lo, hi) == Clamp(num, lo, hi)
  {
  }

  predicate NoDuplicates<T(==)>(s: seq<T>) {
    forall i, j :: 0 <= i < j < |s| ==> s[i] != s[j]
  }

  /** `array.indexOf(x)`: the first index holding `x`, or -1. */
  function IndexOf<T(==)>(a: seq<T>, x: T): (i: int)
    ensures -1 <= i < |a|
    ensures i == -1 <==> x !in a
    ensures i >= 0 ==> a[i] == x && forall j :: 0 <= j < i ==> a[j] != x
  {
    if |a| == 0 then -1
    else if a[0] == x then 0
    else
      var k := IndexOf(a[1..], x);
      if k == -1 then -1 else k + 1
  }

  /**
   * `uniq(array)` is `array.filter((e, i) => array.indexOf(e) === i)`:
   * the elements whose first occurrence is at their own index.
   */
  function Uniq<T(==)>(a: seq<T>): seq<T> {
    FirstOccurrences(a, |a|)
  }

  /** The filter of `uniq` applied to the first `n` elements. */
  function FirstOccurrences<T(==)>(a: seq<T>, n: nat): seq<T>
    requires n <= |a|
  {
    if n == 0 then []
    else FirstOccurrences(a, n - 1) + (if IndexOf(a, a[n - 1]) == n - 1 then [a[n - 1]] else [])
  }

  lemma {:induction false} FirstOccurrencesFacts<T>(a: seq<T>, n: nat)
    requires n <= |a|
    ensures |FirstOccurrences(a, n)| <= n
    ensures forall x :: x in FirstOccurrences(a, n) <==> x in a[..n]
    ensures forall i :: 0 <= i < |FirstOccurrences(a, n)| ==> IndexOf(a, FirstOccurrences(a, n)[i]) < n
    ensures NoDuplicates(FirstOccurrences(a, n))
  {
    if n > 0 {
      FirstOccurrencesFacts(a, n - 1);
      var prev := FirstOccurrences(a, n - 1);
      var x := a[n - 1];
      assert a[..n] == a[..n - 1] + [x];
      if IndexOf(a, x) == n - 1 {
        assert x !in a[..n - 1];
        assert forall i :: 0 <= i < |prev| ==> prev[i] != x;
      } else {
        assert x in a[..n - 1] by {
          assert 0 <= IndexOf(a, x) < n - 1;
          assert a[..n - 1][IndexOf(a, x)] == x;
        }
      }
    }
  }

  /** The result of `uniq` has no duplicates. */
  lemma UniqNoDuplicates<T>(a: seq<T>)
    ensures NoDuplicates(Uniq(a))
  {
    FirstOccurrencesFacts(a, |a|);
  }

  /** `uniq` keeps exactly the elements of its input, and is no longer. */
  lemma UniqMembers<T>(a: seq<T>)
    ensures forall x :: x in Uniq(a) <==> x in a
    ensures |Uniq(a)| <= |a|
  {
    FirstOccurrencesFacts(a, |a|);
    assert a[..|a|] == a;
  }

  /** Appending does not change the first occurrences already seen. */
  lemma {:induction false} FirstOccurrencesAppend<T>(a: seq<T>, x: T, n: nat)
    requires n <= |a|
    ensures FirstOccurrences(a + [x], n) == FirstOccurrences(a, n)
  {
    if n > 0 {
      FirstOccurrencesAppend(a, x, n - 1);
      IndexOfAppend(a, x, a[n - 1]);
    }
  }

  lemma IndexOfAppend<T>(a: seq<T>, x: T, y: T)
    requires y in a
    ensures IndexOf(a + [x], y) == IndexOf(a, y)
  {
    var i, k := IndexOf(a + [x], y), IndexOf(a, y);
    assert (a + [x])[k] == y;
    assert i <= k;
    assert a[i] == (a + [x])[i];
  }

  /** `uniq` keeps first occurrences in their original order. */
  lemma UniqSnoc<T>(a: seq<T>, x: T)
    ensures Uniq(a + [x]) == Uniq(a) + (if x in a then [] else [x])
  {
    FirstOccurrencesAppend(a, x, |a|);
    if x !in a {
      assert IndexOf(a + [x], x) == |a| by {
        assert forall j :: 0 <= j < |a| ==> (a + [x])[j] == a[j];
      }
    } else {
      IndexOfAppend(a, x, x);
    }
  }

  /** A sequence without duplicates is its own `uniq`. */
  lemma {:induction false} UniqOfDistinct<T>(a: seq<T>)
    requires NoDuplicates(a)
    ensures Uniq(a) == a
  {
    if |a| > 0 {
      var init := a[..|a| - 1];
      assert a == init + [a[|a| - 1]];
      assert NoDuplicates(init);
      UniqOfDistinct(init);
      UniqSnoc(init, a[|a| - 1]);
    }
  }

  /** `uniq` is idempotent. */
  lemma UniqIdempotent<T>(a: seq<T>)
    ensures Uniq(Uniq(a)) == Uniq(a)
  {
    UniqNoDuplicates(a);
    UniqOfDistinct(Uniq(a));
  }
}
