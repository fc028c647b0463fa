/** Sums, minima and maxima of integer sequences. Each is defined by peeling off
    the last element, so that a loop over a growing prefix extends it one step at a time. */
module SeqMath {

  function Sum(s: seq<int>): int
  {
    if |s| == 0 then 0 else Sum(s[..|s| - 1]) + s[|s| - 1]
  }

  function MinOf(s: seq<int>): (r: int)
    requires |s| > 0
    ensures r in s && forall x :: x in s ==> r <= x
  {
    if |s| == 1 then s[0]
    else
      var init, x := s[..|s| - 1], s[|s| - 1];
      var m := MinOf(init);
      assert forall y :: y in s <==> y in init || y == x by { assert s == init + [x]; }
      if x < m then x else m
  }

  function MaxOf(s: seq<int>): (r: int)
    requires |s| > 0
    ensures r in s && forall x :: x in s ==> x <= r
  {
    if |s| == 1 then s[0]
    else
      var init, x := s[..|s| - 1], s[|s| - 1];
      var m := MaxOf(init);
      assert forall y :: y in s <==> y in init || y == x by { assert s == init + [x]; }
      if x > m then x else m
  }

  lemma SumSnoc(s: seq<int>, x: int)
    ensures Sum(s + [x]) == Sum(s) + x
  {
    assert (s + [x])[..|s|] == s;
  }

  /** A sum of elements that all lie in [lo, hi] lies between |s| * lo and |s| * hi. */
  lemma {:induction false} SumWithin(s: seq<int>, lo: int, hi: int)
    requires forall x :: x in s ==> lo <= x <= hi
    ensures |s| * lo <= Sum(s) <= |s| * hi
  {
    if |s| > 0 {
      var init := s[..|s| - 1];
      assert forall x :: x in init ==> x in s;
      assert s[|s| - 1] in s;
      SumWithin(init, lo, hi);
      assert |s| * lo == |init| * lo + lo;
      assert |s| * hi == |init| * hi + hi;
    }
  }

  lemma MulMonotone(x: int, y: int, n: int)
    requires x <= y && n >= 0
    ensures x * n <= y * n
  {
    assert y * n - x * n == (y - x) * n;
  }
}
