/** Median, extremes and three-digit rounding of timing samples. */
module Statistics {
  import opened Sorting

  predicate AtMost(a: real, b: real) {
    a <= b
  }

  /** round(x, 3): to the nearest thousandth, a tie to the even one. */
  function Round3(x: real): real {
    NearestInteger(x * 1000.0) as real / 1000.0
  }

  function RoundAll(values: seq<real>): seq<real> {
    seq(|values|, i requires 0 <= i < |values| => Round3(values[i]))
  }

  lemma RoundMonotone(a: real, b: real)
    requires a <= b
    ensures Round3(a) <= Round3(b)
  {
    var x, y := a * 1000.0, b * 1000.0;
    assert x <= y;
    assert x.Floor <= y.Floor;
  }

  /** No thousandth is nearer, and of two as near the even one is taken. */
  lemma RoundIsNearest(x: real)
    ensures var n := (Round3(x) * 1000.0).Floor;
      && n as real == Round3(x) * 1000.0 && -0.5 <= n as real - x * 1000.0 <= 0.5
      && (n as real - x * 1000.0 == 0.5 || n as real - x * 1000.0 == -0.5 ==> n % 2 == 0)
  {
    var n := NearestInteger(x * 1000.0);
    assert Round3(x) == n as real / 1000.0;
    assert Round3(x) * 1000.0 == n as real;
  }

  /** The integer nearest to y, the even one of two. */
  function NearestInteger(y: real): (n: int)
    ensures -0.5 <= n as real - y <= 0.5
    ensures n as real - y == 0.5 || n as real - y == -0.5 ==> n % 2 == 0
  {
    var f := y.Floor;
    var d := y - f as real;
    if d < 0.5 || (d == 0.5 && f % 2 == 0) then f else f + 1
  }

  /** statistics.median: the middle of the sorted samples, or the mean of the middle two. */
  function Median(values: seq<real>): real
    requires values != []
  {
    SortElements(values, AtMost);
    var s, n := Sort(values, AtMost), |values|;
    if n % 2 == 1 then s[n/2] else (s[n/2-1] + s[n/2]) / 2.0
  }

  function Min(values: seq<real>): (m: real)
    requires values != []
    ensures m in values && forall i | 0 <= i < |values| :: m <= values[i]
  {
    if |values| == 1 then values[0]
    else
      var m := Min(values[1..]);
      assert forall i | 0 < i < |values| :: values[i] == values[1..][i-1];
      if values[0] <= m then values[0] else m
  }

  function Max(values: seq<real>): (m: real)
    requires values != []
    ensures m in values && forall i | 0 <= i < |values| :: values[i] <= m
  {
    if |values| == 1 then values[0]
    else
      var m := Max(values[1..]);
      assert forall i | 0 < i < |values| :: values[i] == values[1..][i-1];
      if values[0] >= m then values[0] else m
  }

  /** Half of the samples are on either side of the median, so it lies between the
      extremes, and rounding keeps it there. */
  lemma MedianBetween(values: seq<real>)
    requires values != []
    ensures Min(values) <= Median(values) <= Max(values)
    ensures Round3(Min(values)) <= Round3(Median(values)) <= Round3(Max(values))
  {
    var s, n := Sort(values, AtMost), |values|;
    SortElements(values, AtMost);
    assert forall i | 0 <= i < n :: s[i] in s && s[i] in values;
    RoundMonotone(Min(values), Median(values));
    RoundMonotone(Median(values), Max(values));
  }

  /** However the samples are put in ascending order, at least half are on either side of the
      median and it is as far from the last of the lower half as from the first of the upper;
      for an odd number of samples these are the same one. */
  lemma MedianHalves(values: seq<real>, s: seq<real>)
    requires values != [] && multiset(s) == multiset(values) && forall i, j | 0 <= i < j < |s| :: s[i] <= s[j]
    ensures var n, m := |values|, Median(values);
      && |s| == n && m - s[(n - 1) / 2] == s[n / 2] - m
      && (forall i | 0 <= i <= (n - 1) / 2 :: s[i] <= m) && (forall i | n / 2 <= i < n :: m <= s[i])
  {
    var n := |values|;
    AscendingIsSorted(values, s);
    Midpoint(s[(n - 1) / 2], s[n / 2]);
    Halves(n);
  }

  lemma AscendingIsSorted(values: seq<real>, s: seq<real>)
    requires multiset(s) == multiset(values) && forall i, j | 0 <= i < j < |s| :: s[i] <= s[j]
    ensures s == Sort(values, AtMost) && |s| == |values|
  {
    SortElements(values, AtMost);
    SortSorts(values, AtMost);
    assert Sorted(s, AtMost);
    SortedIsUnique(s, Sort(values, AtMost), AtMost);
  }

  lemma Halves(n: nat)
    requires n > 0
    ensures (n - 1) / 2 == if n % 2 == 1 then n / 2 else n / 2 - 1
  {}

  lemma Midpoint(a: real, b: real)
    ensures (a + b) / 2.0 - a == b - (a + b) / 2.0
  {}
}
