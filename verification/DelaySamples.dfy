// Queue-delay samples with bounded storage: when the store passes its cap every
// second sample is dropped and only every `stride`-th new one is kept.
module DelaySamples {
  import opened Options

  /** The values at indices 0, s, 2s, ... */
  function Every(s: nat, h: seq<real>): (r: seq<real>)
    requires s > 0
    decreases |h|
  {
    if h == [] then []
    else if |h| <= s then [h[0]]
    else [h[0]] + Every(s, h[s..])
  }

  function Sum(h: seq<real>): real {
    if h == [] then 0.0 else Sum(h[..|h| - 1]) + h[|h| - 1]
  }

  ghost predicate PowerOfTwo(s: nat) {
    s == 1 || (s > 1 && s % 2 == 0 && PowerOfTwo(s / 2))
  }

  lemma SumAppend(h: seq<real>, x: real)
    ensures Sum(h + [x]) == Sum(h) + x
  {
    assert (h + [x])[..|h|] == h;
  }

  // ---------------------------------------------------------------------
  // Systematic samples
  // ---------------------------------------------------------------------

  lemma ModStep(n: nat, s: nat)
    requires 0 < s <= n
    ensures Due(n - s, s) <==> Due(n, s)
  {
    var q, r := n / s, n % s;
    assert n - s == (q - 1) * s + r;
    ModUnique(n - s, s, q - 1, r);
  }

  lemma ModUnique(n: nat, s: nat, q: int, r: nat)
    requires s > 0 && n == q * s + r && r < s
    ensures n % s == r
  {
    var d := n / s - q;
    assert n == (n / s) * s + n % s;
    assert d * s == r - n % s;
    AtLeastOne(d, s);
    AtLeastOne(-d, s);
  }

  lemma AtLeastOne(d: int, s: nat)
    ensures d > 0 ==> d * s >= s
  {
  }

  /** The stride divides the index. */
  predicate Due(n: nat, s: nat)
    requires s > 0
  {
    n % s == 0
  }

  /** A new value is sampled exactly when the stride divides its index. */
  lemma {:induction false} EveryAppend(s: nat, h: seq<real>, x: real)
    requires s > 0
    ensures Every(s, h + [x]) == Every(s, h) + if Due(|h|, s) then [x] else []
    decreases |h|
  {
    hide Due;
    if |h| < s {
      DueSmall(|h|, s);
    } else {
      ModStep(|h|, s);
      EveryAppend(s, h[s..], x);
      assert (h + [x])[s..] == h[s..] + [x];
      if |h| == s {
        assert h[s..] == [];
        DueSmall(0, s);
      }
    }
  }

  lemma DueSmall(n: nat, s: nat)
    requires n < s
    ensures Due(n, s) <==> n == 0
  {
  }

  /** Dropping every second sample is sampling with twice the stride. */
  lemma {:induction false} EveryHalved(s: nat, h: seq<real>)
    requires s > 0
    ensures Every(2, Every(s, h)) == Every(2 * s, h)
    decreases |h|
  {
    if |h| > 2 * s {
      assert Every(s, h)[2..] == Every(s, h[s..])[1..] == Every(s, h[s..][s..]);
      assert h[s..][s..] == h[2 * s..];
      EveryHalved(s, h[2 * s..]);
      EveryNonempty(s, h[s..]);
    } else if |h| > s {
      assert |Every(s, h[s..])| == 1;
    }
  }

  lemma EveryNonempty(s: nat, h: seq<real>)
    requires s > 0 && h != []
    ensures Every(s, h) != [] && Every(s, h)[0] == h[0]
  {
  }

  lemma {:induction false} HalvedLength(h: seq<real>)
    ensures 2 * |Every(2, h)| == |h| + |h| % 2
    decreases |h|
  {
    if |h| > 2 { HalvedLength(h[2..]); }
  }

  lemma {:induction false} EveryIndex(s: nat, h: seq<real>, k: nat)
    requires s > 0 && k < |Every(s, h)|
    ensures k * s < |h| && Every(s, h)[k] == h[k * s]
    decreases k
  {
    if k > 0 {
      EveryIndex(s, h[s..], k - 1);
      assert (k - 1) * s + s == k * s;
    }
  }

  lemma {:induction false} EveryLength(s: nat, h: seq<real>)
    requires s > 0
    ensures |h| <= |Every(s, h)| * s < |h| + s
    decreases |h|
  {
    if |h| > s {
      EveryLength(s, h[s..]);
      var n := |Every(s, h[s..])|;
      assert (n + 1) * s == n * s + s;
    }
  }

  class Samples {
    const cap: nat
    var stored: seq<real>
    var stride: nat
    var count: nat
    var sum: real
    ghost var history: seq<real>

    /** The store is exactly the systematic sample of everything ever added. */
    ghost predicate Valid()
      reads this
    {
      && cap >= 1
      && stride > 0 && PowerOfTwo(stride)
      && stored == Every(stride, history) && |stored| <= cap
      && (count > cap ==> 2 * |stored| > cap)
      && (count <= cap ==> stride == 1)
      && count == |history| && sum == Sum(history)
    }

    constructor (cap: nat)
      requires cap >= 1
      ensures Valid() && history == [] && this.cap == cap
    {
      this.cap := cap;
      stored, stride, count, sum := [], 1, 0, 0.0;
      history := [];
    }

    method Add(value: real)
      requires Valid()
      modifies this
      ensures Valid() && history == old(history) + [value]
      ensures old(stride) == stride || stride == 2 * old(stride)
    {
      hide Every, Sum;
      EveryAppend(stride, history, value);
      SumAppend(history, value);
      history := history + [value];
      count := count + 1;
      sum := sum + value;
      if (count - 1) % stride != 0 {
        assert stride != 1;
        return;
      }
      stored := stored + [value];
      if stride == 1 { EveryLength(1, history); }
      if |stored| > cap {
        EveryHalved(stride, history);
        HalvedLength(stored);
        EveryShorter(stride, history);
        stored := Every(2, stored);
        stride := stride * 2;
        assert PowerOfTwo(stride) by { assert stride / 2 == old(stride); }
      }
    }

    /** The summary of the stored samples; nothing when there are none. */
    method Summary() returns (r: Option<Summarized>)
      requires Valid()
      ensures r.None? <==> history == []
      ensures r.Some? ==> r.value.samples == |history| && IsRounded(r.value.mean, Sum(history) / |history| as real)
      ensures r.Some? ==> r.value.p50 <= r.value.p95
      ensures r.Some? ==>
        var ordered := Ordered(Every(stride, history));
        ShowsRank(ordered, 0.50, r.value.p50) && ShowsRank(ordered, 0.95, r.value.p95)
      ensures forall v :: v in Ordered(Every(stride, history)) ==> v in history
    {
      if stored == [] {
        EveryLength(stride, history);
        assert Ordered([]) == [];
        return None;
      }
      hide Every, Sum, PowerOfTwo, Rank, IsRounded, Rounded, ShowsRank;
      var ordered := Ordered(stored);
      PercentileMonotone(ordered, 0.50, 0.95);
      forall v | v in ordered ensures v in history { EveryFrom(stride, history, v); }
      RankShown(ordered, 0.50);
      RankShown(ordered, 0.95);
      var p50, p95, mean := Percentile(ordered, 0.50), Percentile(ordered, 0.95), sum / count as real;
      RoundedIff(Rounded(mean), mean);
      RoundedMonotone(p50, p95);
      r := Some(Summarized(Rounded(p50), Rounded(p95), Rounded(mean), count));
    }
  }

  lemma EveryShorter(s: nat, h: seq<real>)
    requires s > 0
    ensures |Every(s, h)| <= |h|
    decreases |h|
  {
  }

  // ---------------------------------------------------------------------
  // Rounding to three digits
  // ---------------------------------------------------------------------

  /** `round(x, 3)`. */
  function Rounded(x: real): real {
    var low := (1000.0 * x).Floor;
    var left := 1000.0 * x - low as real;
    (if left < 0.5 || (left == 0.5 && low % 2 == 0) then low else low + 1) as real / 1000.0
  }

  /** A whole number of thousandths nearest to x, the even one of two. */
  ghost predicate IsRounded(r: real, x: real) {
    && r * 1000.0 == (r * 1000.0).Floor as real
    && -0.0005 <= r - x <= 0.0005
    && (r - x == 0.0005 || r - x == -0.0005 ==> (r * 1000.0).Floor % 2 == 0)
  }

  /** Every value has one rounding, and that is what is computed. */
  lemma RoundedIff(r: real, x: real)
    ensures IsRounded(r, x) <==> r == Rounded(x)
  {
    var y := 1000.0 * x;
    var low, k := y.Floor, (r * 1000.0).Floor;
    if r * 1000.0 == k as real && -0.0005 <= r - x <= 0.0005 {
      assert -0.5 <= k as real - y <= 0.5;
      assert k == low || k == low + 1;
    }
    if r == Rounded(x) {
      assert r * 1000.0 == low as real || r * 1000.0 == (low + 1) as real;
    }
  }

  lemma RoundedMonotone(x: real, y: real)
    requires x <= y
    ensures Rounded(x) <= Rounded(y)
  {
    assert (1000.0 * x).Floor <= (1000.0 * y).Floor;
  }

  // ---------------------------------------------------------------------
  // Percentiles
  // ---------------------------------------------------------------------

  datatype Summarized = Summarized(p50: real, p95: real, mean: real, samples: nat)

  predicate IsOrdered(s: seq<real>) {
    forall i, j :: 0 <= i <= j < |s| ==> s[i] <= s[j]
  }

  function Insert(x: real, s: seq<real>): (r: seq<real>)
    ensures multiset(r) == multiset(s) + multiset{x}
    ensures forall y :: y in r <==> y == x || y in s
  {
    if s == [] || x <= s[0] then [x] + s
    else
      assert s == [s[0]] + s[1..];
      [s[0]] + Insert(x, s[1..])
  }

  lemma {:induction false} InsertOrdered(x: real, s: seq<real>)
    requires IsOrdered(s)
    ensures IsOrdered(Insert(x, s))
  {
    if s != [] && s[0] < x {
      InsertOrdered(x, s[1..]);
      var r := Insert(x, s[1..]);
      forall k | 0 <= k < |r| ensures s[0] <= r[k] {
        assert r[k] in r;
        if r[k] in s[1..] {
          var i :| 0 < i < |s| && s[i] == r[k];
        }
      }
    }
  }

  /** `sorted`. */
  function Ordered(s: seq<real>): (r: seq<real>)
    ensures IsOrdered(r) && multiset(r) == multiset(s)
    ensures forall y :: y in r <==> y in s
  {
    if s == [] then []
    else
      assert s == [s[0]] + s[1..];
      InsertOrdered(s[0], Ordered(s[1..]));
      Insert(s[0], Ordered(s[1..]))
  }

  /** `int`, which drops the fraction. */
  function Truncated(x: real): int {
    if x >= 0.0 then x.Floor else -(-x).Floor
  }

  function Rank(n: nat, q: real): (index: nat)
    requires n > 0
    ensures index < n
  {
    var raw := Truncated(q * n as real + 0.5) - 1;
    var least := if raw < n - 1 then raw else n - 1;
    if q <= 0.0 || least < 0 then 0 else least
  }

  /** The k-th of n values is the nearest to the rank `q`: k and `q * n` differ by at
      most a half, halves going up; below the first value it is the first. */
  predicate NearestRank(n: nat, q: real, k: nat) {
    1 <= k <= n && q * n as real < k as real + 0.5 && (k as real - 0.5 <= q * n as real || k == 1)
  }

  /** There is one such value, and it is the one that is taken. */
  lemma RankIff(n: nat, q: real, k: nat)
    requires n > 0 && 0.0 < q <= 1.0
    ensures NearestRank(n, q, k) <==> k == Rank(n, q) + 1
  {
    ScaledLess(n as real, 0.0, q);
    ScaledLess(n as real, q, 1.0);
    var y := q * n as real;
    assert 0.0 <= y <= n as real;
    var f := (y + 0.5).Floor;
    assert f as real <= y + 0.5 < f as real + 1.0;
    assert Truncated(y + 0.5) == f;
  }

  function Percentile(s: seq<real>, q: real): (v: real)
    requires s != []
    ensures v in s
  {
    s[Rank(|s|, q)]
  }

  /** The value of nearest rank, rounded. */
  ghost predicate ShowsRank(s: seq<real>, q: real, shown: real) {
    exists k :: NearestRank(|s|, q, k) && IsRounded(shown, s[k - 1])
  }

  lemma RankShown(s: seq<real>, q: real)
    requires s != [] && 0.0 < q <= 1.0
    ensures ShowsRank(s, q, Rounded(Percentile(s, q)))
  {
    hide Rank, Rounded, IsRounded, NearestRank;
    RankIff(|s|, q, Rank(|s|, q) + 1);
    RoundedIff(Rounded(Percentile(s, q)), Percentile(s, q));
  }

  /** Percentiles stay within the extremes and never fall as the rank rises. */
  lemma PercentileMonotone(s: seq<real>, q: real, r: real)
    requires s != [] && IsOrdered(s) && q <= r
    ensures s[0] <= Percentile(s, q) <= Percentile(s, r) <= s[|s| - 1]
  {
    hide Rank;
    RankMonotone(|s|, q, r);
  }

  lemma RankMonotone(n: nat, q: real, r: real)
    requires n > 0 && q <= r
    ensures Rank(n, q) <= Rank(n, r)
  {
    ScaledLess(n as real, q, r);
    TruncatedMonotone(q * n as real + 0.5, r * n as real + 0.5);
  }

  lemma ScaledLess(n: real, q: real, r: real)
    requires n >= 0.0 && q <= r
    ensures q * n <= r * n
  {
  }

  lemma TruncatedMonotone(x: real, y: real)
    requires x <= y
    ensures Truncated(x) <= Truncated(y)
  {
  }

  /** A percentile of the store is one of the values that were added. */
  lemma PercentileStored(stride: nat, history: seq<real>, q: real)
    requires stride > 0 && Every(stride, history) != []
    ensures Percentile(Ordered(Every(stride, history)), q) in history
  {
    var stored := Every(stride, history);
    hide Every, Rank, Ordered;
    var v := Percentile(Ordered(stored), q);
    assert v in stored;
    EveryFrom(stride, history, v);
  }

  lemma {:induction false} EveryFrom(s: nat, h: seq<real>, v: real)
    requires s > 0 && v in Every(s, h)
    ensures v in h
    decreases |h|
  {
    if |h| > s && v != h[0] { EveryFrom(s, h[s..], v); }
  }
}
