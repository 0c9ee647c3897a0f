/** Selecting a few records around each percentile of interest. */
module InferenceSampler {
  import opened Collections

  /** Records in `[percentile, percentile + error)` count as being at the percentile. */
  datatype PercentileRange = PercentileRange(percentile: real, error: real)

  const WANTED_PERCENTILES := [
    PercentileRange(50.0, 1.0), PercentileRange(75.0, 1.0), PercentileRange(90.0, 1.0),
    PercentileRange(99.0, 0.5), PercentileRange(99.9, 0.05), PercentileRange(99.99, 0.005)]

  const MAX_SELECTED_PER_PERCENTILE := 10

  predicate GreaterThan(percentile: real, wanted: PercentileRange) {
    percentile >= wanted.percentile + wanted.error
  }

  predicate LessThan(percentile: real, wanted: PercentileRange) {
    percentile < wanted.percentile
  }

  predicate WithinRange(percentile: real, wanted: PercentileRange) {
    !GreaterThan(percentile, wanted) && !LessThan(percentile, wanted)
  }

  /** The percentile of the `k`-th of `n` records. */
  function Percentile(k: nat, n: nat): real
    requires n > 0
  {
    100.0 * k as real / n as real
  }

  lemma Divide(x: real, y: real, d: real)
    requires x <= y && d > 0.0
    ensures x / d <= y / d
  {
    assert y / d - x / d == (y - x) / d;
  }

  lemma PercentileGrows(j: nat, k: nat, n: nat)
    requires n > 0 && j <= k
    ensures Percentile(j, n) <= Percentile(k, n)
  {
    Divide(100.0 * j as real, 100.0 * k as real, n as real);
  }

  // What is to be selected, said without a scan.

  /** All of the first `k` records whose percentile lies in the range, in order. */
  function Within(n: nat, wanted: PercentileRange, k: nat): (r: seq<nat>)
    requires n > 0
    ensures forall i :: 0 <= i < |r| ==> r[i] < k
    ensures forall j: nat :: j in r <==> j < k && WithinRange(Percentile(j, n), wanted)
    ensures forall i, j :: 0 <= i < j < |r| ==> r[i] < r[j]
  {
    if k == 0 then []
    else
      var front := Within(n, wanted, k - 1);
      if WithinRange(Percentile(k - 1, n), wanted) then front + [k - 1] else front
  }

  /** No more of them than may be shown. */
  function Capped(indices: seq<nat>): seq<nat> {
    indices[..Min(|indices|, MAX_SELECTED_PER_PERCENTILE)]
  }

  /** The first few records of each range. */
  function Chosen(n: nat, ranges: seq<PercentileRange>): (r: seq<nat>)
    requires n > 0
    ensures forall i :: 0 <= i < |r| ==> r[i] < n
  {
    if ranges == [] then []
    else
      Chosen(n, ranges[..|ranges| - 1]) + Capped(Within(n, ranges[|ranges| - 1], n))
  }

  function Record<D>(data: seq<D>, i: nat): (D, real)
    requires i < |data|
  {
    (data[i], Percentile(i, |data|))
  }

  function Records<D>(data: seq<D>, indices: seq<nat>): (r: seq<(D, real)>)
    requires data != [] && forall k :: 0 <= k < |indices| ==> indices[k] < |data|
    ensures |r| == |indices| && forall k :: 0 <= k < |r| ==> r[k] == Record(data, indices[k])
  {
    seq(|indices|, k requires 0 <= k < |indices| => Record(data, indices[k]))
  }

  lemma RecordsConcat<D>(data: seq<D>, a: seq<nat>, b: seq<nat>)
    requires data != []
    requires forall k :: 0 <= k < |a| ==> a[k] < |data|
    requires forall k :: 0 <= k < |b| ==> b[k] < |data|
    ensures Records(data, a + b) == Records(data, a) + Records(data, b)
  {
  }

  lemma RecordsAppend<D>(data: seq<D>, indices: seq<nat>, k: nat)
    requires k < |data| && forall j :: 0 <= j < |indices| ==> indices[j] < |data|
    ensures Records(data, indices + [k]) == Records(data, indices) + [(data[k], Percentile(k, |data|))]
  {
    assert Record(data, k) == (data[k], Percentile(k, |data|));
  }

  /** No range begins before the previous one ends. */
  ghost predicate Ascending(ranges: seq<PercentileRange>) {
    && (forall i :: 0 <= i < |ranges| ==> ranges[i].error >= 0.0)
    && forall i :: 0 < i < |ranges| ==> ranges[i - 1].percentile + ranges[i - 1].error <= ranges[i].percentile
  }

  lemma WantedAscend()
    ensures Ascending(WANTED_PERCENTILES)
  {
    var w := WANTED_PERCENTILES;
    assert w[0].percentile + w[0].error <= w[1].percentile && w[1].percentile + w[1].error <= w[2].percentile;
    assert w[2].percentile + w[2].error <= w[3].percentile && w[3].percentile + w[3].error <= w[4].percentile;
    assert w[4].percentile + w[4].error <= w[5].percentile;
  }

  /** The first `k` records all lie below a percentile. */
  ghost predicate Below(n: nat, bound: real, k: nat)
    requires n > 0
  {
    forall j: nat :: j < k ==> Percentile(j, n) < bound
  }

  lemma BelowStep(n: nat, bound: real, k: nat)
    requires n > 0
    ensures Below(n, bound, k + 1) <==> Below(n, bound, k) && Percentile(k, n) < bound
  {
  }

  lemma BelowHigher(n: nat, bound: real, higher: real, k: nat)
    requires n > 0 && Below(n, bound, k) && bound <= higher
    ensures Below(n, higher, k)
  {
  }

  /** Records past the range add nothing. */
  lemma {:induction false} NothingBeyond(n: nat, wanted: PercentileRange, k: nat, m: nat)
    requires n > 0 && k <= m && (k < m ==> GreaterThan(Percentile(k, n), wanted))
    ensures Within(n, wanted, m) == Within(n, wanted, k)
    decreases m
  {
    if k < m {
      PercentileGrows(k, m - 1, n);
      NothingBeyond(n, wanted, k, m - 1);
    }
  }

  /** Records before the range add nothing. */
  lemma {:induction false} NothingBefore(n: nat, wanted: PercentileRange, k: nat)
    requires n > 0 && Below(n, wanted.percentile, k)
    ensures Within(n, wanted, k) == []
  {
    if k > 0 { NothingBefore(n, wanted, k - 1); }
  }

  lemma CappedStep(n: nat, wanted: PercentileRange, k: nat)
    requires n > 0
    ensures var capped := Capped(Within(n, wanted, k));
      Capped(Within(n, wanted, k + 1))
      == if WithinRange(Percentile(k, n), wanted) && |capped| < MAX_SELECTED_PER_PERCENTILE then capped + [k]
         else capped
  {
  }

  /** The records selected for one range after looking at the first `k`. */
  function SelectedSoFar<D>(data: seq<D>, wanted: PercentileRange, k: nat): seq<(D, real)>
    requires data != [] && k <= |data|
  {
    Records(data, Capped(Within(|data|, wanted, k)))
  }

  lemma SelectedStep<D>(data: seq<D>, wanted: PercentileRange, k: nat)
    requires k < |data|
    ensures var before, p := SelectedSoFar(data, wanted, k), Percentile(k, |data|);
      SelectedSoFar(data, wanted, k + 1)
      == if WithinRange(p, wanted) && |before| < MAX_SELECTED_PER_PERCENTILE then before + [(data[k], p)] else before
  {
    CappedStep(|data|, wanted, k);
    RecordsAppend(data, Capped(Within(|data|, wanted, k)), k);
  }

  lemma SelectedAtStart<D>(data: seq<D>, wanted: PercentileRange, start: nat)
    requires data != [] && start <= |data| && Below(|data|, wanted.percentile, start)
    ensures SelectedSoFar(data, wanted, start) == []
  {
    NothingBefore(|data|, wanted, start);
  }

  lemma SelectedBeyond<D>(data: seq<D>, wanted: PercentileRange, k: nat)
    requires k < |data| && GreaterThan(Percentile(k, |data|), wanted)
    ensures SelectedSoFar(data, wanted, |data|) == SelectedSoFar(data, wanted, k)
  {
    NothingBeyond(|data|, wanted, k, |data|);
  }

  /** Scans one range from `start` and stops at the first record beyond it, where
      the scan for the next range will start. */
  method SelectRange<D>(data: seq<D>, wanted: PercentileRange, start: nat)
    returns (selected: seq<(D, real)>, next: nat)
    requires data != [] && start <= |data| && wanted.error >= 0.0
    requires Below(|data|, wanted.percentile, start)
    ensures start <= next <= |data|
    ensures selected == SelectedSoFar(data, wanted, |data|)
    ensures Below(|data|, wanted.percentile + wanted.error, next)
    ensures
      || (next < |data| && GreaterThan(Percentile(next, |data|), wanted))
      || (next == start && Below(|data|, wanted.percentile + wanted.error, |data|))
  {
    selected, next := [], start;
    SelectedAtStart(data, wanted, start);
    BelowHigher(|data|, wanted.percentile, wanted.percentile + wanted.error, start);
    for k := start to |data|
      invariant Below(|data|, wanted.percentile + wanted.error, k)
      invariant selected == SelectedSoFar(data, wanted, k)
      invariant next == start
    {
      var percentile := Percentile(k, |data|);
      if GreaterThan(percentile, wanted) {
        SelectedBeyond(data, wanted, k);
        next := k;
        return;
      }
      BelowStep(|data|, wanted.percentile + wanted.error, k);
      SelectedStep(data, wanted, k);
      if WithinRange(percentile, wanted) {
        if |selected| < MAX_SELECTED_PER_PERCENTILE {
          selected := selected + [(data[k], percentile)];
        }
      }
    }
  }

  /** Selects by percentile, each range resuming where the last one stopped. */
  method SelectByPercentile<D>(data: seq<D>, ranges: seq<PercentileRange>) returns (selected: seq<(D, real)>)
    requires data != [] && Ascending(ranges)
    ensures selected == Records(data, Chosen(|data|, ranges))
  {
    selected := [];
    var next := 0;
    for i := 0 to |ranges|
      invariant next <= |data|
      invariant i < |ranges| ==> Below(|data|, ranges[i].percentile, next)
      invariant selected == Records(data, Chosen(|data|, ranges[..i]))
    {
      var some: seq<(D, real)>;
      some, next := SelectRange(data, ranges[i], next);
      if i + 1 < |ranges| {
        BelowHigher(|data|, ranges[i].percentile + ranges[i].error, ranges[i + 1].percentile, next);
      }
      assert ranges[..i + 1][..i] == ranges[..i];
      RecordsConcat(data, Chosen(|data|, ranges[..i]), Capped(Within(|data|, ranges[i], |data|)));
      selected := selected + some;
    }
    assert ranges[..|ranges|] == ranges;
  }

  /** The selection is strictly increasing across all ranges and never exceeds ten
      records for each. */
  lemma {:induction false} ChosenIncrease(n: nat, ranges: seq<PercentileRange>)
    requires n > 0 && Ascending(ranges)
    ensures var c := Chosen(n, ranges);
      && (forall a, b :: 0 <= a < b < |c| ==> c[a] < c[b])
      && |c| <= |ranges| * MAX_SELECTED_PER_PERCENTILE
    ensures ranges != [] ==>
              forall k :: 0 <= k < |Chosen(n, ranges)| ==>
                !GreaterThan(Percentile(Chosen(n, ranges)[k], n), ranges[|ranges| - 1])
    decreases |ranges|
  {
    if ranges != [] {
      var m := |ranges| - 1;
      ChosenIncrease(n, ranges[..m]);
      var before, all := Chosen(n, ranges[..m]), Within(n, ranges[m], n);
      forall k | 0 <= k < |before| ensures LessThan(Percentile(before[k], n), ranges[m]) {
        assert m > 0 && ranges[..m][m - 1] == ranges[m - 1];
      }
      BothIncrease(n, ranges[m], before, all);
    }
  }

  /** Records before a range come before the records in it. */
  lemma BothIncrease(n: nat, wanted: PercentileRange, before: seq<nat>, all: seq<nat>)
    requires n > 0 && wanted.error >= 0.0 && all == Within(n, wanted, n)
    requires forall a, b :: 0 <= a < b < |before| ==> before[a] < before[b]
    requires forall k :: 0 <= k < |before| ==> LessThan(Percentile(before[k], n), wanted)
    ensures var c := before + Capped(all);
      && (forall a, b :: 0 <= a < b < |c| ==> c[a] < c[b])
      && (forall k :: 0 <= k < |c| ==> !GreaterThan(Percentile(c[k], n), wanted))
  {
    forall b | 0 <= b < |all|
      ensures WithinRange(Percentile(all[b], n), wanted)
      ensures forall a :: 0 <= a < |before| ==> before[a] < all[b]
    {
      assert all[b] in all;
      forall a | 0 <= a < |before| ensures before[a] < all[b] {
        if all[b] <= before[a] { PercentileGrows(all[b], before[a], n); }
      }
    }
  }

  /** At most sixty records are selected, each at most once and in order. */
  lemma SelectionIsBounded(n: nat)
    requires n > 0
    ensures |Chosen(n, WANTED_PERCENTILES)| <= 60
    ensures forall a, b :: 0 <= a < b < |Chosen(n, WANTED_PERCENTILES)| ==>
              Chosen(n, WANTED_PERCENTILES)[a] < Chosen(n, WANTED_PERCENTILES)[b]
  {
    WantedAscend();
    ChosenIncrease(n, WANTED_PERCENTILES);
  }

  /** Between two members of a range lies no record outside it. */
  lemma NoGap(n: nat, wanted: PercentileRange, lo: nat, mid: nat, hi: nat)
    requires n > 0 && lo < mid < hi < n
    requires WithinRange(Percentile(lo, n), wanted) && WithinRange(Percentile(hi, n), wanted)
    ensures WithinRange(Percentile(mid, n), wanted)
  {
    PercentileGrows(lo, mid, n);
    PercentileGrows(mid, hi, n);
  }

  /** The records in one range are neighbours: the capped ones are a run that starts
      with the first record in the range. */
  lemma {:induction false} RangeIsARun(n: nat, wanted: PercentileRange, i: nat)
    requires n > 0 && i < |Within(n, wanted, n)|
    ensures Within(n, wanted, n)[i] == Within(n, wanted, n)[0] + i
  {
    if i > 0 {
      RangeIsARun(n, wanted, i - 1);
      NextInRange(n, wanted, i);
    }
  }

  lemma NextInRange(n: nat, wanted: PercentileRange, i: nat)
    requires n > 0 && 0 < i < |Within(n, wanted, n)|
    ensures Within(n, wanted, n)[i] == Within(n, wanted, n)[i - 1] + 1
  {
    var all := Within(n, wanted, n);
    var k := all[i - 1];
    assert k in all && all[i] in all;
    if k + 1 != all[i] { NoGap(n, wanted, k, k + 1, all[i]); }
    assert k + 1 in all;
    var j :| 0 <= j < |all| && all[j] == k + 1;
    assert i - 1 < j <= i;
  }

  // The selection in numbers.

  lemma Quotient(x: real, y: real, d: real)
    requires d > 0.0
    ensures x / d < y <==> x < y * d
  {
    assert (x / d) * d == x;
    if x / d < y { Product(x / d, y, d); }
    if y <= x / d { Product(y, x / d, d); }
  }

  lemma Product(x: real, y: real, d: real)
    requires d > 0.0
    ensures x < y ==> x * d < y * d
    ensures x <= y ==> x * d <= y * d
  {
    assert (y - x) * d == y * d - x * d;
  }

  /** A percentile is below a bound when a hundred times the index is below its share. */
  lemma PercentileBelow(k: nat, n: nat, bound: real)
    requires n > 0
    ensures Percentile(k, n) < bound <==> 100.0 * k as real < bound * n as real
    ensures Percentile(k, n) * n as real == 100.0 * k as real
  {
    Quotient(100.0 * k as real, bound, n as real);
  }

  /** Among the first ten of a range: in it, and ten records earlier not yet. */
  lemma CappedMembers(n: nat, wanted: PercentileRange, k: nat)
    requires n > 0 && k < n
    ensures k in Capped(Within(n, wanted, n))
       <==> WithinRange(Percentile(k, n), wanted)
            && (k >= MAX_SELECTED_PER_PERCENTILE ==> LessThan(Percentile(k - MAX_SELECTED_PER_PERCENTILE, n), wanted))
  {
    var all := Within(n, wanted, n);
    assert k in Capped(all) ==> k in all;
    if WithinRange(Percentile(k, n), wanted) {
      assert k in all;
      var i :| 0 <= i < |all| && all[i] == k;
      RangeIsARun(n, wanted, i);
      InFirst(all, i);
      if i >= MAX_SELECTED_PER_PERCENTILE {
        RangeIsARun(n, wanted, i - MAX_SELECTED_PER_PERCENTILE);
        assert all[i - MAX_SELECTED_PER_PERCENTILE] in all;
      } else if k >= MAX_SELECTED_PER_PERCENTILE {
        BeforeFirst(n, wanted, k - MAX_SELECTED_PER_PERCENTILE, k);
      }
    }
  }

  lemma InFirst(all: seq<nat>, i: nat)
    requires i < |all| && forall a, b :: 0 <= a < b < |all| ==> all[a] < all[b]
    ensures all[i] in Capped(all) <==> i < MAX_SELECTED_PER_PERCENTILE
  {
    if i < MAX_SELECTED_PER_PERCENTILE { assert Capped(all)[i] == all[i]; }
  }

  /** A record that comes before the first of a range lies below it. */
  lemma BeforeFirst(n: nat, wanted: PercentileRange, j: nat, k: nat)
    requires n > 0 && j < k < n && WithinRange(Percentile(k, n), wanted)
    requires Within(n, wanted, n) != [] && j < Within(n, wanted, n)[0]
    ensures LessThan(Percentile(j, n), wanted)
  {
    var all := Within(n, wanted, n);
    PercentileGrows(j, k, n);
    assert forall i :: 0 <= i < |all| ==> all[0] <= all[i];
    assert j !in all;
  }

  ghost predicate InSome(n: nat, ranges: seq<PercentileRange>, k: nat)
    requires n > 0
  {
    exists i :: 0 <= i < |ranges| && k in Capped(Within(n, ranges[i], n))
  }

  lemma InOneMore(n: nat, ranges: seq<PercentileRange>, last: PercentileRange, k: nat)
    requires n > 0
    ensures InSome(n, ranges + [last], k) <==> InSome(n, ranges, k) || k in Capped(Within(n, last, n))
  {
    var more := ranges + [last];
    assert more[|ranges|] == last;
    forall i | 0 <= i < |ranges| ensures more[i] == ranges[i] {}
  }

  lemma {:induction false} ChosenMembers(n: nat, ranges: seq<PercentileRange>, k: nat)
    requires n > 0
    ensures k in Chosen(n, ranges) <==> InSome(n, ranges, k)
    decreases |ranges|
  {
    if ranges != [] {
      var front, last := ranges[..|ranges| - 1], ranges[|ranges| - 1];
      assert ranges == front + [last];
      ChosenMembers(n, front, k);
      InOneMore(n, front, last, k);
      InEither(Chosen(n, front), Capped(Within(n, last, n)), k);
    }
  }

  lemma InEither(a: seq<nat>, b: seq<nat>, k: nat)
    ensures k in a + b <==> k in a || k in b
  {
  }

  /** Record `k` of `n` is among the first ten whose hundredfold index lies between
      these shares of `n`. */
  predicate IsNear(n: nat, k: nat, lo: real, hi: real) {
    && lo * n as real <= 100.0 * k as real < hi * n as real
    && 100.0 * (k - 10) as real < lo * n as real
  }

  lemma WithinInNumbers(n: nat, lo: real, error: real, k: nat)
    requires n > 0
    ensures WithinRange(Percentile(k, n), PercentileRange(lo, error))
       <==> lo * n as real <= 100.0 * k as real < (lo + error) * n as real
  {
    PercentileBelow(k, n, lo);
    PercentileBelow(k, n, lo + error);
  }

  lemma TenEarlier(n: nat, lo: real, error: real, k: nat)
    requires n > 0 && lo > 0.0
    ensures (k >= 10 ==> LessThan(Percentile(k - 10, n), PercentileRange(lo, error)))
       <==> 100.0 * (k - 10) as real < lo * n as real
  {
    if k >= 10 {
      PercentileBelow(k - 10, n, lo);
    } else {
      Product(0.0, lo, n as real);
    }
  }

  lemma NearMembers(n: nat, lo: real, error: real, k: nat)
    requires n > 0 && k < n && lo > 0.0
    ensures k in Capped(Within(n, PercentileRange(lo, error), n)) <==> IsNear(n, k, lo, lo + error)
  {
    CappedMembers(n, PercentileRange(lo, error), k);
    WithinInNumbers(n, lo, error, k);
    TenEarlier(n, lo, error, k);
  }

  /** What is selected of more than sixty records. */
  predicate IsSelected(n: nat, k: nat) {
    || IsNear(n, k, 50.0, 51.0) || IsNear(n, k, 75.0, 76.0) || IsNear(n, k, 90.0, 91.0)
    || IsNear(n, k, 99.0, 99.5) || IsNear(n, k, 99.9, 99.95) || IsNear(n, k, 99.99, 99.995)
  }

  lemma InOneOfSix(n: nat, w: seq<PercentileRange>, k: nat)
    requires n > 0 && |w| == 6
    ensures InSome(n, w, k)
       <==> || k in Capped(Within(n, w[0], n)) || k in Capped(Within(n, w[1], n)) || k in Capped(Within(n, w[2], n))
            || k in Capped(Within(n, w[3], n)) || k in Capped(Within(n, w[4], n)) || k in Capped(Within(n, w[5], n))
  {
    if InSome(n, w, k) {
      var i :| 0 <= i < |w| && k in Capped(Within(n, w[i], n));
      assert i == 0 || i == 1 || i == 2 || i == 3 || i == 4 || i == 5;
    }
  }

  lemma ChosenAreSelected(n: nat, k: nat)
    requires n > 0 && k < n
    ensures k in Chosen(n, WANTED_PERCENTILES) <==> IsSelected(n, k)
  {
    ChosenMembers(n, WANTED_PERCENTILES, k);
    InOneOfSix(n, WANTED_PERCENTILES, k);
    NearMembers(n, 50.0, 1.0, k);
    NearMembers(n, 75.0, 1.0, k);
    NearMembers(n, 90.0, 1.0, k);
    NearMembers(n, 99.0, 0.5, k);
    NearMembers(n, 99.9, 0.05, k);
    NearMembers(n, 99.99, 0.005, k);
  }

  /** The middle record is always selected. */
  lemma MiddleIsSelected(n: nat)
    requires n > 60
    ensures IsSelected(n, (n + 1) / 2)
  {
    var k := (n + 1) / 2;
    assert 2 * k == n || 2 * k == n + 1;
    assert IsNear(n, k, 50.0, 51.0);
  }

  /** Records at increasing positions, each with its percentile. */
  ghost predicate IsSelection<D>(data: seq<D>, selected: seq<(D, real)>, indices: seq<nat>) {
    && |selected| == |indices|
    && (forall i, j :: 0 <= i < j < |indices| ==> indices[i] < indices[j])
    && forall i :: 0 <= i < |indices| ==>
         && indices[i] < |data| && selected[i].0 == data[indices[i]]
         && selected[i].1 * |data| as real == 100.0 * indices[i] as real
  }

  /** Few records are all selected; of many, those that the ranges select. */
  ghost predicate AreSelected(n: nat, indices: seq<nat>) {
    forall k: nat :: k < n ==> (k in indices <==> n <= 60 || IsSelected(n, k))
  }

  lemma RecordsAreSelection<D>(data: seq<D>, indices: seq<nat>)
    requires data != [] && forall k :: 0 <= k < |indices| ==> indices[k] < |data|
    requires forall i, j :: 0 <= i < j < |indices| ==> indices[i] < indices[j]
    ensures IsSelection(data, Records(data, indices), indices)
  {
    forall i | 0 <= i < |indices|
      ensures Records(data, indices)[i].0 == data[indices[i]]
      ensures Records(data, indices)[i].1 * |data| as real == 100.0 * indices[i] as real
    {
      PercentileBelow(indices[i], |data|, 0.0);
    }
  }

  /** Few records are all selected; of many, the first few of each range. */
  method SelectInternal<D>(data: seq<D>) returns (selected: seq<(D, real)>)
    ensures exists indices :: IsSelection(data, selected, indices) && AreSelected(|data|, indices)
  {
    ghost var indices: seq<nat>;
    if |data| <= |WANTED_PERCENTILES| * MAX_SELECTED_PER_PERCENTILE {
      selected, indices := [], [];
      for i := 0 to |data|
        invariant |indices| == i && forall k :: 0 <= k < i ==> indices[k] == k
        invariant data != [] ==> selected == Records(data, indices)
        invariant data == [] ==> selected == []
      {
        RecordsAppend(data, indices, i);
        selected, indices := selected + [(data[i], Percentile(i, |data|))], indices + [i];
      }
      forall k: nat | k < |data| ensures k in indices { assert indices[k] == k; }
      if data != [] { RecordsAreSelection(data, indices); }
    } else {
      WantedAscend();
      selected := SelectByPercentile(data, WANTED_PERCENTILES);
      indices := Chosen(|data|, WANTED_PERCENTILES);
      ChosenIncrease(|data|, WANTED_PERCENTILES);
      RecordsAreSelection(data, indices);
      forall k: nat | k < |data| ensures k in indices <==> IsSelected(|data|, k) { ChosenAreSelected(|data|, k); }
    }
    assert IsSelection(data, selected, indices) && AreSelected(|data|, indices);
  }
}
