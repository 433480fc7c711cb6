/** Running statistics of packet lag times (bignum_sec_profiling.c): a sum, and a minimum and maximum for which
    zero means that there is none yet. */
module Lag {
  import opened Common
  import opened Codec
  import opened Bignum

  datatype Stats = Stats(sum: Num, min: Num, max: Num)

  const START := Stats(ZERO, ZERO, ZERO)

  /** The clock when a packet is injected, and the time stamp it carries. */
  datatype Sample = Sample(now: Num, stamp: Num)
  {
    predicate Clock() { now.positive && stamp.positive && now.Canonical() && stamp.Canonical() }

    function Lag(): int { now.Val() - stamp.Val() }
  }

  function Less(d: Num, min: Num): Num { if IsZero(min) || LessThan(d, min) then d else min }

  function Greater(d: Num, max: Num): Num { if IsZero(max) || GreaterThan(d, max) then d else max }

  /** One update; None if an assertion of the arithmetic fails. */
  function Update(s: Stats, x: Sample): Option<Stats> {
    match SubBelow(x.now, x.stamp)
    case None => None
    case Some(d) =>
      match Add(s.sum, d)
      case None => None
      case Some(sum) => Some(Stats(sum, Less(d, s.min), Greater(d, s.max)))
  }

  function Process(xs: seq<Sample>): Option<Stats> {
    if xs == [] then Some(START)
    else
      match Process(xs[..|xs| - 1])
      case None => None
      case Some(s) => Update(s, xs[|xs| - 1])
  }

  /** The average; for a zero sum only seconds and nanoseconds of `out` are set, not its sign. */
  function Average(out: Num, sum: Num, n: nat): Num
    requires n > 0 || IsZero(sum)
  {
    if IsZero(sum) then out.(sec := 0, nsec := 0) else Divs(sum, n, sum.sec % n)
  }

  // ---------------------------------------------------------------------------------------------
  // What the statistics are
  // ---------------------------------------------------------------------------------------------

  function Total(xs: seq<Sample>): int {
    if xs == [] then 0 else Total(xs[..|xs| - 1]) + xs[|xs| - 1].Lag()
  }

  const LIMIT: nat := (TWO64 - 1) * BILLION

  /** Samples from clocks, whose sums stay below the range of the seconds. */
  ghost predicate InRange(xs: seq<Sample>) {
    && (forall x :: x in xs ==> x.Clock())
    && (forall i :: 0 <= i <= |xs| ==> Abs(Total(xs[..i])) < LIMIT)
  }

  /** `m` is the least, or with `sign` -1 the greatest, lag of `xs`. */
  ghost predicate Extreme(sign: int, m: Num, xs: seq<Sample>) {
    && m.Canonical()
    && (xs == [] ==> m == ZERO)
    && (xs != [] ==>
          && !IsZero(m)
          && (forall x :: x in xs ==> sign * m.Val() <= sign * x.Lag())
          && exists x :: x in xs && m.Val() == x.Lag())
  }

  ghost predicate Exact(s: Stats, xs: seq<Sample>) {
    && s.sum.Fits() && s.sum.Val() == Total(xs)
    && Extreme(1, s.min, xs) && Extreme(-1, s.max, xs)
  }

  lemma DeltaExact(x: Sample)
    requires x.Clock()
    ensures SubBelow(x.now, x.stamp).None? <==> x.Lag() == 0
    ensures var d := SubBelow(x.now, x.stamp);
            d.Some? ==> d.value.Canonical() && d.value.Val() == x.Lag() && !IsZero(d.value)
  {
    SubExact(x.now, x.stamp);
    MagOrder(x.now, x.stamp);
    MagOrder(x.stamp, x.now);
  }

  lemma ExtremeStep(m: Num, d: Num, xs: seq<Sample>, x: Sample)
    requires d.Canonical() && !IsZero(d) && d.Val() == x.Lag()
    ensures Extreme(1, m, xs) ==> Extreme(1, Less(d, m), xs + [x])
    ensures Extreme(-1, m, xs) ==> Extreme(-1, Greater(d, m), xs + [x])
  {
    if m.Canonical() {
      ComparesValues(d, m);
      ComparesValues(m, d);
      assert x in xs + [x];
      assert forall y :: y in xs ==> y in xs + [x];
    }
  }

  /** A sum that is in range does not overflow. */
  lemma SumFits(sum: Num, d: Num)
    requires sum.Fits() && d.Fits() && sum.positive == d.positive && Abs(sum.Val() + d.Val()) < LIMIT
    ensures CarriedSec(sum, d) < TWO64
  {
    var s := CarriedSec(sum, d);
    assert sum.Mag() + d.Mag() == (sum.sec + d.sec) * BILLION + (sum.nsec + d.nsec);
    assert s * BILLION <= sum.Mag() + d.Mag();
    assert s >= TWO64 ==> s * BILLION >= TWO64 * BILLION;
  }

  /** One more sample: it is lost exactly if it is zero, or if the sum returns to zero and had its nanoseconds
      carried. */
  lemma UpdateExact(s: Stats, xs: seq<Sample>, x: Sample)
    requires Exact(s, xs) && x.Clock() && Abs(Total(xs) + x.Lag()) < LIMIT
    ensures Update(s, x).None? <==> x.Lag() == 0 || (Total(xs) + x.Lag() == 0 && s.sum.Canonical())
    ensures Update(s, x).Some? ==> Exact(Update(s, x).value, xs + [x])
  {
    DeltaExact(x);
    if x.Lag() != 0 {
      var d := SubBelow(x.now, x.stamp).value;
      SumStep(s.sum, d);
      ExtremeStep(s.min, d, xs, x);
      ExtremeStep(s.max, d, xs, x);
      assert (xs + [x])[..|xs|] == xs;
    }
  }

  lemma SumStep(sum: Num, d: Num)
    requires sum.Fits() && d.Canonical() && !IsZero(d) && Abs(sum.Val() + d.Val()) < LIMIT
    ensures Add(sum, d).None? <==> sum.Val() + d.Val() == 0 && sum.Canonical()
    ensures Add(sum, d).Some? ==> Add(sum, d).value.Fits() && Add(sum, d).value.Val() == sum.Val() + d.Val()
  {
    AddExact(sum, d);
    if sum.positive == d.positive {
      SumFits(sum, d);
    }
    SameMagnitude(sum, d);
  }

  lemma SameMagnitude(a: Num, b: Num)
    requires a.Fits() && b.Canonical()
    ensures a.SamePair(b) <==> a.Mag() == b.Mag() && a.Canonical()
    ensures b.Mag() == 0 <==> IsZero(b)
  {
    MagOrder(a, b);
    MagOrder(b, a);
  }

  /** After any history that was processed without a failed assertion, the sum is exact, and minimum and maximum
      are the least and the greatest lag, despite the zero that marks their absence. */
  lemma {:induction false} HistoryExact(xs: seq<Sample>)
    requires InRange(xs) && Process(xs).Some?
    ensures Exact(Process(xs).value, xs)
  {
    if xs != [] {
      var n := |xs| - 1;
      Prefixes(xs, n);
      HistoryExact(xs[..n]);
      UpdateExact(Process(xs[..n]).value, xs[..n], xs[n]);
      assert xs[..n] + [xs[n]] == xs;
    }
  }

  lemma Prefixes(xs: seq<Sample>, n: nat)
    requires InRange(xs) && n < |xs|
    ensures InRange(xs[..n]) && xs[n].Clock() && Abs(Total(xs[..n]) + xs[n].Lag()) < LIMIT
  {
    assert forall i :: 0 <= i <= n ==> xs[..n][..i] == xs[..i];
    assert xs[..n + 1][..n] == xs[..n] && Total(xs[..n + 1]) == Total(xs[..n]) + xs[n].Lag();
  }

  /** The sample after `n` fails: its lag is zero, or it returns the sum to zero from a carried number. */
  predicate FailsAt(xs: seq<Sample>, n: nat)
    requires n < |xs|
  {
    && Process(xs[..n]).Some?
    && (xs[n].Lag() == 0 || (Total(xs[..n + 1]) == 0 && Process(xs[..n]).value.sum.Canonical()))
  }

  /** A history is processed without failure exactly if no sample fails. */
  lemma {:induction false} HistoryProcessed(xs: seq<Sample>)
    requires InRange(xs)
    ensures Process(xs).Some? <==> forall n :: 0 <= n < |xs| ==> !FailsAt(xs, n)
  {
    if xs != [] {
      var n := |xs| - 1;
      var before := xs[..n];
      Prefixes(xs, n);
      forall i | 0 <= i < n
        ensures FailsAt(before, i) <==> FailsAt(xs, i)
      {
        assert before[..i] == xs[..i] && before[..i + 1] == xs[..i + 1];
      }
      HistoryProcessed(before);
      LastFails(xs);
    }
  }

  lemma NextUpdate(xs: seq<Sample>, x: Sample)
    requires InRange(xs) && Process(xs).Some? && x.Clock() && Abs(Total(xs) + x.Lag()) < LIMIT
    ensures Process(xs + [x]).None? <==>
              x.Lag() == 0 || (Total(xs) + x.Lag() == 0 && Process(xs).value.sum.Canonical())
  {
    HistoryExact(xs);
    assert (xs + [x])[..|xs|] == xs;
    UpdateExact(Process(xs).value, xs, x);
  }

  lemma LastFails(xs: seq<Sample>)
    requires InRange(xs) && xs != []
    ensures Process(xs).None? <==> Process(xs[..|xs| - 1]).None? || FailsAt(xs, |xs| - 1)
  {
    var before, x := xs[..|xs| - 1], xs[|xs| - 1];
    assert xs == before + [x];
    if Process(before).Some? {
      LastAfter(xs, before, x);
    } else {
      StaysFailed(xs);
    }
  }

  lemma StaysFailed(xs: seq<Sample>)
    requires xs != [] && Process(xs[..|xs| - 1]).None?
    ensures Process(xs).None? && !FailsAt(xs, |xs| - 1)
  {
  }

  lemma LastAfter(xs: seq<Sample>, before: seq<Sample>, x: Sample)
    requires InRange(xs) && xs == before + [x] && Process(before).Some?
    ensures Process(xs).None? <==> FailsAt(xs, |before|)
  {
    assert xs[..|before|] == before && xs[..|before| + 1] == xs;
    Prefixes(xs, |before|);
    NextUpdate(before, x);
  }

  /** In particular if no lag is zero and the sum never returns to zero. */
  lemma NonzeroProcessed(xs: seq<Sample>)
    requires InRange(xs) && (forall x :: x in xs ==> x.Lag() != 0)
    requires forall i :: 0 < i <= |xs| ==> Total(xs[..i]) != 0
    ensures Process(xs).Some?
  {
    HistoryProcessed(xs);
  }

  lemma {:induction false} TotalBounds(xs: seq<Sample>, lo: int, hi: int)
    requires forall x :: x in xs ==> lo <= x.Lag() <= hi
    ensures lo * |xs| <= Total(xs) <= hi * |xs|
  {
    if xs != [] {
      var n := |xs| - 1;
      TotalBounds(xs[..n], lo, hi);
      OneMore(lo, n);
      OneMore(hi, n);
    }
  }

  lemma OneMore(a: int, n: nat)
    ensures a * (n + 1) == a * n + a
  {
  }

  /** Rounding toward zero stays between integer bounds. */
  lemma TruncatedBetween(m: nat, n: nat, lo: int, hi: int)
    requires n > 0
    ensures lo * n <= m <= hi * n ==> lo <= m / n <= hi
    ensures lo * n <= 0 - m <= hi * n ==> lo <= 0 - m / n <= hi
  {
    var q := m / n;
    assert m == n * q + m % n;
    MulBig(n, lo - q);
    MulBig(n, q - hi);
    MulBig(n, lo + q);
    MulBig(n, -q - hi);
    assert n * (lo - q) == lo * n - n * q && n * (q - hi) == n * q - hi * n;
    assert n * (lo + q) == lo * n + n * q && n * (-q - hi) == -(n * q) - hi * n;
  }

  /** The average is the sum divided by the number of samples, rounded toward zero, and lies between minimum and
      maximum. */
  lemma AverageExact(xs: seq<Sample>, out: Num)
    requires InRange(xs) && Process(xs).Some? && 0 < |xs| < TWO32
    ensures var s := Process(xs).value;
            var avg := Average(out, s.sum, |xs|);
            && Abs(avg.Val()) == Abs(Total(xs)) / |xs|
            && (avg.Val() < 0 ==> Total(xs) < 0) && (avg.Val() > 0 ==> Total(xs) > 0)
            && s.min.Val() <= avg.Val() <= s.max.Val()
  {
    HistoryExact(xs);
    var s := Process(xs).value;
    assert xs[..|xs|] == xs;
    TotalBounds(xs, s.min.Val(), s.max.Val());
    AverageOfSum(out, s.sum, |xs|, s.min.Val(), s.max.Val());
  }

  lemma AverageOfSum(out: Num, sum: Num, n: nat, lo: int, hi: int)
    requires sum.Fits() && 0 < n < TWO32 && Abs(sum.Val()) < LIMIT && lo * n <= sum.Val() <= hi * n
    ensures var avg := Average(out, sum, n);
            && Abs(avg.Val()) == Abs(sum.Val()) / n && lo <= avg.Val() <= hi
            && (avg.Val() < 0 ==> sum.Val() < 0) && (avg.Val() > 0 ==> sum.Val() > 0)
  {
    var m := sum.Mag();
    QuotientSmall(m, n);
    TruncatedBetween(m, n, lo, hi);
    DivsExact(sum, n);
    assert Average(out, sum, n).Mag() == m / n;
  }

  lemma QuotientSmall(m: nat, n: nat)
    requires n > 0
    ensures m / n <= m && (m == 0 ==> m / n == 0)
  {
    assert m == n * (m / n) + m % n;
    MulBig(m / n, n);
    if m == 0 {
      DivModUnique(0, n, 0, 0);
    }
  }

  // ---------------------------------------------------------------------------------------------
  // The static variables
  // ---------------------------------------------------------------------------------------------

  class LagTimes {
    const sum: Cell
    const min: Cell
    const max: Cell

    ghost predicate Valid() { sum != min && sum != max && min != max }

    function View(): Stats
      reads sum, min, max
    {
      Stats(sum.View(), min.View(), max.View())
    }

    constructor ()
      ensures Valid() && View() == START && fresh(sum) && fresh(min) && fresh(max)
    {
      sum := new Cell();
      min := new Cell();
      max := new Cell();
    }

    /** The comparisons of one update. */
    method Compare(delta: Cell)
      requires Valid() && delta != min && delta != max
      modifies min, max
      ensures min.View() == Less(old(delta.View()), old(min.View()))
      ensures max.View() == Greater(old(delta.View()), old(max.View()))
    {
      if IsZero(min.View()) || LessThan(delta.View(), min.View()) {
        min.Assign(delta);
      }
      if IsZero(max.View()) || GreaterThan(delta.View(), max.View()) {
        max.Assign(delta);
      }
    }

    /** profiling_update_lag_time; without a clock the sample is skipped, and `ok` is false if an assertion
        fails. */
    method UpdateWith(clock: Option<Num>, a: Cell) returns (ok: bool)
      requires Valid() && a != sum && a != min && a != max
      modifies sum, min, max
      ensures clock.None? ==> ok && View() == old(View())
      ensures clock.Some? ==>
                var r := Update(old(View()), Sample(clock.value, old(a.View())));
                ok == r.Some? && (ok ==> Some(View()) == r)
    {
      ok := true;
      if clock.None? {
        return;
      }
      var now := clock.value;
      var nowCell := new Cell();
      var delta := new Cell();
      var currentSum := new Cell();
      nowCell.Set(now.positive, now.sec, now.nsec);
      ok := SubTo(nowCell, a, delta);
      if !ok {
        return;
      }
      currentSum.Assign(sum);
      ok := AddTo(currentSum, delta, sum);
      if !ok {
        return;
      }
      Compare(delta);
    }

    /** profiling_get_lag_time_avg */
    method Avg(avg: Cell, num: nat)
      requires num < TWO32 && avg != sum && (num == 0 ==> IsZero(sum.View()))
      modifies avg
      ensures avg.View() == Average(old(avg.View()), old(sum.View()), num)
    {
      if sum.sec == 0 && sum.nsec == 0 {
        avg.sec := 0;
        avg.nsec := 0;
      } else {
        DivsTo(sum, num, avg);
      }
    }
  }
}
