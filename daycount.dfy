/** Counting the days that satisfy a predicate while stepping away from a
    date one calendar day at a time. */
module DayCount {
  import opened Civil

  /** p holds on at least one of any five consecutive days. */
  ghost predicate RecursWithinFive(p: Date -> bool) {
    forall d :: ValidDate(d) ==>
      p(d) || p(NextDay(d)) || p(NextDay(NextDay(d))) || p(NextDay(NextDay(NextDay(d))))
      || p(NextDay(NextDay(NextDay(NextDay(d)))))
  }

  /** p fails on each of the j days ending with d. */
  predicate MissBack(p: Date -> bool, d: Date, j: nat)
    decreases j
  {
    j == 0 || (!p(d) && MissBack(p, PrevDay(d), j - 1))
  }

  /** p fails on each of the j days starting with d. */
  predicate MissAhead(p: Date -> bool, d: Date, j: nat)
    decreases j
  {
    j == 0 || (!p(d) && MissAhead(p, NextDay(d), j - 1))
  }

  /** Missing j >= 2 days back from d is missing d, the day before, and
      j - 2 days back from the day before that. */
  lemma MissBackTwo(p: Date -> bool, d: Date, j: nat)
    requires j >= 2
    ensures MissBack(p, d, j) <==> !p(d) && !p(PrevDay(d)) && MissBack(p, PrevDay(PrevDay(d)), j - 2)
  {
  }

  lemma MissAheadTwo(p: Date -> bool, d: Date, j: nat)
    requires j >= 2
    ensures MissAhead(p, d, j) <==> !p(d) && !p(NextDay(d)) && MissAhead(p, NextDay(NextDay(d)), j - 2)
  {
  }

  /** When p recurs within five days, no five consecutive days miss it. */
  lemma NoFiveMissBack(p: Date -> bool, d: Date)
    requires RecursWithinFive(p) && ValidDate(d)
    ensures !MissBack(p, d, 5)
  {
    var p1 := PrevDay(d);
    PrevNext(d);
    var p2 := PrevDay(p1);
    PrevNext(p1);
    var p3 := PrevDay(p2);
    PrevNext(p2);
    var p4 := PrevDay(p3);
    PrevNext(p3);
    MissBackTwo(p, d, 5);
    MissBackTwo(p, p2, 3);
  }

  lemma NoFiveMissAhead(p: Date -> bool, d: Date)
    requires RecursWithinFive(p) && ValidDate(d)
    ensures !MissAhead(p, d, 5)
  {
    MissAheadTwo(p, d, 5);
    MissAheadTwo(p, NextDay(NextDay(d)), 3);
  }

  lemma {:induction false} MissBackPrefix(p: Date -> bool, d: Date, i: nat, j: nat)
    requires i <= j && MissBack(p, d, j)
    ensures MissBack(p, d, i)
    decreases i
  {
    if i > 0 {
      MissBackPrefix(p, PrevDay(d), i - 1, j - 1);
    }
  }

  lemma {:induction false} MissAheadPrefix(p: Date -> bool, d: Date, i: nat, j: nat)
    requires i <= j && MissAhead(p, d, j)
    ensures MissAhead(p, d, i)
    decreases i
  {
    if i > 0 {
      MissAheadPrefix(p, NextDay(d), i - 1, j - 1);
    }
  }

  /** When p recurs within five days, a run of days without p is at most
      four days long. */
  lemma MissBackBound(p: Date -> bool, d: Date, j: nat)
    requires RecursWithinFive(p)
    requires ValidDate(d) && MissBack(p, d, j)
    ensures j <= 4
  {
    NoFiveMissBack(p, d);
    if j >= 5 {
      MissBackPrefix(p, d, 5, j);
    }
  }

  lemma MissAheadBound(p: Date -> bool, d: Date, j: nat)
    requires RecursWithinFive(p)
    requires ValidDate(d) && MissAhead(p, d, j)
    ensures j <= 4
  {
    NoFiveMissAhead(p, d);
    if j >= 5 {
      MissAheadPrefix(p, d, 5, j);
    }
  }

  /** How many of the k days after d satisfy p. */
  function CountAhead(p: Date -> bool, d: Date, k: nat): (c: nat)
    requires ValidDate(d)
    ensures c <= k
  {
    if k == 0 then 0
    else CountAhead(p, d, k - 1) + (if p(AddDays(d, k)) then 1 else 0)
  }

  /** How many of the k days before d satisfy p. */
  function CountBehind(p: Date -> bool, d: Date, k: nat): (c: nat)
    requires ValidDate(d)
    ensures c <= k
  {
    if k == 0 then 0
    else CountBehind(p, d, k - 1) + (if p(AddDays(d, -(k as int))) then 1 else 0)
  }

  lemma {:induction false} CountAheadMonotone(p: Date -> bool, d: Date, k1: nat, k2: nat)
    requires ValidDate(d) && k1 <= k2
    ensures CountAhead(p, d, k1) <= CountAhead(p, d, k2)
    decreases k2
  {
    if k1 < k2 {
      CountAheadMonotone(p, d, k1, k2 - 1);
    }
  }

  lemma {:induction false} CountBehindMonotone(p: Date -> bool, d: Date, k1: nat, k2: nat)
    requires ValidDate(d) && k1 <= k2
    ensures CountBehind(p, d, k1) <= CountBehind(p, d, k2)
    decreases k2
  {
    if k1 < k2 {
      CountBehindMonotone(p, d, k1, k2 - 1);
    }
  }

  /** The n-th p-day after d is unique: two distances that both end on a
      p-day and count the same number of p-days are equal. */
  lemma {:induction false} NthAheadUnique(p: Date -> bool, d: Date, k1: nat, k2: nat)
    requires ValidDate(d) && 1 <= k1 && 1 <= k2
    requires p(AddDays(d, k1)) && p(AddDays(d, k2))
    requires CountAhead(p, d, k1) == CountAhead(p, d, k2)
    ensures k1 == k2
  {
    if k1 < k2 {
      CountAheadMonotone(p, d, k1, k2 - 1);
    } else if k2 < k1 {
      CountAheadMonotone(p, d, k2, k1 - 1);
    }
  }

  lemma {:induction false} NthBehindUnique(p: Date -> bool, d: Date, k1: nat, k2: nat)
    requires ValidDate(d) && 1 <= k1 && 1 <= k2
    requires p(AddDays(d, -(k1 as int))) && p(AddDays(d, -(k2 as int)))
    requires CountBehind(p, d, k1) == CountBehind(p, d, k2)
    ensures k1 == k2
  {
    if k1 < k2 {
      CountBehindMonotone(p, d, k1, k2 - 1);
    } else if k2 < k1 {
      CountBehindMonotone(p, d, k2, k1 - 1);
    }
  }

  /** r lies k days after d, between n and 5n, is a p-day when n > 0, and
      exactly n of the k days after d up to r are p-days: r is the n-th
      p-day after d (d itself when n is 0). */
  predicate IsNthAhead(p: Date -> bool, d: Date, n: nat, r: Date)
    requires ValidDate(d)
  {
    var k := DayNumber(r) - DayNumber(d);
    n <= k <= 5 * n && r == AddDays(d, k) && (n > 0 ==> p(r)) && CountAhead(p, d, k) == n
  }

  /** r is the n-th p-day before d (d itself when n is 0). */
  predicate IsNthBehind(p: Date -> bool, d: Date, n: nat, r: Date)
    requires ValidDate(d)
  {
    var k := DayNumber(d) - DayNumber(r);
    n <= k <= 5 * n && r == AddDays(d, -k) && (n > 0 ==> p(r)) && CountBehind(p, d, k) == n
  }

  /** The day k days after d, at the count n, is the n-th p-day after d. */
  lemma FoundAhead(p: Date -> bool, d: Date, n: nat, r: Date, k: nat)
    requires ValidDate(d) && r == AddDays(d, k)
    requires n <= k <= 5 * n && (n > 0 ==> p(r)) && CountAhead(p, d, k) == n
    ensures IsNthAhead(p, d, n, r)
  {
    AddDaysNumber(d, k);
    assert DayNumber(r) - DayNumber(d) == k;
  }

  /** The day k days before d, at the count n, is the n-th p-day before d. */
  lemma FoundBehind(p: Date -> bool, d: Date, n: nat, r: Date, k: nat)
    requires ValidDate(d) && r == AddDays(d, -(k as int))
    requires n <= k <= 5 * n && (n > 0 ==> p(r)) && CountBehind(p, d, k) == n
    ensures IsNthBehind(p, d, n, r)
  {
    AddDaysNumber(d, -(k as int));
    assert DayNumber(d) - DayNumber(r) == k;
  }

  /** Steps forward from d one day at a time, counting the days that satisfy
      p, until n of them have been passed; the result is the n-th p-day
      after d. */
  method StepAhead(p: Date -> bool, d: Date, n: nat) returns (r: Date)
    requires RecursWithinFive(p) && ValidDate(d)
    ensures ValidDate(r) && IsNthAhead(p, d, n, r)
  {
    r := d;
    var left := n;
    ghost var k: nat := 0;
    ghost var run: nat := 0;
    while left > 0
      invariant 0 <= left <= n
      invariant ValidDate(r) && r == AddDays(d, k)
      invariant CountAhead(p, d, k) == n - left
      invariant n - left <= k <= 5 * (n - left) + run
      invariant run <= 4 && MissBack(p, r, run)
      invariant k > 0 && run == 0 ==> p(r)
      invariant left < n ==> k > 0
      invariant left == 0 ==> run == 0
      decreases left, 4 - run
    {
      AddDaysForward(d, k);
      PrevNext(r);
      r := NextDay(r);
      k := k + 1;
      if p(r) {
        left := left - 1;
        run := 0;
      } else {
        run := run + 1;
        MissBackBound(p, r, run);
      }
    }
    FoundAhead(p, d, n, r, k);
  }

  /** Steps back from d one day at a time, counting the days that satisfy p,
      until n of them have been passed; the result is the n-th p-day before
      d. */
  method StepBack(p: Date -> bool, d: Date, n: nat) returns (r: Date)
    requires RecursWithinFive(p) && ValidDate(d)
    ensures ValidDate(r) && IsNthBehind(p, d, n, r)
  {
    r := d;
    var left := n;
    ghost var k: nat := 0;
    ghost var run: nat := 0;
    while left > 0
      invariant 0 <= left <= n
      invariant ValidDate(r) && r == AddDays(d, -(k as int))
      invariant CountBehind(p, d, k) == n - left
      invariant n - left <= k <= 5 * (n - left) + run
      invariant run <= 4 && MissAhead(p, r, run)
      invariant k > 0 && run == 0 ==> p(r)
      invariant left < n ==> k > 0
      invariant left == 0 ==> run == 0
      decreases left, 4 - run
    {
      AddDaysBackward(d, k);
      PrevNext(r);
      r := PrevDay(r);
      k := k + 1;
      if p(r) {
        left := left - 1;
        run := 0;
      } else {
        run := run + 1;
        MissAheadBound(p, r, run);
      }
    }
    FoundBehind(p, d, n, r, k);
  }
}
