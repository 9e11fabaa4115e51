/** When the scoped engine closes a week: on whole weeks from the first sale on, and as soon as due. */
module NowSchedule {
  import opened Prelude
  import opened NowLedger
  import opened NowAccrual
  import opened NowClose
  import opened NowWeek
  import opened NowBooks
  import opened NowEngine
  import opened NowRuns

  // The first week closed is the calendar week of the first membership.
  ghost predicate StartsRight(b: Books) {
    b.closed != [] ==>
      && b.orders != [] && b.closed[0].start % (7 * 24 * 60) == 0
      && b.closed[0].start <= b.orders[0].activated < b.closed[0].start + 7 * 24 * 60
  }

  lemma {:induction false} ClosedFrom(b: Books, start: int, now: int, weeks: seq<Universe>, n: nat)
    requires CloseWeeks(b, start, now, weeks, n).Some?
    ensures var after := CloseWeeks(b, start, now, weeks, n).value;
            && after.orders == b.orders
            && |b.closed| <= |after.closed| && after.closed[..|b.closed|] == b.closed
            && (|b.closed| < |after.closed| ==> after.closed[|b.closed|].start == start)
    decreases n
  {
    hide WithBinary, WithDues, PayOut, PaidNow, Projected, ClosingTheta, UniverseFits, Inflows, TotalOf;
    if n > 0 && weeks != [] && start + WEEK + GRACE <= now {
      var next := CloseWeek(b, weeks[0], start, start + WEEK);
      ClosedFrom(next, start + WEEK, now, weeks[1..], n - 1);
      var after := CloseWeeks(b, start, now, weeks, n).value;
      assert after.closed[|b.closed|] == after.closed[..|next.closed|][|b.closed|];
      assert after.closed[..|b.closed|] == after.closed[..|next.closed|][..|b.closed|];
    }
  }

  lemma {:induction false} WeekOf(time: int)
    ensures PeriodStart(time) % (7 * 24 * 60) == 0 && PeriodStart(time) <= time < PeriodStart(time) + 7 * 24 * 60
  {
  }

  lemma {:induction false} EventStartsRight(b: Books, e: Event, after: Books)
    requires Happens(b, e, after) && StartsRight(b)
    ensures StartsRight(after)
  {
    hide CloseWeeks, AccrueN, Backlog, CanJoin, PeriodStart;
    if e.Runs? && b.orders != [] {
      WeekOf(b.orders[0].activated);
      var cutoff := DailyCutoff(e.now);
      var accrued := b.(acc := AccrueN(b.acc, b.orders, e.uplift, cutoff, Min(MAX_ACCRUALS, e.allowed)));
      if CloseWeeks(accrued, FirstWeek(b), e.now, e.weeks, Min(e.closes, MAX_CLOSES)).Some? {
        ClosedFrom(accrued, FirstWeek(b), e.now, e.weeks, Min(e.closes, MAX_CLOSES));
        var closed := CloseWeeks(accrued, FirstWeek(b), e.now, e.weeks, Min(e.closes, MAX_CLOSES)).value.closed;
        assert b.closed != [] ==> closed[0] == closed[..|b.closed|][0];
      }
    }
  }

  /** In every history the first closed week is the calendar week of the first membership. */
  lemma {:induction false} FirstWeekIsRight(run: seq<Books>, events: seq<Event>, i: nat)
    requires IsHistory(run, events) && i < |run|
    ensures StartsRight(run[i])
  {
    hide Happens, StartsRight;
    if i == 0 {
      assert StartsRight(EMPTY) by { NothingClosed(); }
    } else {
      FirstWeekIsRight(run, events, i - 1);
      EventStartsRight(run[i - 1], events[i - 1], run[i]);
    }
  }

  lemma {:induction false} NothingClosed()
    ensures StartsRight(EMPTY)
  {
  }

  lemma {:induction false} ClosedUntil(b: Books, start: int, now: int, weeks: seq<Universe>, n: nat)
    requires CloseWeeks(b, start, now, weeks, n).Some? && n <= |weeks|
    ensures var after := CloseWeeks(b, start, now, weeks, n).value;
            var k := |after.closed| - |b.closed|;
            && 0 <= k <= n && (0 < k ==> LastEnd(after.closed) == start + k * (7 * 24 * 60))
            && (k < n ==> now < start + k * (7 * 24 * 60) + 7 * 24 * 60 + 120)
    decreases n
  {
    hide WithBinary, WithDues, PayOut, PaidNow, Projected, ClosingTheta, UniverseFits, Inflows, TotalOf;
    if n > 0 && start + WEEK + GRACE <= now {
      var next := CloseWeek(b, weeks[0], start, start + WEEK);
      ClosedUntil(next, start + WEEK, now, weeks[1..], n - 1);
      ClosedFrom(next, start + WEEK, now, weeks[1..], n - 1);
    }
  }

  /**
   * A run answers that an order is frozen exactly if one is. If it succeeds with everything due
   * accrued, it closes week after week until none is over for two hours, up to the number it
   * was allowed and never more than eight.
   */
  lemma {:induction false} DueWeeksAreClosed(
      b: Books, now: int, uplift: set<(int, int)>, weeks: seq<Universe>, allowed: nat, closes: nat)
    requires |weeks| >= 8
    ensures var (r, after) := RunOf(b, now, uplift, weeks, allowed, closes);
            && (r == RiskFrozen <==> exists k :: 0 <= k < |b.orders| && b.orders[k].status == Frozen)
            && (r != Done ==> after == b)
            && (r == Done && b.orders != [] && 0 < allowed && Backlog(after.acc, b.orders, DailyCutoff(now)) == 0 ==>
                  var start := if b.closed == [] then PeriodStart(b.orders[0].activated) else LastEnd(b.closed);
                  var k := |after.closed| - |b.closed|;
                  && 0 <= k <= closes && k <= 8
                  && (k < closes && k < 8 ==> now < start + k * (7 * 24 * 60) + 7 * 24 * 60 + 120))
  {
    hide CloseWeeks, AccrueN, Backlog, PeriodStart, DailyCutoff;
    var accrued := b.(acc := AccrueN(b.acc, b.orders, uplift, DailyCutoff(now), Min(MAX_ACCRUALS, allowed)));
    if b.orders != [] && !AnyFrozen(b.orders) {
      var n := Min(closes, MAX_CLOSES);
      if 0 < allowed && 0 == Backlog(accrued.acc, accrued.orders, DailyCutoff(now)) {
        if CloseWeeks(accrued, FirstWeek(b), now, weeks, n).Some? {
          ClosedUntil(accrued, FirstWeek(b), now, weeks, n);
        }
      }
    }
  }
}
