/**
 * What holds over every history of the scoped engine: memberships joining and runs of any
 * size, in any order, from empty books.
 */
module NowRuns {
  import opened Prelude
  import opened NowLedger
  import opened NowAccrual
  import opened NowClose
  import opened NowWeek
  import opened NowBooks
  import opened NowEngine

  datatype Event =
    | Joins(order: Order, total: int)
    | Runs(now: int, uplift: set<(int, int)>, weeks: seq<Universe>, allowed: nat, closes: nat)

  const EMPTY := Books([], Accruals(Ledger([], [], map[]), map[], map[]), [])

  ghost predicate Happens(b: Books, e: Event, after: Books) {
    match e
    case Joins(o, total) => CanJoin(b, o, total) && after == Join(b, o, total)
    case Runs(now, uplift, weeks, allowed, closes) => after == RunOf(b, now, uplift, weeks, allowed, closes).1
  }

  ghost predicate IsHistory(run: seq<Books>, events: seq<Event>) {
    && |run| == |events| + 1 && run[0] == EMPTY
    && forall i :: 0 <= i < |events| ==> Happens(run[i], events[i], run[i + 1])
  }

  lemma {:induction false} EmptyIsKept()
    ensures BooksInv(EMPTY)
  {
  }

  lemma {:induction false} AccrueNKeepsBooks(b: Books, uplift: set<(int, int)>, cutoff: int, n: nat)
    requires BooksInv(b)
    ensures BooksInv(b.(acc := AccrueN(b.acc, b.orders, uplift, cutoff, n)))
    decreases n
  {
    hide BooksInv, AccrueDay, Fresh, DueDays;
    var k := FirstDue(b.acc, b.orders, cutoff);
    if n > 0 && k < |b.orders| {
      AccrualKeepsBooks(b, k, uplift, cutoff);
      AccrueNKeepsBooks(b.(acc := AccrueDay(b.acc, b.orders[k], uplift)), uplift, cutoff, n - 1);
    }
  }

  lemma {:induction false} CloseWeeksKeepsBooks(b: Books, start: int, now: int, weeks: seq<Universe>, n: nat)
    requires BooksInv(b) && Backlog(b.acc, b.orders, DailyCutoff(now)) == 0
    requires b.closed != [] ==> start == LastEnd(b.closed)
    requires CloseWeeks(b, start, now, weeks, n).Some?
    ensures var after := CloseWeeks(b, start, now, weeks, n).value;
            && BooksInv(after) && after.orders == b.orders
            && |b.closed| <= |after.closed| && after.closed[..|b.closed|] == b.closed
    decreases n
  {
    hide BooksInv, Backlog, DailyCutoff, CloseWeek, UniverseFits, NextWeek;
    if n > 0 && weeks != [] && start + WEEK + GRACE <= now {
      var end := start + WEEK;
      CaughtUpIsPassed(b, now, start, end);
      CloseKeepsBooks(b, weeks[0], start, end);
      CloseSummary(b, weeks[0], start, end);
      CloseAppends(b, weeks[0], start, end);
      CloseWeeksKeepsBooks(CloseWeek(b, weeks[0], start, end), end, now, weeks[1..], n - 1);
    }
  }

  /** A run of any size keeps the books, and rewrites no closed week. */
  lemma {:induction false} RunKeepsBooks(
      b: Books, now: int, uplift: set<(int, int)>, weeks: seq<Universe>, allowed: nat, closes: nat)
    requires BooksInv(b)
    ensures var after := RunOf(b, now, uplift, weeks, allowed, closes).1;
            && BooksInv(after) && after.orders == b.orders
            && |b.closed| <= |after.closed| && after.closed[..|b.closed|] == b.closed
  {
    hide BooksInv, Backlog, DailyCutoff, CloseWeeks, AccrueN, PeriodStart, AnyFrozen;
    AccrueNKeepsBooks(b, uplift, DailyCutoff(now), Min(MAX_ACCRUALS, allowed));
    var accrued := b.(acc := AccrueN(b.acc, b.orders, uplift, DailyCutoff(now), Min(MAX_ACCRUALS, allowed)));
    if b.orders != [] && Backlog(accrued.acc, accrued.orders, DailyCutoff(now)) == 0 {
      if CloseWeeks(accrued, FirstWeek(b), now, weeks, Min(closes, MAX_CLOSES)).Some? {
        CloseWeeksKeepsBooks(accrued, FirstWeek(b), now, weeks, Min(closes, MAX_CLOSES));
      }
    }
  }

  lemma {:induction false} EventKeepsBooks(b: Books, e: Event, after: Books)
    requires BooksInv(b) && Happens(b, e, after)
    ensures BooksInv(after) && |b.closed| <= |after.closed| && after.closed[..|b.closed|] == b.closed
  {
    hide BooksInv, RunOf, CanJoin;
    match e
    case Joins(o, total) => JoinKeepsBooks(b, o, total);
    case Runs(now, uplift, weeks, allowed, closes) => RunKeepsBooks(b, now, uplift, weeks, allowed, closes);
  }

  lemma {:induction false} HistoryKeepsBooks(run: seq<Books>, events: seq<Event>, i: nat)
    requires IsHistory(run, events) && i < |run|
    ensures BooksInv(run[i])
  {
    hide BooksInv, Happens;
    EmptyIsKept();
    if i > 0 {
      HistoryKeepsBooks(run, events, i - 1);
      EventKeepsBooks(run[i - 1], events[i - 1], run[i]);
    }
  }

  // Closed weeks are never rewritten.
  lemma {:induction false} WeeksStayClosed(run: seq<Books>, events: seq<Event>, i: nat, j: nat)
    requires IsHistory(run, events) && i <= j < |run|
    ensures |run[i].closed| <= |run[j].closed| && run[j].closed[..|run[i].closed|] == run[i].closed
    decreases j - i
  {
    hide BooksInv, Happens;
    if i < j {
      WeeksStayClosed(run, events, i, j - 1);
      HistoryKeepsBooks(run, events, j - 1);
      EventKeepsBooks(run[j - 1], events[j - 1], run[j]);
      assert run[j].closed[..|run[j - 1].closed|][..|run[i].closed|] == run[j].closed[..|run[i].closed|];
    }
  }

  /**
   * At every moment of every history, each week that credited anything is covered: all returns
   * before its end and all commissions up to it are within alpha of the inflows before its
   * end. Closed weeks follow each other without a gap.
   */
  lemma {:induction false} EveryCloseStaysSolvent(run: seq<Books>, events: seq<Event>, i: nat, k: nat)
    requires IsHistory(run, events) && i < |run| && k < |run[i].closed|
    ensures var b := run[i];
            && (0 < b.closed[k].paid ==>
                  10_000 * (TotalOf(RoiBefore(b.closed[k].end), b.acc.ledger.payments)
                            + TotalOf(OthersBefore(b.closed[k].end + 1), b.acc.ledger.payments))
                  <= 45 * Inflows(b.orders, b.closed[k].end))
            && b.closed[k].end == b.closed[k].start + 7 * 24 * 60
            && (0 < k ==> b.closed[k].start == b.closed[k - 1].end)
  {
    hide IsHistory;
    HistoryKeepsBooks(run, events, i);
    assert Solvent(run[i].orders, run[i].acc.ledger, run[i].closed[k].end, run[i].closed[k].paid);
    hide Inv, TotalOf, Inflows;
  }

  /** Obligations and packages balance at every moment of every history. */
  lemma {:induction false} EveryLedgerBalances(run: seq<Books>, events: seq<Event>, i: nat)
    requires IsHistory(run, events) && i < |run|
    ensures var l := run[i].acc.ledger;
            && (forall id: nat :: id < |l.obligations| ==>
                  l.obligations[id].paid + l.obligations[id].excluded <= l.obligations[id].entitlement
                  && l.obligations[id].paid == TotalOf(OfObligation(id), l.payments)
                  && (l.obligations[id].kind == Roi ==>
                        l.obligations[id].paid + l.obligations[id].excluded == l.obligations[id].entitlement))
            && (forall pkg :: pkg in l.caps ==>
                  l.caps[pkg].paid == TotalOf(OfPackage(pkg), l.payments) && l.caps[pkg].paid <= l.caps[pkg].total)
  {
    hide IsHistory, TotalOf;
    HistoryKeepsBooks(run, events, i);
    var l := run[i].acc.ledger;
    assert Sound(l) && RoiSettled(l);
    forall id: nat | id < |l.obligations|
      ensures l.obligations[id].paid + l.obligations[id].excluded <= l.obligations[id].entitlement
              && l.obligations[id].paid == TotalOf(OfObligation(id), l.payments)
    {
      assert ObligationSound(l, id);
    }
    forall pkg | pkg in l.caps
      ensures l.caps[pkg].paid == TotalOf(OfPackage(pkg), l.payments) && l.caps[pkg].paid <= l.caps[pkg].total
    {
      assert CapSound(l, pkg);
    }
  }
}
