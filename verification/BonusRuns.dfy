/**
 * What holds over every history of the bonus engine: packages and certificates opening, weekly
 * closes and daily jobs in any order, from empty tables.
 */
module BonusRuns {
  import opened CloseCandidates
  import opened ClosePayments
  import opened RankInstalments
  import opened WeekItems
  import opened WeekFits
  import opened WeeklyClose
  import opened DailyReturns
  import opened BonusEngine

  datatype Event =
    | PackageOpens(pkg: int, total: int)
    | CdOpens(id: int, cd: Cd)
    | WeekCloses(plan: Plan, week: Week)
    | DayRuns(ids: seq<int>, day: Day)

  ghost predicate ValidEvent(e: Event) {
    match e
    case PackageOpens(_, total) => 0 <= total
    case CdOpens(_, _) => true
    case WeekCloses(p, w) => ValidPlan(p) && ValidWeek(w)
    case DayRuns(_, _) => true
  }

  ghost function After(b: Books, e: Event): Books
    requires ValidEvent(e)
  {
    match e
    case PackageOpens(pkg, total) => OpenPackage(b, pkg, total)
    case CdOpens(id, cd) => OpenCd(b, id, cd)
    case WeekCloses(p, w) => CloseOnce(b, p, w)
    case DayRuns(ids, day) => RunDay(b, ids, day)
  }

  // What an event reports as paid.
  ghost function Reported(b: Books, e: Event): int
    requires ValidEvent(e)
  {
    match e
    case PackageOpens(_, _) => 0
    case CdOpens(_, _) => 0
    case WeekCloses(p, w) => if w.period in b.closed then 0 else PaidFor(p, b.data, w)
    case DayRuns(ids, day) => TotalPaid(AccountsOf(b), ids, day)
  }

  ghost predicate IsHistory(run: seq<Books>, events: seq<Event>) {
    && |run| == |events| + 1 && run[0] == EMPTY
    && forall i :: 0 <= i < |events| ==> ValidEvent(events[i]) && run[i + 1] == After(run[i], events[i])
  }

  ghost function TotalReported(run: seq<Books>, events: seq<Event>, i: nat): int
    requires IsHistory(run, events) && i < |run|
  {
    if i == 0 then 0 else TotalReported(run, events, i - 1) + Reported(run[i - 1], events[i - 1])
  }

  // Instalments only ever join, and a settled one stays as it is.
  ghost predicate SettledStay(before: seq<Instalment>, after: seq<Instalment>) {
    |before| <= |after| && OnlySettled(before, after[..|before|])
  }

  // Records of closed periods are final.
  ghost predicate ClosedStay(before: map<int, Closed>, after: map<int, Closed>) {
    forall period :: period in before ==> period in after && after[period] == before[period]
  }

  lemma {:induction false} PromotionsJoin(s: State, ps: seq<Promotion>, n: int, cadence: int, end: int)
    requires 0 < n
    ensures SettledStay(s.instalments, PromoteAll(s, ps, n, cadence, end).instalments)
  {
    if ps == [] {
      assert s.instalments[..|s.instalments|] == s.instalments;
    } else {
      var before := PromoteAll(s, ps[..|ps| - 1], n, cadence, end);
      PromotionsJoin(s, ps[..|ps| - 1], n, cadence, end);
      var after := Promote(before, ps[|ps| - 1], n, cadence, end);
      hide PromoteAll, Instalments;
      assert after.instalments[..|s.instalments|] == before.instalments[..|s.instalments|];
    }
  }

  lemma {:induction false} SettledStayThen(a: seq<Instalment>, b: seq<Instalment>, c: seq<Instalment>)
    requires SettledStay(a, b) && SettledStay(b, c)
    ensures SettledStay(a, c)
  {
    assert c[..|b|][..|a|] == c[..|a|];
  }

  lemma {:induction false} CloseSettlesOnce(b: Books, p: Plan, w: Week)
    requires BooksSound(b) && ValidPlan(p) && ValidWeek(w)
    ensures SettledStay(b.data.instalments, CloseOnce(b, p, w).data.instalments)
  {
    hide StateSound, CreditsKnown, BookAll, Promoted, AccruedPoints, PeriodNew, Items;
    if w.period in b.closed {
      assert b.data.instalments[..|b.data.instalments|] == b.data.instalments;
    } else {
      KnownMeansNew(b.data, b.closed, b.cds, w.period);
      BookedSound(p, b.data, w, b.peak);
      PromotedJoin(b.data, w);
      var booked := BookAll(Promoted(b.data, w), CloseOf(p, b.data, w), Items(p, b.data, w));
      assert booked.instalments[..|Promoted(b.data, w).instalments|] == booked.instalments;
      SettledStayThen(b.data.instalments, Promoted(b.data, w).instalments, booked.instalments);
    }
  }

  lemma {:induction false} PromotedJoin(s: State, w: Week)
    requires 0 < w.instalments
    ensures SettledStay(s.instalments, Promoted(s, w).instalments)
  {
    PromotionsJoin(s, w.promotions, w.instalments, w.cadence, w.end);
  }

  lemma {:induction false} NothingChanges(s: seq<Instalment>)
    ensures SettledStay(s, s)
  {
    assert s[..|s|] == s;
  }

  // One event keeps the books and reports exactly the credits it writes.
  lemma {:induction false} EventKeeps(b: Books, e: Event)
    requires BooksSound(b) && ValidEvent(e)
    ensures var after := After(b, e);
            && BooksSound(after)
            && CreditTotal(after.data.credits) == CreditTotal(b.data.credits) + Reported(b, e)
            && SettledStay(b.data.instalments, after.data.instalments)
            && ClosedStay(b.closed, after.closed)
  {
    hide BooksSound, StateAfter, PaidFor, AccrueAll, TotalPaid, SettledStay, CreditTotal, ProjectedFor, ThetaFor,
      PeakAfter;
    NothingChanges(b.data.instalments);
    match e
    case PackageOpens(pkg, total) => OpenPackageKeeps(b, pkg, total);
    case CdOpens(id, cd) => OpenCdKeeps(b, id, cd);
    case WeekCloses(p, w) =>
      CloseOnceKeeps(b, p, w);
      CloseSettlesOnce(b, p, w);
    case DayRuns(ids, day) => RunDayKeeps(b, ids, day);
  }

  lemma {:induction false} EmptyIsSound()
    ensures BooksSound(EMPTY)
  {
  }

  lemma {:induction false} HistoryKeeps(run: seq<Books>, events: seq<Event>, i: nat)
    requires IsHistory(run, events) && i < |run|
    ensures BooksSound(run[i])
  {
    hide BooksSound, After;
    EmptyIsSound();
    if i > 0 {
      HistoryKeeps(run, events, i - 1);
      EventKeeps(run[i - 1], events[i - 1]);
    }
  }

  /**
   * At every moment of every history: no package is paid beyond its cap, no affiliate for more
   * blocks than it ever had matched, and no rank more than its bonus.
   */
  lemma {:induction false} LimitsHoldForever(run: seq<Books>, events: seq<Event>, i: nat)
    requires IsHistory(run, events) && i < |run|
    ensures var b := run[i];
            && (forall pkg :: pkg in b.data.caps ==> 0 <= b.data.caps[pkg].paid <= b.data.caps[pkg].total)
            && (forall id :: id in b.data.blocks ==> b.data.blocks[id] <= Peak(b.peak, id))
            && (forall a, r :: 0 <= PaidOf(b.data.instalments, a, r)
                                 <= if (a, r) in b.data.achieved then b.data.achieved[(a, r)] else 0)
  {
    hide IsHistory, PaidOf, AmountOf, InstalmentsSound, CreditsKnown;
    HistoryKeeps(run, events, i);
    forall a, r
      ensures 0 <= PaidOf(run[i].data.instalments, a, r)
              <= if (a, r) in run[i].data.achieved then run[i].data.achieved[(a, r)] else 0
    {
      RankPayWithinBonus(run[i].data, a, r);
    }
  }

  /** Every cent credited was reported by a close or a daily job, and the other way round. */
  lemma {:induction false} CreditsAreReports(run: seq<Books>, events: seq<Event>, i: nat)
    requires IsHistory(run, events) && i < |run|
    ensures CreditTotal(run[i].data.credits) == TotalReported(run, events, i)
  {
    hide BooksSound, After, Reported;
    if i > 0 {
      CreditsAreReports(run, events, i - 1);
      HistoryKeeps(run, events, i - 1);
      EventKeeps(run[i - 1], events[i - 1]);
    }
  }

  /** Settled instalments and closed periods are never touched again. */
  lemma {:induction false} SettledForever(run: seq<Books>, events: seq<Event>, i: nat, j: nat)
    requires IsHistory(run, events) && i <= j < |run|
    ensures SettledStay(run[i].data.instalments, run[j].data.instalments) && ClosedStay(run[i].closed, run[j].closed)
    decreases j - i
  {
    hide BooksSound, After, SettledStay;
    if i == j {
      NothingChanges(run[i].data.instalments);
    } else {
      SettledForever(run, events, i, j - 1);
      HistoryKeeps(run, events, j - 1);
      EventKeeps(run[j - 1], events[j - 1]);
      SettledStayThen(run[i].data.instalments, run[j - 1].data.instalments, run[j].data.instalments);
    }
  }

  /** Whenever a week closes, what it pays stays within alpha of its inflows, for good. */
  lemma {:induction false} EveryCloseWithinTreasury(run: seq<Books>, events: seq<Event>, i: nat, j: nat)
    requires IsHistory(run, events) && i < |events| && i < j < |run|
    requires events[i].WeekCloses? && events[i].week.period !in run[i].closed
    ensures var p, w := events[i].plan, events[i].week;
            w.period in run[j].closed && run[j].closed[w.period].paid * CENT <= p.alpha * w.inflows
  {
    hide BooksSound, SettledStay, RecordOf, StateAfter, PeakAfter;
    HistoryKeeps(run, events, i);
    CloseOnceKeeps(run[i], events[i].plan, events[i].week);
    SettledForever(run, events, i + 1, j);
  }
}
