/** The weekly close of the bonus engine as a whole: what it leaves behind and why that is sound. */
module WeeklyClose {
  import opened Prelude
  import opened Theta
  import opened CloseCandidates
  import opened ClosePayments
  import opened RankInstalments
  import opened WeekItems
  import opened WeekFits

  datatype Closed = Closed(inflows: int, projected: int, theta: int, paid: int)

  datatype CdStatus = CdActive | CdMatured

  // A certificate: principal in cents, dates in days; pkg 0 consumes no cap.
  datatype Cd = Cd(
    affiliate: int, pkg: int, principal: int, start: int, matures: int, last: Option<int>,
    baseRate: int, qualifiedRate: int, status: CdStatus, accrued: int)

  /* ----- Points ----- */

  // Blocks count as far as theta paid them.
  function PointsFor(p: Plan, c: Candidate, theta: int): int { c.blocks * theta / ONE * p.pointsPerBlock }

  function AccruedPoints(points: map<int, int>, p: Plan, cs: seq<Candidate>, theta: int): map<int, int> {
    if cs == [] then points
    else
      var c, before := cs[|cs| - 1], AccruedPoints(points, p, cs[..|cs| - 1], theta);
      if c.blocks * theta / ONE <= 0 then before
      else before[c.affiliate := (if c.affiliate in before then before[c.affiliate] else 0) + PointsFor(p, c, theta)]
  }

  /* ----- The close as a whole ----- */

  function ProjectedFor(p: Plan, s: State, w: Week): int
    requires ValidPlan(p) && 0 < w.instalments
  {
    Sum(Grosses(Items(p, s, w)))
  }

  function ThetaFor(p: Plan, s: State, w: Week): int
    requires ValidPlan(p) && 0 < w.instalments
  {
    ComputeTheta(p.alpha * w.inflows, ProjectedFor(p, s, w))
  }

  function CloseOf(p: Plan, s: State, w: Week): Close
    requires ValidPlan(p) && 0 < w.instalments
  {
    Close(p, w.period, ThetaFor(p, s, w), w.routing)
  }

  // Points of this week are added after the conversion, so the reset cannot wipe them.
  function StateAfter(p: Plan, s: State, w: Week): State
    requires ValidPlan(p) && 0 < w.instalments
  {
    var paid := BookAll(Promoted(s, w), CloseOf(p, s, w), Items(p, s, w));
    if p.pointsEnabled then paid.(points := AccruedPoints(paid.points, p, Candidates(p, s, w), ThetaFor(p, s, w)))
        else paid
  }

  function PaidFor(p: Plan, s: State, w: Week): int
    requires ValidPlan(p) && 0 < w.instalments
  {
    TotalPays(Promoted(s, w), CloseOf(p, s, w), Items(p, s, w))
  }

  // The most blocks each affiliate ever had matched at a close.
  function PeakAfter(peak: map<int, int>, p: Plan, rows: seq<Ancestor>): map<int, int>
    requires ValidPlan(p)
  {
    if rows == [] then peak
    else
      var r, before := rows[|rows| - 1], PeakAfter(peak, p, rows[..|rows| - 1]);
      before[r.id := Max(Peak(before, r.id), MatchedBlocks(p, r))]
  }

  lemma {:induction false} PeakGrows(peak: map<int, int>, p: Plan, rows: seq<Ancestor>)
    requires ValidPlan(p)
    ensures var after := PeakAfter(peak, p, rows);
            && (forall id :: Peak(peak, id) <= Peak(after, id))
            && (forall m :: 0 <= m < |rows| ==> MatchedBlocks(p, rows[m]) <= Peak(after, rows[m].id))
  {
    hide MatchedBlocks;
    if rows != [] { PeakGrows(peak, p, rows[..|rows| - 1]); }
  }

  // It is never higher than it has to be: what it was, or the whole blocks of a weaker leg.
  lemma {:induction false} PeakIsReached(peak: map<int, int>, p: Plan, rows: seq<Ancestor>, id: int)
    requires ValidPlan(p)
    ensures var after := PeakAfter(peak, p, rows);
            var top := if id in after then after[id] else 0;
            || top == (if id in peak then peak[id] else 0)
            || exists m :: 0 <= m < |rows| && rows[m].id == id
                 && top == (if rows[m].pvLeft <= rows[m].pvRight then rows[m].pvLeft else rows[m].pvRight)
                           / (100 * p.blockSize)
  {
    if rows != [] {
      var init, r := rows[..|rows| - 1], rows[|rows| - 1];
      PeakIsReached(peak, p, init, id);
      assert forall m :: 0 <= m < |init| ==> init[m] == rows[m];
      if id == r.id { assert rows[|rows| - 1] == r; }
    }
  }

  lemma {:induction false} WithinGrows(blocks: map<int, int>, peak: map<int, int>, peak': map<int, int>)
    requires BlocksWithin(blocks, peak) && forall id :: Peak(peak, id) <= Peak(peak', id)
    ensures BlocksWithin(blocks, peak')
  {
    hide Peak;
  }

  /* ----- What always holds ----- */

  ghost predicate StateSound(s: State, peak: map<int, int>) {
    && CapsSound(s.caps)
    && BlocksWithin(s.blocks, peak)
    && InstalmentsSound(s.instalments) && BonusesSound(s)
  }

  // Close credits belong to closed periods, daily credits to days a certificate has passed.
  ghost predicate CreditKnown(closed: map<int, Closed>, cds: map<int, Cd>, c: Credit) {
    if c.ref.kind == DailyReturn
    then c.ref.period in cds && cds[c.ref.period].last.Some? && c.ref.subject <= cds[c.ref.period].last.value
    else c.ref.period in closed
  }

  ghost predicate CreditsKnown(s: State, closed: map<int, Closed>, cds: map<int, Cd>) {
    forall j :: 0 <= j < |s.credits| ==> CreditKnown(closed, cds, s.credits[j])
  }

  lemma {:induction false} PromoteAllKeeps(s: State, ps: seq<Promotion>, n: int, cadence: int, end: int)
    requires 0 < n && InstalmentsSound(s.instalments) && BonusesSound(s)
    requires forall i :: 0 <= i < |ps| ==> 0 <= ps[i].bonus
    ensures var after := PromoteAll(s, ps, n, cadence, end);
            && InstalmentsSound(after.instalments) && BonusesSound(after)
            && after == s.(instalments := after.instalments, achieved := after.achieved)
  {
    hide InstalmentsSound, BonusesSound;
    if ps != [] {
      PromoteAllKeeps(s, ps[..|ps| - 1], n, cadence, end);
      PromoteKeeps(PromoteAll(s, ps[..|ps| - 1], n, cadence, end), ps[|ps| - 1], n, cadence, end);
    }
  }

  lemma {:induction false} SameFit(s: State, s': State, items: seq<Item>, peak: map<int, int>)
    requires BinariesFit(s, items, peak) && s'.caps == s.caps && s'.blocks == s.blocks
    ensures BinariesFit(s', items, peak)
  {
    forall n | 0 <= n < |items| && items[n].BinaryItem? ensures BinaryFits(s', items[n].c, peak) {
      assert BinaryFits(s, items[n].c, peak);
    }
  }

  // Everything the pay-out relies on.
  lemma {:induction false} WeekFitsTogether(p: Plan, s: State, w: Week, peak: map<int, int>)
    requires ValidPlan(p) && ValidWeek(w) && StateSound(s, peak) && PeriodNew(s.credits, w.period)
    ensures var paid, k, items := Promoted(s, w), CloseOf(p, s, w), Items(p, s, w);
            var peak' := PeakAfter(peak, p, w.ancestors);
            && StateSound(paid, peak') && CreditsSame(s, paid)
            && NonNegativeItems(items) && 0 <= k.theta <= ONE && NewRefs(paid, k, items)
            && BinariesFit(paid, items, peak') && RanksOpen(paid, items)
  {
    var peak' := PeakAfter(peak, p, w.ancestors);
    PromoteAllKeeps(s, w.promotions, w.instalments, w.cadence, w.end);
    PeakGrows(peak, p, w.ancestors);
    WithinGrows(s.blocks, peak, peak');
    hide InstalmentsSound, BonusesSound, CapsSound, BlocksWithin, PeakAfter, Peak, MatchedBlocks, PromoteAll, Items,
      ComputeTheta;
    ItemsGood(p, s, w);
    ItemsNew(Promoted(s, w), CloseOf(p, s, w), Items(p, s, w));
    ItemsRanks(p, s, w);
    ItemsBinaries(p, s, w, peak');
    SameFit(s, Promoted(s, w), Items(p, s, w), peak');
    MulMonotone(0, p.alpha, w.inflows);
    ThetaWithin(p.alpha * w.inflows, ProjectedFor(p, s, w));
  }

  ghost predicate CreditsSame(s: State, s': State) {
    s'.credits == s.credits && s'.caps == s.caps && s'.blocks == s.blocks && s'.points == s.points
  }

  lemma {:induction false} CloseTreasury(p: Plan, s: State, w: Week, peak: map<int, int>)
    requires ValidPlan(p) && ValidWeek(w) && StateSound(s, peak) && PeriodNew(s.credits, w.period)
    ensures 0 <= PaidFor(p, s, w) && PaidFor(p, s, w) * CENT <= p.alpha * w.inflows
  {
    hide Items, Promoted, ComputeTheta, BookAll, TotalPays, StateSound;
    hide BinariesFit, RanksOpen, NewRefs, NonNegativeItems, PeakAfter, CreditsSame;
    WeekFitsTogether(p, s, w, peak);
    CloseWithinTreasury(Promoted(s, w), CloseOf(p, s, w), Items(p, s, w), w.inflows);
  }

  lemma {:induction false} BookedSound(p: Plan, s: State, w: Week, peak: map<int, int>)
    requires ValidPlan(p) && ValidWeek(w) && StateSound(s, peak) && PeriodNew(s.credits, w.period)
    ensures var booked := BookAll(Promoted(s, w), CloseOf(p, s, w), Items(p, s, w));
            && StateSound(booked, PeakAfter(peak, p, w.ancestors))
            && CreditTotal(booked.credits) == CreditTotal(s.credits) + PaidFor(p, s, w)
            && OnlySettled(Promoted(s, w).instalments, booked.instalments)
  {
    WeekFitsTogether(p, s, w, peak);
    hide Items, Promoted, CloseOf, PeakAfter, ComputeTheta, BookAll, TotalPays, InstalmentsSound, CapsSound,
      BlocksWithin;
    hide BinariesFit, RanksOpen, NewRefs, NonNegativeItems, BonusesSound, CreditTotal, OnlySettled;
    var start, k, items := Promoted(s, w), CloseOf(p, s, w), Items(p, s, w);
    assert k.plan == p by { PlanOf(p, s, w); }
    CreditsAddUp(start, k, items);
    CloseKeepsLimits(start, k, items, PeakAfter(peak, p, w.ancestors));
    CloseSettles(start, k, items);
    CloseKeepsBonuses(start, k, items);
  }

  lemma {:induction false} PlanOf(p: Plan, s: State, w: Week)
    requires ValidPlan(p) && 0 < w.instalments
    ensures CloseOf(p, s, w).plan == p && CloseOf(p, s, w).period == w.period
  {
  }

  lemma {:induction false} PointsAside(s: State, points: map<int, int>, peak: map<int, int>)
    requires StateSound(s, peak)
    ensures StateSound(s.(points := points), peak)
  {
    hide CapsSound, BlocksWithin, InstalmentsSound;
  }

  /**
   * One close: paid within alpha of the inflows, credits equal to what is reported as paid,
   * caps, blocks and bonuses within their limits.
   */
  lemma {:induction false} CloseIsSound(p: Plan, s: State, w: Week, peak: map<int, int>)
    requires ValidPlan(p) && ValidWeek(w) && StateSound(s, peak) && PeriodNew(s.credits, w.period)
    ensures var after, paid := StateAfter(p, s, w), PaidFor(p, s, w);
            && 0 <= paid && paid * CENT <= p.alpha * w.inflows
            && CreditTotal(after.credits) == CreditTotal(s.credits) + paid
            && StateSound(after, PeakAfter(peak, p, w.ancestors))
  {
    CloseTreasury(p, s, w, peak);
    BookedSound(p, s, w, peak);
    hide PaidFor, StateSound, BookAll, Items, Promoted, CloseOf, PeakAfter, CreditTotal, ThetaFor;
    var booked := BookAll(Promoted(s, w), CloseOf(p, s, w), Items(p, s, w));
    PointsAside(booked, AccruedPoints(booked.points, p, Candidates(p, s, w), ThetaFor(p, s, w)),
        PeakAfter(peak, p, w.ancestors));
  }

  /* ----- Credits stay traceable ----- */

  lemma {:induction false} BookTags(s: State, k: Close, i: Item, closed: map<int, Closed>, cds: map<int, Cd>)
    requires CreditsKnown(s, closed, cds) && k.period in closed && KindOf(i) != DailyReturn
    ensures CreditsKnown(Book(s, k, i), closed, cds)
  {
    RefIs(k, i);
    hide Pays, AlreadyCredited, RefOf, Charge, KindOf, Key;
  }

  lemma {:induction false} BookAllTags(
      s: State, k: Close, items: seq<Item>, closed: map<int, Closed>, cds: map<int, Cd>)
    requires CreditsKnown(s, closed, cds) && k.period in closed
    requires OnlyKinds(items, {BinaryBonus, Yield, PointsBonus, RankBonus, Referral, RoyaltyBonus})
    ensures CreditsKnown(BookAll(s, k, items), closed, cds)
    decreases |items|
  {
    hide Book, CreditsKnown, KindOf;
    if items != [] {
      BookTags(s, k, items[0], closed, cds);
      BookAllTags(Book(s, k, items[0]), k, items[1..], closed, cds);
    }
  }

  lemma {:induction false} KnownMeansNew(s: State, closed: map<int, Closed>, cds: map<int, Cd>, period: int)
    requires CreditsKnown(s, closed, cds) && period !in closed
    ensures PeriodNew(s.credits, period)
  {
    forall j | 0 <= j < |s.credits| && s.credits[j].ref.kind != DailyReturn ensures s.credits[j].ref.period != period {
      assert CreditKnown(closed, cds, s.credits[j]);
    }
  }

  lemma {:induction false} CloseTags(
      p: Plan, s: State, w: Week, peak: map<int, int>, closed: map<int, Closed>, record: Closed, cds: map<int, Cd>)
    requires ValidPlan(p) && ValidWeek(w) && StateSound(s, peak) && CreditsKnown(s, closed, cds) && w.period !in closed
    ensures CreditsKnown(StateAfter(p, s, w), closed[w.period := record], cds)
  {
    var closed' := closed[w.period := record];
    PromoteAllKeeps(s, w.promotions, w.instalments, w.cadence, w.end);
    ItemsGood(p, s, w);
    PlanOf(p, s, w);
    assert CreditsKnown(Promoted(s, w), closed', cds) by { MoreClosed(s, Promoted(s, w), closed, closed', cds); }
    hide Items, Promoted, CloseOf, BookAll, Good, OnlyKinds, StateSound, CreditKnown, ThetaFor;
    BookAllTags(Promoted(s, w), CloseOf(p, s, w), Items(p, s, w), closed', cds);
  }

  lemma {:induction false} MoreClosed(
      s: State, s': State, closed: map<int, Closed>, closed': map<int, Closed>, cds: map<int, Cd>)
    requires CreditsKnown(s, closed, cds) && s'.credits == s.credits && closed.Keys <= closed'.Keys
    ensures CreditsKnown(s', closed', cds)
  {
    forall j | 0 <= j < |s.credits| ensures CreditKnown(closed', cds, s.credits[j]) {
      assert CreditKnown(closed, cds, s.credits[j]);
    }
  }
}
