/**
 * Who a weekly close pays and for what, affiliate by affiliate: everyone who qualifies is
 * listed, with the amount the plan grants, and nobody else.
 */
module WeekOwed {
  import opened Prelude
  import opened PackageCap
  import opened Theta
  import opened CloseCandidates
  import opened ClosePayments
  import opened RankInstalments
  import opened WeekItems
  import opened WeeklyClose

  /* ----- Binary ----- */

  // The smallest of three amounts.
  predicate Least(x: int, a: int, b: int, c: int) { x <= a && x <= b && x <= c && x in {a, b, c} }

  // What the plan grants an ancestor, in cents: blocks newly matched on its weaker leg, at the
  // founders' rate or the common one, limited by the period cap and the package.
  predicate Grants(p: Plan, r: Ancestor, caps: map<int, Cap>, paid: map<int, int>, c: Candidate)
    requires 0 < p.blockSize
  {
    var weak := if r.pvLeft <= r.pvRight then r.pvLeft else r.pvRight;
    var bonus := if r.founder && 0 < p.founderRate then p.founderRate * p.blockSize * c.blocks / 100
                 else p.bonusPerBlock * c.blocks;
    var cap := if 0 < p.periodCapFactor then p.periodCapFactor * r.pkgAmount * 100
               else p.dailyCapFactor * r.rankBonus * 100;
    var room := if r.pkg in caps && caps[r.pkg].paid < caps[r.pkg].total
                then caps[r.pkg].total - caps[r.pkg].paid else 0;
    && c.blocks == weak / (100 * p.blockSize) - (if r.id in paid then paid[r.id] else 0)
    && 0 < c.blocks && 0 < c.gross && Least(c.gross, bonus * 1_000_000, cap, room * 1_000_000)
    && c.gross + c.capPeriod + c.capPackage == bonus * 1_000_000
    && c.capPeriod == if cap < bonus * 1_000_000 then bonus * 1_000_000 - cap else 0
  }

  // Active, with a package, and on each side that the plan asks it of a child and enough
  // sponsored members.
  predicate MayEarn(p: Plan, r: Ancestor) {
    && r.active && r.pkg != 0
    && (p.directsL <= 0 || (r.childL && p.directsL <= r.sponsoredL))
    && (p.directsR <= 0 || (r.childR && p.directsR <= r.sponsoredR))
  }

  predicate Listed(p: Plan, r: Ancestor, caps: map<int, Cap>, paid: map<int, int>, cutoff: int, c: Candidate)
    requires 0 < p.blockSize
  {
    && MayEarn(p, r) && Grants(p, r, caps, paid, c)
    && c.affiliate == r.id && c.event == r.firstEvent && c.pkg == r.pkg
    && c.side == (if r.pvLeft <= r.pvRight then L else R)
    && c.isFresh == (!p.freshnessRequired || (r.lastPurchase.Some? && cutoff <= r.lastPurchase.value))
    && (c.isFresh || p.pause == Reduce)
  }

  lemma {:induction false} CandidateIff(
      p: Plan, r: Ancestor, caps: map<int, Cap>, paid: map<int, int>, cutoff: int, c: Candidate)
    requires ValidPlan(p)
    ensures CandidateOf(p, r, caps, paid, cutoff) == Some(c) <==> Listed(p, r, caps, paid, cutoff, c)
  {
    BonusIs(p, r, c.blocks);
    BonusIs(p, r, MatchedBlocks(p, r) - BlocksPaid(paid, r.id));
    hide Bonus;
  }

  lemma {:induction false} BonusIs(p: Plan, r: Ancestor, blocks: int)
    ensures Bonus(p, r, blocks) ==
            (if r.founder && 0 < p.founderRate then p.founderRate * p.blockSize * blocks / 100
             else p.bonusPerBlock * blocks) * 1_000_000
  {
  }

  /** A week's candidates are exactly the ancestors that may earn and are granted something. */
  lemma {:induction false} CandidatesIff(
      p: Plan, rows: seq<Ancestor>, caps: map<int, Cap>, paid: map<int, int>, cutoff: int, c: Candidate)
    requires ValidPlan(p)
    ensures c in CandidatesOf(p, rows, caps, paid, cutoff) <==>
            exists m :: 0 <= m < |rows| && Listed(p, rows[m], caps, paid, cutoff, c)
  {
    hide CandidateOf, Listed;
    if rows != [] {
      var n := |rows| - 1;
      var init := rows[..n];
      CandidatesIff(p, init, caps, paid, cutoff, c);
      CandidateIff(p, rows[n], caps, paid, cutoff, c);
      if m :| 0 <= m < n && Listed(p, init[m], caps, paid, cutoff, c) { assert rows[m] == init[m]; }
      if m :| 0 <= m < |rows| && Listed(p, rows[m], caps, paid, cutoff, c) {
        if m < n { assert init[m] == rows[m]; }
      }
    }
  }

  /* ----- Points ----- */

  // Points in dollars, limited by what the binary leaves of the period cap and by the package.
  predicate PointsOwed(p: Plan, r: PointRow, caps: map<int, Cap>, binary: int, i: Item) {
    var full := r.points * p.dollarsPerPoint / 100 * 1_000_000;
    var cap := if 0 < p.periodCapFactor then p.periodCapFactor * r.pkgAmount * 100
               else p.dailyCapFactor * r.rankBonus * 100;
    var room := if r.pkg in caps && caps[r.pkg].paid < caps[r.pkg].total
                then caps[r.pkg].total - caps[r.pkg].paid else 0;
    && r.pkg != 0 && i.PointsItem? && i.affiliate == r.affiliate && i.pkg == r.pkg && 0 < i.exact
    && Least(i.exact, full, cap - binary, room * 1_000_000)
  }

  lemma {:induction false} PointsIff(
      p: Plan, rows: seq<PointRow>, caps: map<int, Cap>, cs: seq<Candidate>, i: Item)
    ensures i in PointItems(p, rows, caps, cs) <==>
            exists m :: 0 <= m < |rows| && PointsOwed(p, rows[m], caps, BinaryGross(cs, rows[m].affiliate), i)
  {
    if rows != [] {
      var n := |rows| - 1;
      var init := rows[..n];
      PointsIff(p, init, caps, cs, i);
      PointsAre(p, rows[n], caps, BinaryGross(cs, rows[n].affiliate), i);
      hide PointGross, PointsOwed, BinaryGross;
      if m :| 0 <= m < n && PointsOwed(p, init[m], caps, BinaryGross(cs, init[m].affiliate), i) {
        assert rows[m] == init[m];
      }
      if m :| 0 <= m < |rows| && PointsOwed(p, rows[m], caps, BinaryGross(cs, rows[m].affiliate), i) {
        if m < n { assert init[m] == rows[m]; }
      }
    }
  }

  lemma {:induction false} PointsAre(p: Plan, r: PointRow, caps: map<int, Cap>, binary: int, i: Item)
    ensures PointsOwed(p, r, caps, binary, i) <==>
            0 < PointGross(p, r, caps, binary) && i == PointsItem(r.affiliate, PointGross(p, r, caps, binary), r.pkg)
  {
  }

  // Binary gross of an affiliate: what its candidates come to.
  lemma {:induction false} BinaryGrossAdds(cs: seq<Candidate>, c: Candidate, affiliate: int)
    ensures BinaryGross([], affiliate) == 0
    ensures BinaryGross(cs + [c], affiliate) ==
            BinaryGross(cs, affiliate) + if c.affiliate == affiliate then c.gross else 0
  {
    assert (cs + [c])[..|cs|] == cs;
  }

  /* ----- Ranks ----- */

  /** Due are the instalments that are not settled and fall due by the end of the week. */
  lemma {:induction false} DueIff(instalments: seq<Instalment>, end: int, upTo: nat, i: Item)
    requires upTo <= |instalments|
    ensures i in DueItems(instalments, end, upTo) <==>
            && i.RankItem? && i.index < upTo
            && instalments[i.index].paid.None? && instalments[i.index].due <= end
            && i.affiliate == instalments[i.index].affiliate && i.amount == instalments[i.index].amount
  {
    if upTo > 0 { DueIff(instalments, end, upTo - 1, i); }
  }

  /**
   * The instalments of a rank: number 1 is due at the end of the week, each later one some
   * weeks after the one before; all are the same whole part of the bonus but the last, which
   * carries the rest. Those that come to nothing are left out.
   */
  lemma {:induction false} ScheduleIff(p: Promotion, n: int, cadence: int, end: int, upTo: nat, x: Instalment)
    requires 0 < n && upTo <= n
    ensures x in Instalments(p, n, cadence, end, upTo) <==>
            && 1 <= x.number <= upTo && x.affiliate == p.affiliate && x.rank == p.rank
            && 0 < x.amount == (if x.number < n then p.bonus / n else p.bonus - (n - 1) * (p.bonus / n))
            && x.due == end + 7 * cadence * (x.number - 1) && x.paid.None?
  {
    if upTo > 0 { ScheduleIff(p, n, cadence, end, upTo - 1, x); }
  }

  // The first promotion of its affiliate and rank, which had not been reached before.
  predicate Fresh(s: State, ps: seq<Promotion>, i: nat)
    requires i < |ps|
  {
    && (ps[i].affiliate, ps[i].rank) !in s.achieved
    && forall j :: 0 <= j < i ==> ps[j].affiliate != ps[i].affiliate || ps[j].rank != ps[i].rank
  }

  ghost predicate Reached(s: State, ps: seq<Promotion>, affiliate: int, rank: int) {
    || (affiliate, rank) in s.achieved
    || exists i :: 0 <= i < |ps| && ps[i].affiliate == affiliate && ps[i].rank == rank
  }

  predicate Schedules(s: State, ps: seq<Promotion>, n: int, cadence: int, end: int, x: Instalment, i: nat)
    requires 0 < n && i < |ps|
  {
    Fresh(s, ps, i) && x in Instalments(ps[i], n, cadence, end, n)
  }

  ghost predicate Scheduled(s: State, ps: seq<Promotion>, n: int, cadence: int, end: int, x: Instalment)
    requires 0 < n
  {
    exists i: nat :: i < |ps| && Schedules(s, ps, n, cadence, end, x, i)
  }

  lemma {:induction false} OneMoreReached(s: State, ps: seq<Promotion>, affiliate: int, rank: int)
    requires ps != []
    ensures var k := |ps| - 1;
            && (Reached(s, ps, affiliate, rank) <==>
                  Reached(s, ps[..k], affiliate, rank) || (ps[k].affiliate == affiliate && ps[k].rank == rank))
            && (Fresh(s, ps, k) <==> !Reached(s, ps[..k], ps[k].affiliate, ps[k].rank))
  {
    var init := ps[..|ps| - 1];
    assert forall i :: 0 <= i < |ps| - 1 ==> init[i] == ps[i];
  }

  lemma {:induction false} OneMoreScheduled(
      s: State, ps: seq<Promotion>, n: int, cadence: int, end: int, x: Instalment)
    requires 0 < n && ps != []
    ensures var k := |ps| - 1;
            Scheduled(s, ps, n, cadence, end, x) <==>
              Scheduled(s, ps[..k], n, cadence, end, x)
              || (Fresh(s, ps, k) && x in Instalments(ps[k], n, cadence, end, n))
  {
    hide Schedules;
    var k := |ps| - 1;
    var init := ps[..k];
    if Scheduled(s, ps, n, cadence, end, x) {
      var i: nat :| i < |ps| && Schedules(s, ps, n, cadence, end, x, i);
      if i < k { SameSchedule(s, ps, k, n, cadence, end, x, i); }
    }
    if Scheduled(s, init, n, cadence, end, x) {
      var i: nat :| i < k && Schedules(s, init, n, cadence, end, x, i);
      SameSchedule(s, ps, k, n, cadence, end, x, i);
    }
    LastSchedule(s, ps, n, cadence, end, x);
  }

  lemma {:induction false} LastSchedule(
      s: State, ps: seq<Promotion>, n: int, cadence: int, end: int, x: Instalment)
    requires 0 < n && ps != []
    ensures var k := |ps| - 1;
            Schedules(s, ps, n, cadence, end, x, k) <==>
              Fresh(s, ps, k) && x in Instalments(ps[k], n, cadence, end, n)
  {
  }

  lemma {:induction false} SameSchedule(
      s: State, ps: seq<Promotion>, k: nat, n: int, cadence: int, end: int, x: Instalment, i: nat)
    requires 0 < n && i < k <= |ps|
    ensures Schedules(s, ps[..k], n, cadence, end, x, i) <==> Schedules(s, ps, n, cadence, end, x, i)
  {
    hide Instalments;
    SameFresh(s, ps, k, i);
    assert ps[..k][i] == ps[i];
    hide Fresh;
  }

  lemma {:induction false} SameFresh(s: State, ps: seq<Promotion>, k: nat, i: nat)
    requires i < k <= |ps|
    ensures Fresh(s, ps[..k], i) <==> Fresh(s, ps, i)
  {
  }

  /** Every rank reached for the first time is recorded and scheduled, and nothing else is. */
  lemma {:induction false} PromotedIff(
      s: State, ps: seq<Promotion>, n: int, cadence: int, end: int, affiliate: int, rank: int, x: Instalment)
    requires 0 < n
    ensures var after := PromoteAll(s, ps, n, cadence, end);
            && ((affiliate, rank) in after.achieved <==> Reached(s, ps, affiliate, rank))
            && (x in after.instalments <==> x in s.instalments || Scheduled(s, ps, n, cadence, end, x))
  {
    if ps != [] {
      hide Instalments, Reached, Scheduled, Fresh;
      var k := |ps| - 1;
      PromotedIff(s, ps[..k], n, cadence, end, affiliate, rank, x);
      PromotedIff(s, ps[..k], n, cadence, end, ps[k].affiliate, ps[k].rank, x);
      OneMoreReached(s, ps, affiliate, rank);
      OneMoreScheduled(s, ps, n, cadence, end, x);
    }
  }

  /* ----- The whole week ----- */

  // A credit of a stream: yield, referral or royalty.
  predicate StreamOwed(kind: Kind, shares: seq<Share>, i: Item) {
    exists n :: 0 <= n < |shares|
                && i == StreamItem(kind, shares[n].affiliate, shares[n].amount * 1_000_000, shares[n].key)
  }

  /** Everything a week pays, and nothing else. */
  lemma {:induction false} ItemsIff(p: Plan, s: State, w: Week, i: Item)
    requires ValidPlan(p) && 0 < w.instalments
    ensures var cs := CandidatesOf(p, w.ancestors, s.caps, s.blocks, w.cutoff);
            var due := Promoted(s, w).instalments;
            i in Items(p, s, w) <==>
              || (i.BinaryItem? && i.c in cs)
              || StreamOwed(Yield, w.yieldShares, i) || i in PointItems(p, w.pointRows, s.caps, cs)
              || i in DueItems(due, w.end, |due|)
              || StreamOwed(Referral, w.referrals, i) || StreamOwed(RoyaltyBonus, w.royalties, i)
  {
    hide CandidatesOf, PointItems, DueItems, Promoted, ValidPlan;
    var cs := CandidatesOf(p, w.ancestors, s.caps, s.blocks, w.cutoff);
    assert i in Binaries(cs) <==> i.BinaryItem? && i.c in cs;
    StreamIff(Yield, w.yieldShares, i);
    StreamIff(Referral, w.referrals, i);
    StreamIff(RoyaltyBonus, w.royalties, i);
    hide StreamOwed, Streams, Binaries;
  }

  lemma {:induction false} StreamIff(kind: Kind, shares: seq<Share>, i: Item)
    ensures i in Streams(kind, shares) <==> StreamOwed(kind, shares, i)
  {
  }

  // The sum theta is computed from: every item counts with its amount, once.
  lemma {:induction false} ProjectedAdds(items: seq<Item>, i: Item)
    ensures Sum(Grosses([])) == 0
    ensures Sum(Grosses([i] + items)) ==
            (match i
             case BinaryItem(c) => c.gross
             case StreamItem(_, _, exact, _) => exact
             case PointsItem(_, exact, _) => exact
             case RankItem(_, _, amount) => amount * 1_000_000) + Sum(Grosses(items))
  {
    assert ([i] + items)[1..] == items;
  }

  /**
   * The theta of a week: in full if alpha of its inflows covers all items, and otherwise the
   * largest number of millionths that it covers.
   */
  lemma {:induction false} ThetaIs(p: Plan, s: State, w: Week)
    requires ValidPlan(p) && 0 < w.instalments && 0 <= w.inflows
    ensures var projected, theta := Sum(Grosses(Items(p, s, w))), ThetaFor(p, s, w);
            && ProjectedFor(p, s, w) == projected && 0 <= theta <= 1_000_000
            && (projected <= p.alpha * w.inflows ==> theta == 1_000_000)
            && (p.alpha * w.inflows < projected ==>
                  theta * projected <= 1_000_000 * (p.alpha * w.inflows) < (theta + 1) * projected)
  {
    var projected, funds := Sum(Grosses(Items(p, s, w))), p.alpha * w.inflows;
    MulMonotone(0, p.alpha, w.inflows);
    hide Items, Sum, Grosses;
    if 0 < projected { ThetaIsLargest(funds, projected); }
    if funds < projected { ShareBelowOne(funds, projected); }
  }

  lemma {:induction false} PayingUsesPoints(s: State, k: Close, items: seq<Item>, id: int)
    ensures var before, after := s.points, BookAll(s, k, items).points;
            (if id in after then after[id] else 0) in {0, if id in before then before[id] else 0}
    decreases |items|
  {
    if items != [] {
      BookMoves(s, k, items[0]);
      hide Book, Pays;
      PayingUsesPoints(Book(s, k, items[0]), k, items[1..], id);
    }
  }

  // Where a plan grants no points a close leaves them as they are or uses them up.
  lemma {:induction false} NoPointsWithoutPlan(p: Plan, s: State, w: Week, id: int)
    requires ValidPlan(p) && 0 < w.instalments && !p.pointsEnabled
    ensures var before, after := s.points, StateAfter(p, s, w).points;
            (if id in after then after[id] else 0) in {0, if id in before then before[id] else 0}
  {
    hide BookAll, Items, AccruedPoints, Candidates, ThetaFor, CloseOf;
    PayingUsesPoints(Promoted(s, w), CloseOf(p, s, w), Items(p, s, w), id);
    PromotionKeepsPoints(s, w.promotions, w.instalments, w.cadence, w.end);
  }

  lemma {:induction false} PromotionKeepsPoints(s: State, ps: seq<Promotion>, n: int, cadence: int, end: int)
    requires 0 < n
    ensures PromoteAll(s, ps, n, cadence, end).points == s.points
  {
    if ps != [] { PromotionKeepsPoints(s, ps[..|ps| - 1], n, cadence, end); }
  }

  // Points earned by a week's candidates: for each block that theta paid in full.
  lemma {:induction false} PointsAdd(
      points: map<int, int>, p: Plan, cs: seq<Candidate>, c: Candidate, theta: int, id: int)
    requires ValidPlan(p) && 0 <= theta && 0 <= c.blocks
    ensures AccruedPoints(points, p, [], theta) == points
    ensures var before, after := AccruedPoints(points, p, cs, theta), AccruedPoints(points, p, cs + [c], theta);
            (if id in after then after[id] else 0) ==
            (if id in before then before[id] else 0)
            + if c.affiliate == id then c.blocks * theta / 1_000_000 * p.pointsPerBlock else 0
  {
    assert (cs + [c])[..|cs|] == cs;
    MulMonotone(0, c.blocks, theta);
  }
}
