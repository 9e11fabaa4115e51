/**
 * Who is owed binary pay at a weekly close: matched blocks not yet paid, limited first by the
 * period cap and then by what is left of the affiliate's own package.
 */
module CloseCandidates {
  import opened Prelude
  import opened PackageCap

  // Exact amounts are millionths of a cent; cents are what gets paid.
  const CENT := 1_000_000

  datatype PauseMode = Skip | Reduce

  // Factors and rates are ten-thousandths, alpha and theta millionths.
  datatype Plan = Plan(
    blockSize: int, bonusPerBlock: int, dailyCapFactor: int, periodCapFactor: int, alpha: int,
    directsL: int, directsR: int, freshnessRequired: bool, pause: PauseMode, reduction: int,
    founderRate: int, pointsEnabled: bool, pointsPerBlock: int, dollarsPerPoint: int)

  predicate ValidPlan(p: Plan) {
    && 0 < p.blockSize && 0 < p.bonusPerBlock && 0 < p.dailyCapFactor && 0 <= p.periodCapFactor
    && 0 <= p.alpha <= 1_000_000 && 0 <= p.reduction <= 10_000 && 0 <= p.pointsPerBlock && 0 <= p.dollarsPerPoint
  }

  // An ancestor touched by the week's events. PV and package amounts are cents; package 0 is none.
  datatype Ancestor = Ancestor(
    id: int, firstEvent: int, active: bool, founder: bool, pvLeft: int, pvRight: int,
    pkg: int, pkgAmount: int, rankBonus: int, childL: bool, childR: bool,
    sponsoredL: int, sponsoredR: int, lastPurchase: Option<int>)

  datatype Candidate = Candidate(
    affiliate: int, event: int, pkg: int, side: Side, blocks: int,
    gross: int, capPeriod: int, capPackage: int, isFresh: bool)

  // What is left of a package, in cents; a package without cap state has nothing left.
  function PackageRoom(caps: map<int, Cap>, pkg: int): int {
    if pkg in caps then Max(0, caps[pkg].total - caps[pkg].paid) else 0
  }

  predicate Qualified(p: Plan, r: Ancestor) {
    && r.active && r.pkg != 0
    && (p.directsL > 0 ==> r.childL && r.sponsoredL >= p.directsL)
    && (p.directsR > 0 ==> r.childR && r.sponsoredR >= p.directsR)
  }

  predicate FreshEnough(p: Plan, r: Ancestor, cutoff: int) {
    p.freshnessRequired ==> r.lastPurchase.Some? && r.lastPurchase.value >= cutoff
  }

  function Matched(r: Ancestor): int { if r.pvRight < r.pvLeft then r.pvRight else r.pvLeft }

  // Whole blocks of PV ever matched.
  function MatchedBlocks(p: Plan, r: Ancestor): int
    requires 0 < p.blockSize
  {
    Matched(r) / (100 * p.blockSize)
  }

  function Bonus(p: Plan, r: Ancestor, blocks: int): int {
    if r.founder && p.founderRate > 0 then p.founderRate * p.blockSize * blocks / 100 * CENT
    else p.bonusPerBlock * blocks * CENT
  }

  function PeriodCap(p: Plan, pkgAmount: int, rankBonus: int): int {
    if p.periodCapFactor > 0 then p.periodCapFactor * pkgAmount * 100 else p.dailyCapFactor * rankBonus * 100
  }

  function BlocksPaid(paid: map<int, int>, id: int): int { if id in paid then paid[id] else 0 }

  function CandidateOf(p: Plan, r: Ancestor, caps: map<int, Cap>, paid: map<int, int>, cutoff: int): Option<Candidate>
    requires ValidPlan(p)
  {
    var blocks := MatchedBlocks(p, r) - BlocksPaid(paid, r.id);
    if !Qualified(p, r) || (!FreshEnough(p, r, cutoff) && p.pause == Skip) || blocks <= 0 then None
    else
      var bonus := Bonus(p, r, blocks);
      var inPeriod := Min(bonus, PeriodCap(p, r.pkgAmount, r.rankBonus));
      var gross := Min(inPeriod, PackageRoom(caps, r.pkg) * CENT);
      if gross <= 0 then None
      else Some(Candidate(r.id, r.firstEvent, r.pkg, if r.pvRight < r.pvLeft then R else L, blocks,
                          gross, bonus - inPeriod, inPeriod - gross, FreshEnough(p, r, cutoff)))
  }

  /**
   * A candidate brings an ancestor exactly up to its matched blocks; its gross fits the period
   * cap and the package, and what either cap took off is accounted for.
   */
  lemma {:induction false} CandidateFits(p: Plan, r: Ancestor, caps: map<int, Cap>, paid: map<int, int>, cutoff: int)
    requires ValidPlan(p) && CandidateOf(p, r, caps, paid, cutoff).Some?
    ensures var c := CandidateOf(p, r, caps, paid, cutoff).value;
            && c.affiliate == r.id && c.pkg == r.pkg
            && 0 < c.blocks && BlocksPaid(paid, r.id) + c.blocks == MatchedBlocks(p, r)
            && 0 < c.gross <= PeriodCap(p, r.pkgAmount, r.rankBonus)
            && c.gross <= PackageRoom(caps, r.pkg) * CENT
            && 0 <= c.capPeriod && 0 <= c.capPackage && c.gross + c.capPeriod + c.capPackage == Bonus(p, r, c.blocks)
            && (0 < c.capPackage ==> c.gross == PackageRoom(caps, r.pkg) * CENT)
            && (0 < c.capPeriod && c.capPackage == 0 ==> c.gross == PeriodCap(p, r.pkgAmount, r.rankBonus))
  {
    hide Bonus, PeriodCap, MatchedBlocks, Qualified, FreshEnough;
  }

  function CandidatesOf(
      p: Plan, rows: seq<Ancestor>, caps: map<int, Cap>, paid: map<int, int>, cutoff: int): seq<Candidate>
    requires ValidPlan(p)
  {
    if rows == [] then []
    else
      var c := CandidateOf(p, rows[|rows| - 1], caps, paid, cutoff);
      var others := CandidatesOf(p, rows[..|rows| - 1], caps, paid, cutoff);
      if c.Some? then others + [c.value] else others
  }

  /** The enumeration, row by row: qualification, freshness, new blocks, period cap, package. */
  method EnumerateCandidates(
      p: Plan, rows: seq<Ancestor>, caps: map<int, Cap>, paid: map<int, int>, cutoff: int)
    returns (candidates: seq<Candidate>)
    requires ValidPlan(p)
    ensures candidates == CandidatesOf(p, rows, caps, paid, cutoff)
  {
    candidates := [];
    for i := 0 to |rows|
      invariant candidates == CandidatesOf(p, rows[..i], caps, paid, cutoff)
    {
      hide PackageRoom, BlocksPaid;
      var r := rows[i];
      assert rows[..i + 1][..i] == rows[..i] && rows[..i + 1][i] == r;
      if !r.active || r.pkg == 0 { continue; }
      if p.directsL > 0 && (!r.childL || r.sponsoredL < p.directsL) { continue; }
      if p.directsR > 0 && (!r.childR || r.sponsoredR < p.directsR) { continue; }
      var isFresh := true;
      if p.freshnessRequired {
        isFresh := r.lastPurchase.Some? && r.lastPurchase.value >= cutoff;
        if !isFresh && p.pause == Skip { continue; }
      }
      var matched, side := r.pvLeft, L;
      if r.pvRight < r.pvLeft { matched, side := r.pvRight, R; }
      var blocks := matched / (100 * p.blockSize) - BlocksPaid(paid, r.id);
      if blocks <= 0 { continue; }
      hide MatchedBlocks;
      assert matched / (100 * p.blockSize) == MatchedBlocks(p, r) by { BlocksAre(p, r); }
      var gross := Bonus(p, r, blocks);
      hide Bonus;
      var periodCap := PeriodCap(p, r.pkgAmount, r.rankBonus);
      hide PeriodCap;
      var capPeriod := 0;
      if gross > periodCap { capPeriod, gross := gross - periodCap, periodCap; }
      var room := PackageRoom(caps, r.pkg) * CENT;
      var capPackage := 0;
      if gross > room { capPackage, gross := gross - room, room; }
      if gross <= 0 { continue; }
      candidates := candidates
          + [Candidate(r.id, r.firstEvent, r.pkg, side, blocks, gross, capPeriod, capPackage, isFresh)];
    }
    assert rows[..|rows|] == rows;
  }

  lemma {:induction false} BlocksAre(p: Plan, r: Ancestor)
    requires 0 < p.blockSize
    ensures MatchedBlocks(p, r) == Matched(r) / (100 * p.blockSize)
  {
  }
}
