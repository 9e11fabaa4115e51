/** Everything one week pays for, in the order it is paid, and why the parts fit together. */
module WeekItems {
  import opened Prelude
  import opened PackageCap
  import opened CloseCandidates
  import opened ClosePayments
  import opened RankInstalments

  // A yield, referral or royalty amount in cents, with the key of its reference.
  datatype Share = Share(affiliate: int, amount: int, key: int)

  // Accrued points (hundredths) of an active affiliate, with its own package.
  datatype PointRow = PointRow(affiliate: int, points: int, pkg: int, pkgAmount: int, rankBonus: int)

  datatype Week = Week(
    period: int, end: int, inflows: int, ancestors: seq<Ancestor>, cutoff: int,
    yieldShares: seq<Share>, pointRows: seq<PointRow>, promotions: seq<Promotion>, instalments: int, cadence: int,
    referrals: seq<Share>, royalties: seq<Share>, routing: Routing)

  ghost predicate ValidShares(shares: seq<Share>) {
    && (forall n :: 0 <= n < |shares| ==> 0 < shares[n].amount)
    && (forall n, m :: 0 <= n < m < |shares| ==> shares[n].key != shares[m].key)
  }

  ghost predicate ValidWeek(w: Week) {
    && 0 <= w.inflows && 0 < w.instalments
    && (forall n, m :: 0 <= n < m < |w.ancestors| ==>
          w.ancestors[n].id != w.ancestors[m].id
          && (w.ancestors[n].pkg != 0 ==> w.ancestors[n].pkg != w.ancestors[m].pkg))
    && (forall n, m :: 0 <= n < m < |w.pointRows| ==> w.pointRows[n].affiliate != w.pointRows[m].affiliate)
    && ValidShares(w.yieldShares) && ValidShares(w.referrals) && ValidShares(w.royalties)
    && (forall n :: 0 <= n < |w.promotions| ==> 0 <= w.promotions[n].bonus)
  }

  /* ----- The parts ----- */

  function Binaries(cs: seq<Candidate>): (items: seq<Item>)
    ensures |items| == |cs| && forall n :: 0 <= n < |cs| ==> items[n] == BinaryItem(cs[n])
  {
    seq(|cs|, n requires 0 <= n < |cs| => BinaryItem(cs[n]))
  }

  function Streams(kind: Kind, shares: seq<Share>): (items: seq<Item>)
    ensures |items| == |shares|
    ensures forall n :: 0 <= n < |shares| ==>
              items[n] == StreamItem(kind, shares[n].affiliate, shares[n].amount * CENT, shares[n].key)
  {
    seq(|shares|, n requires 0 <= n < |shares| =>
      StreamItem(kind, shares[n].affiliate, shares[n].amount * CENT, shares[n].key))
  }

  // Binary gross of an affiliate in this week.
  function BinaryGross(cs: seq<Candidate>, affiliate: int): int {
    if cs == [] then 0
    else BinaryGross(cs[..|cs| - 1], affiliate) + if cs[|cs| - 1].affiliate == affiliate then cs[|cs| - 1].gross else 0
  }

  // Points share the period cap with the binary, and the package cap.
  function PointGross(p: Plan, r: PointRow, caps: map<int, Cap>, binary: int): int {
    if r.pkg == 0 then 0
    else
      var full := r.points * p.dollarsPerPoint / 100 * CENT;
      var inPeriod := Min(full, Max(0, PeriodCap(p, r.pkgAmount, r.rankBonus) - binary));
      Min(inPeriod, PackageRoom(caps, r.pkg) * CENT)
  }

  function PointItems(p: Plan, rows: seq<PointRow>, caps: map<int, Cap>, cs: seq<Candidate>): seq<Item> {
    if rows == [] then []
    else
      var r := rows[|rows| - 1];
      var gross := PointGross(p, r, caps, BinaryGross(cs, r.affiliate));
      var others := PointItems(p, rows[..|rows| - 1], caps, cs);
      if 0 < gross then others + [PointsItem(r.affiliate, gross, r.pkg)] else others
  }

  // Instalments due and not settled, oldest first.
  function DueItems(instalments: seq<Instalment>, end: int, upTo: nat): seq<Item>
    requires upTo <= |instalments|
  {
    if upTo == 0 then []
    else
      var n, others := upTo - 1, DueItems(instalments, end, upTo - 1);
      if instalments[n].paid.None? && instalments[n].due <= end
      then others + [RankItem(n, instalments[n].affiliate, instalments[n].amount)] else others
  }

  function PromoteAll(s: State, ps: seq<Promotion>, n: int, cadence: int, end: int): State
    requires 0 < n
  {
    if ps == [] then s else Promote(PromoteAll(s, ps[..|ps| - 1], n, cadence, end), ps[|ps| - 1], n, cadence, end)
  }

  function Candidates(p: Plan, s: State, w: Week): seq<Candidate>
    requires ValidPlan(p)
  {
    CandidatesOf(p, w.ancestors, s.caps, s.blocks, w.cutoff)
  }

  function Promoted(s: State, w: Week): State
    requires 0 < w.instalments
  {
    PromoteAll(s, w.promotions, w.instalments, w.cadence, w.end)
  }

  // Everything paid, in order: binary, yield, points, ranks, referrals, royalties.
  function Items(p: Plan, s: State, w: Week): seq<Item>
    requires ValidPlan(p) && 0 < w.instalments
  {
    var cs := Candidates(p, s, w);
    var due := Promoted(s, w).instalments;
    Binaries(cs) + (Streams(Yield, w.yieldShares) + (PointItems(p, w.pointRows, s.caps, cs)
    + (DueItems(due, w.end, |due|) + (Streams(Referral, w.referrals) + Streams(RoyaltyBonus, w.royalties)))))
  }

  /* ----- Caps over binary and points together ----- */

  lemma {:induction false} CandidatesFrom(
      p: Plan, rows: seq<Ancestor>, caps: map<int, Cap>, paid: map<int, int>, cutoff: int, n: nat)
    requires ValidPlan(p) && n < |CandidatesOf(p, rows, caps, paid, cutoff)|
    ensures exists m ::
              0 <= m < |rows|
              && CandidateOf(p, rows[m], caps, paid, cutoff) == Some(CandidatesOf(p, rows, caps, paid, cutoff)[n])
  {
    hide CandidateOf;
    var init := rows[..|rows| - 1];
    if n < |CandidatesOf(p, init, caps, paid, cutoff)| {
      CandidatesFrom(p, init, caps, paid, cutoff, n);
      var m :| 0 <= m < |init|
          && CandidateOf(p, init[m], caps, paid, cutoff) == Some(CandidatesOf(p, init, caps, paid, cutoff)[n]);
      assert rows[m] == init[m];
    } else {
      assert CandidateOf(p, rows[|rows| - 1], caps, paid, cutoff) == Some(CandidatesOf(p, rows, caps, paid, cutoff)[n]);
    }
  }

  ghost predicate Distinct(cs: seq<Candidate>) {
    forall n, m :: 0 <= n < m < |cs| ==> cs[n].affiliate != cs[m].affiliate && cs[n].pkg != cs[m].pkg
  }

  lemma {:induction false} DistinctAppend(cs: seq<Candidate>, c: Candidate)
    requires Distinct(cs) && forall n :: 0 <= n < |cs| ==> cs[n].affiliate != c.affiliate && cs[n].pkg != c.pkg
    ensures Distinct(cs + [c])
  {
  }

  // Candidates of distinct ancestors with packages of their own are distinct.
  lemma {:induction false} CandidatesDistinct(
      p: Plan, rows: seq<Ancestor>, caps: map<int, Cap>, paid: map<int, int>, cutoff: int)
    requires ValidPlan(p)
    requires forall n, m :: 0 <= n < m < |rows| ==>
               rows[n].id != rows[m].id && (rows[n].pkg != 0 ==> rows[n].pkg != rows[m].pkg)
    ensures Distinct(CandidatesOf(p, rows, caps, paid, cutoff))
  {
    if rows != [] {
      var init, r := rows[..|rows| - 1], rows[|rows| - 1];
      CandidatesDistinct(p, init, caps, paid, cutoff);
      var cs := CandidatesOf(p, init, caps, paid, cutoff);
      if CandidateOf(p, r, caps, paid, cutoff).Some? {
        CandidateFits(p, r, caps, paid, cutoff);
        hide Distinct;
        forall n | 0 <= n < |cs|
          ensures cs[n].affiliate != r.id && cs[n].pkg != r.pkg
        {
          CandidatesFrom(p, init, caps, paid, cutoff, n);
          var m :| 0 <= m < |init| && CandidateOf(p, init[m], caps, paid, cutoff) == Some(cs[n]);
          CandidateFits(p, init[m], caps, paid, cutoff);
          CandidateOwnsPackage(p, init[m], caps, paid, cutoff);
          assert init[m] == rows[m];
        }
        DistinctAppend(cs, CandidateOf(p, r, caps, paid, cutoff).value);
      }
    }
  }

  lemma {:induction false} CandidateOwnsPackage(
      p: Plan, r: Ancestor, caps: map<int, Cap>, paid: map<int, int>, cutoff: int)
    requires ValidPlan(p) && CandidateOf(p, r, caps, paid, cutoff).Some?
    ensures r.pkg != 0
  {
  }

  lemma {:induction false} NoBinary(cs: seq<Candidate>, affiliate: int)
    requires forall n :: 0 <= n < |cs| ==> cs[n].affiliate != affiliate
    ensures BinaryGross(cs, affiliate) == 0
  {
    if cs != [] { NoBinary(cs[..|cs| - 1], affiliate); }
  }

  lemma {:induction false} BinaryGrossIs(cs: seq<Candidate>, n: nat)
    requires n < |cs| && Distinct(cs)
    ensures BinaryGross(cs, cs[n].affiliate) == cs[n].gross
  {
    var init := cs[..|cs| - 1];
    if n == |cs| - 1 {
      NoBinary(init, cs[n].affiliate);
    } else {
      BinaryGrossIs(init, n);
    }
  }

  lemma {:induction false} BinaryWithinCap(p: Plan, s: State, w: Week, n: nat, r: PointRow)
    requires ValidPlan(p) && ValidWeek(w) && n < |Candidates(p, s, w)|
    requires Candidates(p, s, w)[n].affiliate == r.affiliate && SamePlace(w, r)
    ensures 0 <= BinaryGross(Candidates(p, s, w), r.affiliate) <= PeriodCap(p, r.pkgAmount, r.rankBonus)
  {
    CandidatesDistinct(p, w.ancestors, s.caps, s.blocks, w.cutoff);
    var cs := Candidates(p, s, w);
    BinaryGrossIs(cs, n);
    CandidatesFrom(p, w.ancestors, s.caps, s.blocks, w.cutoff, n);
    var m :| 0 <= m < |w.ancestors|
        && CandidateOf(p, w.ancestors[m], s.caps, s.blocks, w.cutoff) == Some(Candidates(p, s, w)[n]);
    CandidateFits(p, w.ancestors[m], s.caps, s.blocks, w.cutoff);
    hide CandidatesOf, PeriodCap, CandidateOf, BinaryGross, PackageRoom;
  }

  // Both queries read the same package amount and rank bonus of an affiliate.
  ghost predicate SamePlace(w: Week, r: PointRow) {
    forall m :: 0 <= m < |w.ancestors| && w.ancestors[m].id == r.affiliate ==>
      w.ancestors[m].pkgAmount == r.pkgAmount && w.ancestors[m].rankBonus == r.rankBonus
  }

  /**
   * In one week an affiliate's binary, which may be nothing, and its points together stay within
   * its period cap, and the points within its package.
   */
  lemma {:induction false} BinaryAndPointsShareCap(p: Plan, s: State, w: Week, r: PointRow)
    requires ValidPlan(p) && ValidWeek(w) && SamePlace(w, r)
    ensures var binary := BinaryGross(Candidates(p, s, w), r.affiliate);
            var points := PointGross(p, r, s.caps, binary);
            && 0 <= binary
            && binary + Max(0, points) <= Max(0, PeriodCap(p, r.pkgAmount, r.rankBonus))
            && points <= Max(0, PackageRoom(s.caps, r.pkg) * CENT)
  {
    var cs := Candidates(p, s, w);
    hide CandidatesOf, PeriodCap, SamePlace, PackageRoom;
    if n :| 0 <= n < |cs| && cs[n].affiliate == r.affiliate {
      BinaryWithinCap(p, s, w, n, r);
    } else {
      NoBinary(cs, r.affiliate);
    }
    hide BinaryGross;
  }
}
