/** The obligations a week creates: referrals and royalties per sale, binary pay per affiliate. */
module NowWeek {
  import opened Prelude
  import opened NowLedger
  import opened NowAccrual

  datatype Member = Member(parent: int, sponsor: int, active: bool, founder: bool)

  // What the binary allocator grants an affiliate this week, and the weekly limit on it.
  datatype Allocation = Allocation(affiliate: int, pkg: int, entitlement: int, limit: int)

  // What one run sees: members, the package of each affiliate's newest live membership, who
  // is qualified at the week's end, on which days an order earns the higher rate, and the
  // binary allocations in affiliate order.
  datatype Universe = Universe(
    members: map<int, Member>, own: map<int, int>, qualified: set<int>, uplift: set<(int, int)>,
    allocations: seq<Allocation>)

  // Shares of a sale, in per cent.
  const REFERRAL := 5
  const FOUNDER_REFERRAL := 10
  const ROYALTY := 5

  // A share of a net amount, in whole cents.
  function ShareOf(net: int, percent: int): int { net * percent / 10_000 }

  // The upline a commission can go to: known, not the root, active.
  function Upline(u: Universe, id: int): Option<Member> {
    if id in u.members && u.members[id].parent != 0 && u.members[id].active then Some(u.members[id]) else None
  }

  function Due(ref: Ref, kind: Kind, pkg: int, amount: int): seq<Obligation> {
    if amount > 0 then [Open(ref, kind, pkg, amount, 0)] else []
  }

  function ReferralDue(u: Universe, period: int, sale: Order, sponsorId: int, sponsor: Member): seq<Obligation> {
    if sponsorId in u.own && sponsorId in u.qualified then
      Due(SaleRef(Direct, period, sale.id), Direct, u.own[sponsorId],
          ShareOf(sale.net, if sponsor.founder then FOUNDER_REFERRAL else REFERRAL))
    else []
  }

  function RoyaltyDue(u: Universe, period: int, sale: Order, grandId: int): seq<Obligation> {
    if grandId in u.own then
      Due(SaleRef(Royalty, period, sale.id), Royalty, u.own[grandId], ShareOf(sale.net, ROYALTY))
    else []
  }

  // Nothing goes further up once a sponsor is missing, the root or inactive.
  function SaleDues(u: Universe, period: int, sale: Order): seq<Obligation>
    requires sale.affiliate in u.members
  {
    var sponsorId := u.members[sale.affiliate].sponsor;
    var sponsor := Upline(u, sponsorId);
    if sponsor.None? then []
    else
      var grandId := sponsor.value.sponsor;
      ReferralDue(u, period, sale, sponsorId, sponsor.value)
      + if Upline(u, grandId).None? then [] else RoyaltyDue(u, period, sale, grandId)
  }

  predicate InWeek(sale: Order, start: int, end: int) { start <= sale.activated < end }

  // Every sale of the week has a known buyer.
  predicate BuyersKnown(u: Universe, orders: seq<Order>, start: int, end: int) {
    forall k :: 0 <= k < |orders| && InWeek(orders[k], start, end) ==> orders[k].affiliate in u.members
  }

  function Dues(u: Universe, orders: seq<Order>, period: int, start: int, end: int): seq<Obligation>
    requires BuyersKnown(u, orders, start, end)
  {
    if orders == [] then []
    else
      var sale := orders[|orders| - 1];
      Dues(u, orders[..|orders| - 1], period, start, end)
      + if InWeek(sale, start, end) then SaleDues(u, period, sale) else []
  }

  function BinaryDue(l: Ledger, period: int, a: Allocation): Obligation
    requires a.pkg in l.caps
  {
    Open(BinaryRef(period, a.affiliate), Binary, a.pkg, a.entitlement,
         a.entitlement - Min(Min(a.entitlement, a.limit), Remaining(l, a.pkg)))
  }

  predicate AllocationsFit(l: Ledger, allocations: seq<Allocation>) {
    && (forall i :: 0 <= i < |allocations| ==>
          0 <= allocations[i].entitlement && 0 <= allocations[i].limit && allocations[i].pkg in l.caps)
    && (forall i, j :: 0 <= i < j < |allocations| ==> allocations[i].affiliate < allocations[j].affiliate)
  }

  function BinaryDues(l: Ledger, period: int, allocations: seq<Allocation>): seq<Obligation>
    requires forall i :: 0 <= i < |allocations| ==> allocations[i].pkg in l.caps
  {
    if allocations == [] then []
    else
      var a := allocations[|allocations| - 1];
      BinaryDues(l, period, allocations[..|allocations| - 1])
      + if a.entitlement > 0 then [BinaryDue(l, period, a)] else []
  }

  /* ----- New obligations never collide ----- */

  ghost predicate Acceptable(l: Ledger, o: Obligation) {
    o.kind != Roi && !o.ref.RoiRef? && o.pkg in l.caps && 0 <= o.excluded <= o.entitlement && o.paid == 0
  }

  ghost predicate DistinctRefs(os: seq<Obligation>) {
    forall i, j :: 0 <= i < j < |os| ==> os[i].ref != os[j].ref
  }

  ghost predicate NewTo(l: Ledger, os: seq<Obligation>) {
    && DistinctRefs(os)
    && forall i :: 0 <= i < |os| ==> Acceptable(l, os[i]) && !HasRef(l, os[i].ref)
  }

  // Adding them all keeps the ledger sound.
  lemma {:induction false} AppendKeepsSound(l: Ledger, os: seq<Obligation>)
    requires Sound(l) && RoiSettled(l) && NewTo(l, os)
    ensures Sound(l.(obligations := l.obligations + os)) && RoiSettled(l.(obligations := l.obligations + os))
    decreases |os|
  {
    if os == [] {
      assert l.obligations + os == l.obligations;
    } else {
      var init, o := os[..|os| - 1], os[|os| - 1];
      AppendKeepsSound(l, init);
      var mid := l.(obligations := l.obligations + init);
      NotYetThere(l, os);
      assert l.obligations + os == mid.obligations + [o];
      CreateKeepsSound(mid, o);
      hide Sound;
    }
  }

  lemma {:induction false} NotYetThere(l: Ledger, os: seq<Obligation>)
    requires os != [] && NewTo(l, os)
    ensures NewTo(l, os[..|os| - 1])
    ensures !HasRef(l.(obligations := l.obligations + os[..|os| - 1]), os[|os| - 1].ref)
    ensures Acceptable(l, os[|os| - 1])
  {
    hide Acceptable;
    var init, o := os[..|os| - 1], os[|os| - 1];
    assert !HasRef(l, o.ref);
    forall i | 0 <= i < |l.obligations + init| ensures (l.obligations + init)[i].ref != o.ref {
      if i >= |l.obligations| { assert (l.obligations + init)[i] == os[i - |l.obligations|]; }
    }
  }

  lemma {:induction false} JoinDistinct(a: seq<Obligation>, b: seq<Obligation>)
    requires DistinctRefs(a) && DistinctRefs(b)
    requires forall i, j :: 0 <= i < |a| && 0 <= j < |b| ==> a[i].ref != b[j].ref
    ensures DistinctRefs(a + b)
  {
  }

  // Packages named by the universe have a cap.
  predicate OwnersFit(l: Ledger, u: Universe) { forall id :: id in u.own ==> u.own[id] in l.caps }

  lemma {:induction false} SaleDuesFit(l: Ledger, u: Universe, period: int, sale: Order)
    requires OwnersFit(l, u) && sale.affiliate in u.members
    ensures var os := SaleDues(u, period, sale);
            && DistinctRefs(os)
            && forall i :: 0 <= i < |os| ==>
                 Acceptable(l, os[i]) && os[i].ref.SaleRef? && os[i].ref.period == period && os[i].ref.sale == sale.id
  {
  }

  lemma {:induction false} DuesFit(l: Ledger, u: Universe, orders: seq<Order>, period: int, start: int, end: int)
    requires OwnersFit(l, u) && BuyersKnown(u, orders, start, end)
    requires forall i, j :: 0 <= i < j < |orders| ==> orders[i].id != orders[j].id
    ensures var os := Dues(u, orders, period, start, end);
            && DistinctRefs(os)
            && forall i :: 0 <= i < |os| ==>
                 Acceptable(l, os[i]) && os[i].ref.SaleRef? && os[i].ref.period == period
                 && exists k :: 0 <= k < |orders| && orders[k].id == os[i].ref.sale
  {
    hide OwnersFit, Acceptable, SaleDues, InWeek;
    if orders != [] {
      var sale, init := orders[|orders| - 1], orders[..|orders| - 1];
      DuesFit(l, u, init, period, start, end);
      var a := Dues(u, init, period, start, end);
      forall i | 0 <= i < |a| ensures a[i].ref.sale != sale.id {
        var k :| 0 <= k < |init| && init[k].id == a[i].ref.sale;
        assert orders[k] == init[k];
      }
      if InWeek(sale, start, end) {
        SaleDuesFit(l, u, period, sale);
        JoinDistinct(a, SaleDues(u, period, sale));
      } else {
        assert Dues(u, orders, period, start, end) == a + [] == a;
      }
    }
  }

  lemma {:induction false} BinaryDueFits(l: Ledger, period: int, a: Allocation)
    requires Sound(l) && a.pkg in l.caps && 0 <= a.entitlement && 0 <= a.limit
    ensures Acceptable(l, BinaryDue(l, period, a))
  {
    assert CapSound(l, a.pkg);
    hide Sound;
  }

  lemma {:induction false} BinaryDuesFit(l: Ledger, period: int, allocations: seq<Allocation>)
    requires Sound(l) && AllocationsFit(l, allocations)
    ensures var os := BinaryDues(l, period, allocations);
            && DistinctRefs(os)
            && forall i :: 0 <= i < |os| ==>
                 Acceptable(l, os[i]) && os[i].ref.BinaryRef? && os[i].ref.period == period
                 && exists k :: 0 <= k < |allocations| && allocations[k].affiliate == os[i].ref.affiliate
  {
    hide Sound, Acceptable, BinaryDue;
    if allocations != [] {
      var a, init := allocations[|allocations| - 1], allocations[..|allocations| - 1];
      BinaryDuesFit(l, period, init);
      BinaryDueFits(l, period, a);
      var os, due := BinaryDues(l, period, init), BinaryDue(l, period, a);
      assert due.ref == BinaryRef(period, a.affiliate) by { DueRef(l, period, a); }
      forall i | 0 <= i < |os| ensures os[i].ref != due.ref {
        var k :| 0 <= k < |init| && init[k].affiliate == os[i].ref.affiliate;
        assert allocations[k] == init[k];
      }
      if a.entitlement > 0 {
        JoinDistinct(os, [due]);
      } else {
        assert os + [] == os;
      }
    }
  }

  lemma {:induction false} DueRef(l: Ledger, period: int, a: Allocation)
    requires a.pkg in l.caps
    ensures BinaryDue(l, period, a).ref == BinaryRef(period, a.affiliate)
  {
  }
}
