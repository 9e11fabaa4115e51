/** What a week owes, sale by sale and affiliate by affiliate, and what its close records. */
module NowDues {
  import opened NowLedger
  import opened NowAccrual
  import opened NowClose
  import opened NowPayout
  import opened NowWeek
  import opened NowBooks

  /* ----- Referrals and royalties ----- */

  // Known, below the root and active.
  predicate Earns(u: Universe, id: int) { id in u.members && u.members[id].parent != 0 && u.members[id].active }

  /**
   * One sale: five per cent of its net for a qualified sponsor, ten for a founder, and five for
   * the sponsor's own sponsor; each to the package of the one it is for, in whole cents, and
   * nothing to anyone above a sponsor that earns nothing.
   */
  lemma {:induction false} SaleOwes(u: Universe, period: int, sale: Order, o: Obligation)
    requires sale.affiliate in u.members
    ensures var s := u.members[sale.affiliate].sponsor;
            o in SaleDues(u, period, sale) <==>
              || (Earns(u, s) && s in u.own && s in u.qualified
                  && var amount := sale.net * (if u.members[s].founder then 10 else 5) / 10_000;
                     0 < amount
                     && o == Obligation(SaleRef(Direct, period, sale.id), Direct, u.own[s], amount, 0, 0))
              || (Earns(u, s) && Earns(u, u.members[s].sponsor) && u.members[s].sponsor in u.own
                  && var amount := sale.net * 5 / 10_000;
                     0 < amount
                     && o == Obligation(SaleRef(Royalty, period, sale.id), Royalty, u.own[u.members[s].sponsor], amount,
                                        0, 0))
  {
  }

  /** A week owes what its sales owe: those activated from its start to before its end. */
  lemma {:induction false} WeekOwes(u: Universe, orders: seq<Order>, period: int, start: int, end: int, o: Obligation)
    requires BuyersKnown(u, orders, start, end)
    ensures o in Dues(u, orders, period, start, end) <==>
            exists k :: 0 <= k < |orders| && start <= orders[k].activated < end
                        && orders[k].affiliate in u.members && o in SaleDues(u, period, orders[k])
  {
    hide SaleDues;
    if orders != [] {
      var n := |orders| - 1;
      var init := orders[..n];
      WeekOwes(u, init, period, start, end, o);
      if k :| 0 <= k < n && start <= init[k].activated < end && init[k].affiliate in u.members
              && o in SaleDues(u, period, init[k]) {
        assert orders[k] == init[k];
      }
      if k :| 0 <= k < |orders| && start <= orders[k].activated < end && orders[k].affiliate in u.members
              && o in SaleDues(u, period, orders[k]) {
        if k < n { assert init[k] == orders[k]; }
      }
    }
  }

  /* ----- Binary pay ----- */

  /**
   * Binary pay: for each granted affiliate its entitlement, of which no more stays payable than
   * the weekly limit and what the package still has.
   */
  lemma {:induction false} GrantsOwe(l: Ledger, period: int, allocations: seq<Allocation>, o: Obligation)
    requires forall i :: 0 <= i < |allocations| ==> allocations[i].pkg in l.caps
    ensures o in BinaryDues(l, period, allocations) <==>
            exists k :: 0 <= k < |allocations| && Grants(l, period, allocations[k], o)
  {
    hide BinaryDue, Grants;
    if allocations != [] {
      var n := |allocations| - 1;
      var init := allocations[..n];
      GrantsOwe(l, period, init, o);
      GrantOwes(l, period, allocations[n], o);
      if k :| 0 <= k < n && Grants(l, period, init[k], o) { assert allocations[k] == init[k]; }
      if k :| 0 <= k < |allocations| && Grants(l, period, allocations[k], o) {
        if k < n { assert init[k] == allocations[k]; }
      }
    }
  }

  predicate Grants(l: Ledger, period: int, a: Allocation, o: Obligation)
    requires a.pkg in l.caps
  {
    var rest, payable := l.caps[a.pkg].total - l.caps[a.pkg].paid, o.entitlement - o.excluded;
    && 0 < a.entitlement == o.entitlement && o.paid == 0
    && o.ref == BinaryRef(period, a.affiliate) && o.kind == Binary && o.pkg == a.pkg
    && payable <= a.entitlement && payable <= a.limit && payable <= rest && payable in {a.entitlement, a.limit, rest}
  }

  lemma {:induction false} GrantOwes(l: Ledger, period: int, a: Allocation, o: Obligation)
    requires a.pkg in l.caps
    ensures Grants(l, period, a, o) <==> 0 < a.entitlement && o == BinaryDue(l, period, a)
  {
  }

  /* ----- The record of a week ----- */

  // All a week owes: what was open before, its referrals and royalties, and its binary pay.
  function Owing(b: Books, u: Universe, start: int, end: int): seq<Obligation>
    requires UniverseFits(b, u, start, end)
  {
    b.acc.ledger.obligations + Dues(u, b.orders, |b.closed|, start, end)
    + BinaryDues(b.acc.ledger, |b.closed|, u.allocations)
  }

  // The record of a week tells what happened: its inflows and returns, all that was owed, what
  // was paid out of it, and all that is still owed in the ledger afterwards.
  ghost predicate Tells(c: Closed, b: Books, l': Ledger, owing: seq<Obligation>, start: int, end: int) {
    var l := b.acc.ledger;
    && c.start == start && c.end == end
    && c.inflow == Inflows(b.orders, end) - Inflows(b.orders, start)
    && c.roi == TotalOf(RoiBefore(end), l.payments) - TotalOf(RoiBefore(start), l.payments)
    && c.projected == TotalOwed(owing) && c.held == TotalOwed(l'.obligations)
    && c.paid == TotalOf(OthersBefore(end + 1), l'.payments) - TotalOf(OthersBefore(end + 1), l.payments)
    && EachPaid(Ledger(owing, l.payments, l.caps), l', c.theta)
    && (c.projected <= Budget(b.orders, l, end) ==> c.held == 0)
  }

  /** A close takes up all the week owes, pays every part of it its share, and records it so. */
  lemma {:induction false} CloseRecords(b: Books, u: Universe, start: int, end: int)
    requires BooksInv(b) && UniverseFits(b, u, start, end)
    ensures var after := CloseWeek(b, u, start, end);
            && |after.closed| == |b.closed| + 1 && after.closed[..|b.closed|] == b.closed
            && Tells(after.closed[|b.closed|], b, after.acc.ledger, Owing(b, u, start, end), start, end)
  {
    hide Sound, RoiSettled, Inv, Solvent, Passed, BooksInv, Inflows, TotalOf, PayOut, PaidNow, Projected, EachPaid,
      BuyersKnown, OwnersFit, AllocationsFit, Budget, TotalOwed, Owing, WithDues, WithBinary, ClosingTheta;
    OwingIsBooked(b, u, start, end);
    var owed := WithBinary(WithDues(b, u, start, end), |b.closed|, u);
    CloseStaysInBudget(b.orders, owed, end);
    ProjectedIsOwed(owed);
    ProjectedIsOwed(PayOut(b.orders, owed, end));
    CloseTakesUpAll(b.orders, owed, end);
    assert Budget(b.orders, owed, end) == Budget(b.orders, b.acc.ledger, end) by { SameBudget(b.orders, owed, b, end); }
  }

  lemma {:induction false} SameBudget(orders: seq<Order>, l: Ledger, b: Books, end: int)
    requires l.payments == b.acc.ledger.payments
    ensures Budget(orders, l, end) == Budget(orders, b.acc.ledger, end)
  {
  }

  lemma {:induction false} OwingIsBooked(b: Books, u: Universe, start: int, end: int)
    requires BooksInv(b) && UniverseFits(b, u, start, end)
    ensures AllocationsFit(WithDues(b, u, start, end), u.allocations)
    ensures var owed := WithBinary(WithDues(b, u, start, end), |b.closed|, u);
            && Sound(owed) && RoiSettled(owed)
            && owed == Ledger(Owing(b, u, start, end), b.acc.ledger.payments, b.acc.ledger.caps)
  {
    hide BooksInv, Sound, RoiSettled;
    OwedIsSound(b, u, start, end);
    SameBinaryDues(b.acc.ledger, WithDues(b, u, start, end), |b.closed|, u.allocations);
    hide Dues, BinaryDues;
  }

  lemma {:induction false} SameBinaryDues(l: Ledger, l': Ledger, period: int, allocations: seq<Allocation>)
    requires l.caps == l'.caps && forall i :: 0 <= i < |allocations| ==> allocations[i].pkg in l.caps
    ensures BinaryDues(l, period, allocations) == BinaryDues(l', period, allocations)
  {
    if allocations != [] { SameBinaryDues(l, l', period, allocations[..|allocations| - 1]); }
  }
}
