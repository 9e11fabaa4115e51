/**
 * What a close pays, obligation by obligation: everything that is payable is taken up, each
 * entry gets its share, and a funded close leaves nothing owed.
 */
module NowPayout {
  import opened Prelude
  import opened Theta
  import opened NowLedger
  import opened NowAccrual
  import opened NowClose

  /* ----- What is owed ----- */

  // What an obligation still claims; returns claim nothing in a close.
  function Owed(o: Obligation): int {
    if o.kind != Roi && o.paid + o.excluded < o.entitlement then o.entitlement - o.paid - o.excluded else 0
  }

  function TotalOwed(os: seq<Obligation>): int {
    if os == [] then 0 else TotalOwed(os[..|os| - 1]) + Owed(os[|os| - 1])
  }

  /** A close takes up every open commission, held ones included, and nothing else. */
  lemma {:induction false} TakenUpIff(l: Ledger, from: nat, id: nat)
    requires from <= id < |l.obligations|
    ensures var o := l.obligations[id];
            id in PayableFrom(l, from) <==> o.kind != Roi && o.paid + o.excluded < o.entitlement
    decreases |l.obligations| - from
  {
    if from < id { TakenUpIff(l, from + 1, id); }
  }

  lemma {:induction false} TotalFrom(l: Ledger, from: nat)
    requires from <= |l.obligations|
    ensures Sum(Amounts(l, PayableFrom(l, from))) == TotalOwed(l.obligations) - TotalOwed(l.obligations[..from])
    decreases |l.obligations| - from
  {
    if from == |l.obligations| {
      assert l.obligations[..from] == l.obligations;
    } else {
      var rest := PayableFrom(l, from + 1);
      TotalFrom(l, from + 1);
      assert l.obligations[..from + 1][..from] == l.obligations[..from];
      if Payable(l, from) {
        assert Amounts(l, [from] + rest)[1..] == Amounts(l, rest);
      }
    }
  }

  /** What a close projects is the sum of all that is open, each commission counted once. */
  lemma {:induction false} ProjectedIsOwed(l: Ledger)
    ensures Projected(l) == TotalOwed(l.obligations)
  {
    hide Amounts;
    TotalFrom(l, 0);
    assert l.obligations[..0] == [];
  }

  lemma {:induction false} NothingOwed(os: seq<Obligation>)
    requires forall i :: 0 <= i < |os| ==> Owed(os[i]) == 0
    ensures TotalOwed(os) == 0
  {
    hide Owed;
    if os != [] { NothingOwed(os[..|os| - 1]); }
  }

  /* ----- What each entry gets ----- */

  ghost predicate UsedUp(l: Ledger, pkg: int) { pkg in l.caps && l.caps[pkg].paid == l.caps[pkg].total }

  // One obligation before and after the entries up to some point were paid.
  ghost predicate Got(o: Obligation, o': Obligation, theta: int, usedUp: bool) {
    var owed := o.entitlement - o.paid - o.excluded;
    && o'.ref == o.ref && o'.kind == o.kind && o'.pkg == o.pkg && o'.entitlement == o.entitlement
    && (o.kind != Binary ==> o'.paid == o.paid + owed * theta / 1_000_000 && o'.excluded == o.excluded)
    && (o.kind == Binary ==>
          && o.paid <= o'.paid <= o.paid + owed * theta / 1_000_000
          && (o'.paid == o.paid + owed * theta / 1_000_000 || usedUp))
    && (theta == 1_000_000 ==> o'.paid + o'.excluded == o'.entitlement)
  }

  lemma {:induction false} EntryGot(l: Ledger, id: nat, theta: int, end: int)
    requires Sound(l) && id < |l.obligations| && Payable(l, id) && 0 <= theta <= ONE
    ensures l.obligations[id].pkg in l.caps
    ensures var o, l' := l.obligations[id], PayEntry(l, id, theta, end);
            id < |l'.obligations| && Got(o, l'.obligations[id], theta, UsedUp(l', o.pkg))
  {
    assert ObligationSound(l, id);
    assert CapSound(l, l.obligations[id].pkg);
    ThrottledBounds(Outstanding(l, id), theta);
    if theta == ONE { WholeShare(Outstanding(l, id)); }
    hide Sound, ObligationSound, CapSound;
  }

  lemma {:induction false} WholeShare(amount: int)
    ensures Throttled(amount, ONE) == amount
  {
  }

  lemma {:induction false} StaysUsedUp(l: Ledger, id: nat, theta: int, end: int, pkg: int)
    requires Sound(l) && RoiSettled(l) && id < |l.obligations| && Payable(l, id) && 0 <= theta <= ONE
    requires UsedUp(l, pkg)
    ensures l.obligations[id].pkg in l.caps && UsedUp(PayEntry(l, id, theta, end), pkg)
  {
    PayEntryKeeps(l, id, theta, end);
    assert CapSound(l, pkg) && CapSound(PayEntry(l, id, theta, end), pkg);
    hide Sound, RoiSettled, CapSound, Throttled;
  }

  /**
   * Entry by entry: what is not on the list is untouched. A referral or royalty on it is paid
   * exactly its share of what it was owed; a binary commission its share or whatever the
   * package still had, and falls short only when the package is used up. At full theta
   * nothing on the list stays owed.
   */
  lemma {:induction false} EachGets(l: Ledger, ids: seq<nat>, theta: int, end: int, id: nat)
    requires Sound(l) && RoiSettled(l) && Listed(l, ids) && 0 <= theta <= ONE && id < |l.obligations|
    ensures var o, l' := l.obligations[id], PayAll(l, ids, theta, end);
            && id < |l'.obligations|
            && (id !in ids ==> l'.obligations[id] == o)
            && (id in ids ==> Got(o, l'.obligations[id], theta, UsedUp(l', o.pkg)))
    decreases |ids|
  {
    hide Sound, RoiSettled, PayEntry, Share, Got, Payable, Outstanding, UsedUp;
    if ids != [] {
      PayEntryKeeps(l, ids[0], theta, end);
      ListedRest(l, ids, theta, end);
      var next := PayEntry(l, ids[0], theta, end);
      EachGets(next, ids[1..], theta, end, id);
      if id == ids[0] {
        assert forall i :: 1 <= i < |ids| ==> ids[0] < ids[i];
        EntryGot(l, id, theta, end);
        if UsedUp(next, l.obligations[id].pkg) {
          ListStaysUsedUp(next, ids[1..], theta, end, l.obligations[id].pkg);
        }
        GotWeakens(l.obligations[id], next.obligations[id], theta, UsedUp(next, l.obligations[id].pkg),
                   UsedUp(PayAll(l, ids, theta, end), l.obligations[id].pkg));
      }
    }
  }

  lemma {:induction false} GotWeakens(o: Obligation, o': Obligation, theta: int, usedUp: bool, later: bool)
    requires Got(o, o', theta, usedUp) && (usedUp ==> later)
    ensures Got(o, o', theta, later)
  {
  }

  lemma {:induction false} ListStaysUsedUp(l: Ledger, ids: seq<nat>, theta: int, end: int, pkg: int)
    requires Sound(l) && RoiSettled(l) && Listed(l, ids) && 0 <= theta <= ONE && UsedUp(l, pkg)
    ensures UsedUp(PayAll(l, ids, theta, end), pkg)
    decreases |ids|
  {
    hide Sound, RoiSettled, PayEntry, Share, Payable, Outstanding, UsedUp;
    if ids != [] {
      PayEntryKeeps(l, ids[0], theta, end);
      ListedRest(l, ids, theta, end);
      StaysUsedUp(l, ids[0], theta, end, pkg);
      ListStaysUsedUp(PayEntry(l, ids[0], theta, end), ids[1..], theta, end, pkg);
    }
  }

  /* ----- The funds of a close ----- */

  // A sale counts towards the inflows of a week exactly when it was activated before its end.
  lemma {:induction false} InflowCounts(orders: seq<Order>, o: Order, end: int)
    ensures Inflows([], end) == 0
    ensures Inflows(orders + [o], end) == Inflows(orders, end) + if o.activated < end then o.net else 0
  {
    if orders == [] {
      assert [o][1..] == [];
    } else {
      InflowCounts(orders[1..], o, end);
      assert (orders + [o])[1..] == orders[1..] + [o];
    }
  }

  // What has been paid for an obligation, charged to a package, or paid before an instant.
  lemma {:induction false} PaymentCounts(payments: seq<Payment>, p: Payment, id: nat, pkg: int, time: int)
    ensures forall s :: TotalOf(s, []) == 0
    ensures TotalOf(OfObligation(id), payments + [p]) ==
            TotalOf(OfObligation(id), payments) + if p.obligation == id then p.amount else 0
    ensures TotalOf(OfPackage(pkg), payments + [p]) ==
            TotalOf(OfPackage(pkg), payments) + if p.pkg == pkg && p.kind in {Roi, Binary} then p.amount else 0
    ensures TotalOf(RoiBefore(time), payments + [p]) ==
            TotalOf(RoiBefore(time), payments) + if p.kind == Roi && p.posted < time then p.amount else 0
    ensures TotalOf(OthersBefore(time), payments + [p]) ==
            TotalOf(OthersBefore(time), payments) + if p.kind != Roi && p.posted < time then p.amount else 0
  {
    TotalAppend(OfObligation(id), payments, p);
    TotalAppend(OfPackage(pkg), payments, p);
    TotalAppend(RoiBefore(time), payments, p);
    TotalAppend(OthersBefore(time), payments, p);
  }

  // 45 per cent of the inflows in whole cents, less everything paid before the end.
  lemma {:induction false} BudgetIsRest(orders: seq<Order>, l: Ledger, end: int)
    ensures var rest := 45 * Inflows(orders, end) / 10_000
                        - TotalOf(RoiBefore(end), l.payments) - TotalOf(OthersBefore(end), l.payments);
            Budget(orders, l, end) == if rest < 0 then 0 else rest
  {
    hide Inflows, TotalOf;
  }

  // The throttle: the largest number of millionths of what is owed that the budget covers.
  lemma {:induction false} ClosingThetaIs(orders: seq<Order>, l: Ledger, end: int)
    ensures var owed, budget, theta := TotalOwed(l.obligations), Budget(orders, l, end), ClosingTheta(orders, l, end);
            && 0 <= theta <= 1_000_000
            && (owed <= budget ==> theta == 1_000_000)
            && (budget < owed ==> theta * owed <= 1_000_000 * budget < (theta + 1) * owed)
  {
    hide Projected, Budget;
    ProjectedIsOwed(l);
    BudgetNonNegative(orders, l, end);
    var budget := Budget(orders, l, end);
    if 0 < Projected(l) { ThetaIsLargest(budget, Projected(l)); }
    if budget < Projected(l) { BelowOne(budget, Projected(l)); }
  }

  lemma {:induction false} BelowOne(funds: int, projected: int)
    requires 0 <= funds < projected
    ensures ComputeTheta(funds, projected) < ONE
  {
    ShareBelowOne(funds, projected);
  }

  // Every obligation of a ledger before and after a close at some theta.
  ghost predicate EachPaid(l: Ledger, l': Ledger, theta: int) {
    && |l'.obligations| == |l.obligations|
    && forall id :: 0 <= id < |l.obligations| ==>
         var o := l.obligations[id];
         if o.kind == Roi || o.paid + o.excluded == o.entitlement then l'.obligations[id] == o
         else Got(o, l'.obligations[id], theta, UsedUp(l', o.pkg))
  }

  lemma {:induction false} PaidOne(orders: seq<Order>, l: Ledger, end: int, id: nat)
    requires Sound(l) && RoiSettled(l) && id < |l.obligations|
    ensures var o, l', theta := l.obligations[id], PayOut(orders, l, end), ClosingTheta(orders, l, end);
            && |l'.obligations| == |l.obligations|
            && (if o.kind == Roi || o.paid + o.excluded == o.entitlement then l'.obligations[id] == o
                else Got(o, l'.obligations[id], theta, UsedUp(l', o.pkg)))
            && (theta == 1_000_000 ==> Owed(l'.obligations[id]) == 0)
  {
    assert ObligationSound(l, id);
    CloseStaysInBudget(orders, l, end);
    ClosingThetaIs(orders, l, end);
    TakenUpIff(l, 0, id);
    hide Sound, RoiSettled, PayAll, ClosingTheta, PayableFrom, Budget, UsedUp, Payable;
    EachGets(l, PayableFrom(l, 0), ClosingTheta(orders, l, end), end, id);
    hide TotalOwed;
  }

  /**
   * One close: every open commission of the ledger gets its share of what it is owed, returns
   * and settled commissions are left alone. When the budget covers all that is owed, nothing
   * stays owed.
   */
  lemma {:induction false} CloseTakesUpAll(orders: seq<Order>, l: Ledger, end: int)
    requires Sound(l) && RoiSettled(l)
    ensures var l' := PayOut(orders, l, end);
            && EachPaid(l, l', ClosingTheta(orders, l, end))
            && (TotalOwed(l.obligations) <= Budget(orders, l, end) ==> TotalOwed(l'.obligations) == 0)
  {
    hide Sound, RoiSettled, PayOut, Budget, Owed, TotalOwed, Got, UsedUp, ClosingTheta;
    CloseStaysInBudget(orders, l, end);
    ClosingThetaIs(orders, l, end);
    var l' := PayOut(orders, l, end);
    forall id | 0 <= id < |l.obligations|
      ensures var o := l.obligations[id];
              if o.kind == Roi || o.paid + o.excluded == o.entitlement then l'.obligations[id] == o
              else Got(o, l'.obligations[id], ClosingTheta(orders, l, end), UsedUp(l', o.pkg))
      ensures ClosingTheta(orders, l, end) == 1_000_000 ==> Owed(l'.obligations[id]) == 0
    {
      PaidOne(orders, l, end, id);
    }
    if ClosingTheta(orders, l, end) == 1_000_000 { NothingOwed(l'.obligations); }
  }
}
