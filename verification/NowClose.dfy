/** Closing a week: what is owed, what the treasury leaves for it, and how it is paid out. */
module NowClose {
  import opened Prelude
  import opened Theta
  import opened NowLedger
  import opened NowAccrual

  /* ----- Treasury ----- */

  // 45 per cent of net inflows may leave the treasury.
  const ALPHA_PERCENT := 45

  // Net inflows, in hundredths of a cent, of everything activated before the end.
  function Inflows(orders: seq<Order>, end: int): int {
    if orders == [] then 0
    else (if orders[0].activated < end then orders[0].net else 0) + Inflows(orders[1..], end)
  }

  // Alpha times the inflows, in whole cents.
  function Treasury(orders: seq<Order>, end: int): int { ALPHA_PERCENT * Inflows(orders, end) / 10_000 }

  function Budget(orders: seq<Order>, l: Ledger, end: int): int {
    Max(0, Treasury(orders, end) - TotalOf(RoiBefore(end), l.payments) - TotalOf(OthersBefore(end), l.payments))
  }

  // Returns before an instant and commissions up to and including it.
  function PaidBy(l: Ledger, end: int): int {
    TotalOf(RoiBefore(end), l.payments) + TotalOf(OthersBefore(end + 1), l.payments)
  }

  lemma {:induction false} InflowsGrow(orders: seq<Order>, more: seq<Order>, end: int)
    requires forall i :: 0 <= i < |more| ==> 0 <= more[i].net
    ensures Inflows(orders, end) <= Inflows(orders + more, end)
  {
    if orders == [] {
      assert orders + more == more;
      InflowsNonNegative(more, end);
    } else {
      assert (orders + more)[1..] == orders[1..] + more;
      InflowsGrow(orders[1..], more, end);
    }
  }

  lemma {:induction false} InflowsNonNegative(orders: seq<Order>, end: int)
    requires forall i :: 0 <= i < |orders| ==> 0 <= orders[i].net
    ensures 0 <= Inflows(orders, end)
  {
    if orders != [] { InflowsNonNegative(orders[1..], end); }
  }

  /* ----- Paying the entries of a period ----- */

  predicate Payable(l: Ledger, id: nat)
    requires id < |l.obligations|
  {
    l.obligations[id].kind != Roi && 0 < Outstanding(l, id)
  }

  // Held and new commissions, oldest first.
  function PayableFrom(l: Ledger, from: nat): (ids: seq<nat>)
    ensures forall i :: 0 <= i < |ids| ==> from <= ids[i] < |l.obligations| && Payable(l, ids[i])
    ensures forall i, j :: 0 <= i < j < |ids| ==> ids[i] < ids[j]
    decreases |l.obligations| - from
  {
    if from >= |l.obligations| then []
    else if Payable(l, from) then [from] + PayableFrom(l, from + 1)
    else PayableFrom(l, from + 1)
  }

  function Amounts(l: Ledger, ids: seq<nat>): (amounts: seq<int>)
    requires forall i :: 0 <= i < |ids| ==> ids[i] < |l.obligations|
    ensures |amounts| == |ids| && forall i :: 0 <= i < |ids| ==> amounts[i] == Outstanding(l, ids[i])
  {
    seq(|ids|, i requires 0 <= i < |ids| => Outstanding(l, ids[i]))
  }

  // The amount an entry gets: its share, as far as the package has room.
  function Share(l: Ledger, id: nat, theta: int): int
    requires id < |l.obligations| && l.obligations[id].pkg in l.caps
  {
    Clip(l, id, Throttled(Outstanding(l, id), theta))
  }

  // What can never be paid because the package is used up.
  function Overhang(l: Ledger, id: nat): int
    requires id < |l.obligations| && l.obligations[id].pkg in l.caps
  {
    Max(0, Outstanding(l, id) - Clip(l, id, Outstanding(l, id)))
  }

  function PayEntry(l: Ledger, id: nat, theta: int, end: int): Ledger
    requires id < |l.obligations| && l.obligations[id].pkg in l.caps
  {
    var paid := Post(l, id, Share(l, id, theta), end);
    Exclude(paid, id, Overhang(l, id))
  }

  // After one entry: what was posted, and what stayed as it was.
  lemma {:induction false} PayEntryKeeps(l: Ledger, id: nat, theta: int, end: int)
    requires Sound(l) && RoiSettled(l) && id < |l.obligations| && Payable(l, id) && 0 <= theta <= ONE
    ensures l.obligations[id].pkg in l.caps
    ensures var l', amount := PayEntry(l, id, theta, end), Share(l, id, theta);
            && Sound(l') && RoiSettled(l')
            && l'.caps.Keys == l.caps.Keys && |l'.obligations| == |l.obligations|
            && (forall i :: 0 <= i < |l.obligations| && i != id ==> l'.obligations[i] == l.obligations[i])
            && (forall i :: 0 <= i < |l.obligations| ==>
                  l'.obligations[i].ref == l.obligations[i].ref && l'.obligations[i].kind == l.obligations[i].kind
                  && l'.obligations[i].entitlement == l.obligations[i].entitlement)
            && 0 <= amount <= Throttled(Outstanding(l, id), theta)
            && l'.payments == (if 0 < amount
                               then l.payments + [Payment(id, l.obligations[id].kind, l.obligations[id].pkg, amount,
                                   end)]
                               else l.payments)
  {
    assert ObligationSound(l, id);
    assert CapSound(l, l.obligations[id].pkg);
    ThrottledBounds(Outstanding(l, id), theta);
    hide Throttled, Sound, RoiSettled;
    var amount := Share(l, id, theta);
    PostKeepsSound(l, id, amount, end);
    var paid := Post(l, id, amount, end);
    assert Outstanding(paid, id) == Outstanding(l, id) - amount && Clip(l, id, amount) == amount;
    ExcludeKeepsSound(paid, id, Overhang(l, id));
    assert RoiSettled(PayEntry(l, id, theta, end)) by { EntrySettled(l, id, amount, end, Overhang(l, id)); }
  }

  lemma {:induction false} EntrySettled(l: Ledger, id: nat, amount: int, end: int, overhang: int)
    requires RoiSettled(l) && id < |l.obligations| && l.obligations[id].kind != Roi && l.obligations[id].pkg in l.caps
    ensures RoiSettled(Exclude(Post(l, id, amount, end), id, overhang))
  {
  }

  /**
   * What an entry leaves owed can still be paid: the part beyond the package is written off, no
   * more and no less, and referrals and royalties are never written off.
   */
  lemma {:induction false} HeldFitsPackage(l: Ledger, id: nat, theta: int, end: int)
    requires Sound(l) && id < |l.obligations| && Payable(l, id) && 0 <= theta <= ONE
    ensures l.obligations[id].pkg in l.caps
    ensures var o, l' := l.obligations[id], PayEntry(l, id, theta, end);
            && id < |l'.obligations| && o.pkg in l'.caps
            && l'.obligations[id].paid == o.paid + Share(l, id, theta)
            && (UsesCap(o.kind) ==>
                  && Outstanding(l', id) <= Remaining(l', o.pkg)
                  && (l'.obligations[id].excluded == o.excluded || Outstanding(l', id) == Remaining(l', o.pkg)))
            && (!UsesCap(o.kind) ==> l'.obligations[id].excluded == o.excluded)
  {
    assert ObligationSound(l, id);
    assert CapSound(l, l.obligations[id].pkg);
    ThrottledBounds(Outstanding(l, id), theta);
    hide Sound, ObligationSound, CapSound, Throttled;
  }

  function PayAll(l: Ledger, ids: seq<nat>, theta: int, end: int): Ledger
    decreases |ids|
  {
    if ids == [] || ids[0] >= |l.obligations| || l.obligations[ids[0]].pkg !in l.caps then l
    else PayAll(PayEntry(l, ids[0], theta, end), ids[1..], theta, end)
  }

  // The running total of the loop.
  function Credited(l: Ledger, ids: seq<nat>, theta: int, end: int): int
    decreases |ids|
  {
    if ids == [] || ids[0] >= |l.obligations| || l.obligations[ids[0]].pkg !in l.caps then 0
    else Share(l, ids[0], theta) + Credited(PayEntry(l, ids[0], theta, end), ids[1..], theta, end)
  }

  ghost predicate Listed(l: Ledger, ids: seq<nat>) {
    && (forall i :: 0 <= i < |ids| ==> ids[i] < |l.obligations| && Payable(l, ids[i]))
    && (forall i, j :: 0 <= i < j < |ids| ==> ids[i] < ids[j])
  }

  lemma {:induction false} StillPayable(l: Ledger, id: nat, theta: int, end: int, other: nat)
    requires Sound(l) && RoiSettled(l) && id < |l.obligations| && Payable(l, id) && 0 <= theta <= ONE
    requires other != id && other < |l.obligations|
    ensures l.obligations[id].pkg in l.caps
    ensures var l' := PayEntry(l, id, theta, end);
            && |l'.obligations| == |l.obligations|
            && Outstanding(l', other) == Outstanding(l, other) && (Payable(l', other) <==> Payable(l, other))
  {
    PayEntryKeeps(l, id, theta, end);
    hide PayEntry, Sound, RoiSettled, Share;
  }

  lemma {:induction false} ListedRest(l: Ledger, ids: seq<nat>, theta: int, end: int)
    requires Sound(l) && RoiSettled(l) && Listed(l, ids) && ids != [] && 0 <= theta <= ONE
    ensures l.obligations[ids[0]].pkg in l.caps
    ensures var l' := PayEntry(l, ids[0], theta, end);
            && Listed(l', ids[1..]) && Amounts(l', ids[1..]) == Amounts(l, ids)[1..]
  {
    hide PayEntry, Sound, RoiSettled, Payable, Outstanding;
    PayEntryKeeps(l, ids[0], theta, end);
    var l' := PayEntry(l, ids[0], theta, end);
    forall i | 1 <= i < |ids|
      ensures ids[i] < |l'.obligations| && Payable(l', ids[i]) && Outstanding(l', ids[i]) == Outstanding(l, ids[i])
    {
      assert ids[0] < ids[i];
      StillPayable(l, ids[0], theta, end, ids[i]);
    }
  }

  // l' came from l by commission payments posted at `end`, `credited` in total.
  ghost predicate PaysOut(l: Ledger, l': Ledger, end: int, credited: int) {
    && l'.caps.Keys == l.caps.Keys && |l'.obligations| == |l.obligations|
    && (forall i :: 0 <= i < |l.obligations| ==>
          l'.obligations[i].ref == l.obligations[i].ref && l'.obligations[i].kind == l.obligations[i].kind)
    && |l.payments| <= |l'.payments| && l'.payments[..|l.payments|] == l.payments
    && (forall i :: |l.payments| <= i < |l'.payments| ==> l'.payments[i].kind != Roi && l'.payments[i].posted == end)
    && (forall t :: TotalOf(RoiBefore(t), l'.payments) == TotalOf(RoiBefore(t), l.payments))
    && (forall t :: TotalOf(OthersBefore(t), l'.payments) ==
                    TotalOf(OthersBefore(t), l.payments) + if end < t then credited else 0)
  }

  lemma {:induction false} PaysNothing(l: Ledger, end: int)
    ensures PaysOut(l, l, end, 0)
  {
  }

  lemma {:induction false} PaysOneThenMore(l: Ledger, m: Ledger, l': Ledger, end: int, c: int, d: int)
    requires PaysOut(l, m, end, c) && PaysOut(m, l', end, d)
    ensures PaysOut(l, l', end, c + d)
  {
    hide TotalOf;
    assert l'.payments[..|l.payments|] == l'.payments[..|m.payments|][..|l.payments|];
    forall i | |l.payments| <= i < |l'.payments| ensures l'.payments[i].kind != Roi && l'.payments[i].posted == end {
      if i < |m.payments| { assert l'.payments[i] == l'.payments[..|m.payments|][i]; }
    }
  }

  lemma {:induction false} CommissionTotals(payments: seq<Payment>, p: Payment, t: int)
    requires p.kind != Roi
    ensures TotalOf(RoiBefore(t), payments + [p]) == TotalOf(RoiBefore(t), payments)
    ensures TotalOf(OthersBefore(t), payments + [p]) ==
            TotalOf(OthersBefore(t), payments) + if p.posted < t then p.amount else 0
  {
    TotalAppend(RoiBefore(t), payments, p);
    TotalAppend(OthersBefore(t), payments, p);
  }

  // A ledger that gained at most one commission payment.
  lemma {:induction false} OnePaysOut(l: Ledger, l': Ledger, p: Payment)
    requires l'.caps.Keys == l.caps.Keys && |l'.obligations| == |l.obligations| && p.kind != Roi && 0 <= p.amount
    requires forall i :: 0 <= i < |l.obligations| ==>
               l'.obligations[i].ref == l.obligations[i].ref && l'.obligations[i].kind == l.obligations[i].kind
    requires l'.payments == (if 0 < p.amount then l.payments + [p] else l.payments)
    ensures PaysOut(l, l', p.posted, p.amount)
  {
    hide TotalOf;
    forall t
      ensures TotalOf(RoiBefore(t), l'.payments) == TotalOf(RoiBefore(t), l.payments)
      ensures TotalOf(OthersBefore(t), l'.payments) ==
              TotalOf(OthersBefore(t), l.payments) + if p.posted < t then p.amount else 0
    {
      CommissionTotals(l.payments, p, t);
    }
  }

  lemma {:induction false} EntryPaysOut(l: Ledger, id: nat, theta: int, end: int)
    requires Sound(l) && RoiSettled(l) && id < |l.obligations| && Payable(l, id) && 0 <= theta <= ONE
    ensures l.obligations[id].pkg in l.caps
    ensures PaysOut(l, PayEntry(l, id, theta, end), end, Share(l, id, theta))
  {
    PayEntryKeeps(l, id, theta, end);
    assert l.obligations[id].kind != Roi;
    hide PayEntry, Sound, RoiSettled, Share, Throttled, PaysOut, Payable, Outstanding, Clip;
    var o := l.obligations[id];
    OnePaysOut(l, PayEntry(l, id, theta, end), Payment(id, o.kind, o.pkg, Share(l, id, theta), end));
  }

  /**
   * The payment loop posts exactly what it counts, nothing but commissions of this close, and
   * in total no more than the throttled sum of what was owed.
   */
  lemma {:induction false} PayAllKeeps(l: Ledger, ids: seq<nat>, theta: int, end: int)
    requires Sound(l) && RoiSettled(l) && Listed(l, ids) && 0 <= theta <= ONE
    ensures var l', credited := PayAll(l, ids, theta, end), Credited(l, ids, theta, end);
            && Sound(l') && RoiSettled(l') && PaysOut(l, l', end, credited)
            && 0 <= credited <= SumThrottled(Amounts(l, ids), theta)
    decreases |ids|
  {
    hide Sound, RoiSettled, PayEntry, Share, Throttled, PaysOut, Payable, Outstanding;
    if ids == [] {
      PaysNothing(l, end);
    } else {
      PayEntryKeeps(l, ids[0], theta, end);
      EntryPaysOut(l, ids[0], theta, end);
      ListedRest(l, ids, theta, end);
      var next, amount := PayEntry(l, ids[0], theta, end), Share(l, ids[0], theta);
      PayAllKeeps(next, ids[1..], theta, end);
      PaysOneThenMore(l, next, PayAll(next, ids[1..], theta, end), end, amount, Credited(next, ids[1..], theta, end));
    }
  }

  /* ----- One close ----- */

  // The pay-out of a period: the entries, their theta, and the ledger afterwards.
  function Projected(l: Ledger): int { Sum(Amounts(l, PayableFrom(l, 0))) }

  function ClosingTheta(orders: seq<Order>, l: Ledger, end: int): int {
    ComputeTheta(Budget(orders, l, end), Projected(l))
  }

  function PayOut(orders: seq<Order>, l: Ledger, end: int): Ledger {
    PayAll(l, PayableFrom(l, 0), ClosingTheta(orders, l, end), end)
  }

  function PaidNow(orders: seq<Order>, l: Ledger, end: int): int {
    Credited(l, PayableFrom(l, 0), ClosingTheta(orders, l, end), end)
  }

  lemma {:induction false} PositiveAmounts(l: Ledger, ids: seq<nat>)
    requires Listed(l, ids)
    ensures forall i :: 0 <= i < |ids| ==> 0 <= Amounts(l, ids)[i]
  {
  }

  /** A close never credits more than its budget; the funding review cannot be reached. */
  lemma {:induction false} CloseStaysInBudget(orders: seq<Order>, l: Ledger, end: int)
    requires Sound(l) && RoiSettled(l)
    ensures var l', credited := PayOut(orders, l, end), PaidNow(orders, l, end);
            && 0 <= credited <= Budget(orders, l, end)
            && Sound(l') && RoiSettled(l') && PaysOut(l, l', end, credited)
  {
    hide Sound, RoiSettled, PaysOut, Payable, ComputeTheta, Budget, PayAll, Credited, Outstanding;
    var ids := PayableFrom(l, 0);
    var budget := Budget(orders, l, end);
    assert 0 <= budget by { BudgetNonNegative(orders, l, end); }
    PositiveAmounts(l, ids);
    ThrottledFits(Amounts(l, ids), budget);
    ThetaRange(budget, Projected(l));
    PayAllKeeps(l, ids, ClosingTheta(orders, l, end), end);
  }

  lemma {:induction false} BudgetNonNegative(orders: seq<Order>, l: Ledger, end: int)
    ensures 0 <= Budget(orders, l, end)
  {
  }

  lemma {:induction false} ThetaRange(funds: int, projected: int)
    requires 0 <= funds
    ensures 0 <= ComputeTheta(funds, projected) <= ONE
  {
    if 0 < projected { ThetaIsLargest(funds, projected); }
  }

  /* ----- Solvency ----- */

  // A close that paid anything left returns and commissions together within alpha of the inflows.
  ghost predicate Solvent(orders: seq<Order>, l: Ledger, end: int, credited: int) {
    0 < credited ==> 10_000 * PaidBy(l, end) <= ALPHA_PERCENT * Inflows(orders, end)
  }

  lemma {:induction false} CloseIsSolvent(orders: seq<Order>, l: Ledger, end: int)
    requires Sound(l) && RoiSettled(l)
    requires TotalOf(OthersBefore(end + 1), l.payments) == TotalOf(OthersBefore(end), l.payments)
    ensures Solvent(orders, PayOut(orders, l, end), end, PaidNow(orders, l, end))
  {
    hide Sound, RoiSettled, PayOut, PaidNow, TotalOf, Inflows;
    CloseStaysInBudget(orders, l, end);
  }
}
