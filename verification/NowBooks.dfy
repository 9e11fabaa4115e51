/** What every run of the scoped engine keeps: contiguous weeks, and solvency at every close. */
module NowBooks {
  import opened PackageCap
  import opened NowLedger
  import opened NowAccrual
  import opened NowClose
  import opened NowWeek

  // The record of a closed week.
  datatype Closed = Closed(start: int, end: int, inflow: int, roi: int, projected: int, paid: int, held: int,
      theta: int)

  datatype Books = Books(orders: seq<Order>, acc: Accruals, closed: seq<Closed>)

  function LastEnd(closed: seq<Closed>): int
    requires closed != []
  {
    closed[|closed| - 1].end
  }

  ghost predicate Weeks(closed: seq<Closed>) {
    && (forall i :: 0 <= i < |closed| ==> closed[i].end == closed[i].start + WEEK)
    && (forall i :: 0 < i < |closed| ==> closed[i].start == closed[i - 1].end)
  }

  // No further return of this order can be posted before the instant.
  ghost predicate Passed(a: Accruals, o: Order, end: int) {
    MaturityDay(o) <= StateOf(a, o).day || end <= (StateOf(a, o).day + 1) * DAY + 30
  }

  ghost predicate PeriodKnown(closed: seq<Closed>, ref: Ref) { !ref.RoiRef? ==> ref.period < |closed| }

  ghost predicate BooksInv(b: Books) {
    && Inv(b.acc, b.orders) && Weeks(b.closed)
    && (forall i :: 0 <= i < |b.acc.ledger.payments| && b.acc.ledger.payments[i].kind != Roi ==>
          b.closed != [] && b.acc.ledger.payments[i].posted <= LastEnd(b.closed))
    && (forall i :: 0 <= i < |b.acc.ledger.obligations| ==> PeriodKnown(b.closed, b.acc.ledger.obligations[i].ref))
    && (forall k :: 0 <= k < |b.orders| && b.closed != [] ==> Passed(b.acc, b.orders[k], LastEnd(b.closed)))
    && (forall i :: 0 <= i < |b.closed| ==>
          Solvent(b.orders, b.acc.ledger, b.closed[i].end, b.closed[i].paid))
  }

  lemma {:induction false} EndsBeforeLast(closed: seq<Closed>, i: nat)
    requires Weeks(closed) && i < |closed|
    ensures closed[i].end <= LastEnd(closed)
    decreases |closed| - i
  {
    if i < |closed| - 1 { EndsBeforeLast(closed, i + 1); }
  }

  /* ----- Daily accrual ----- */

  lemma {:induction false} AccrualPayment(a: Accruals, orders: seq<Order>, k: nat, uplift: set<(int, int)>, end: int)
    requires Inv(a, orders) && k < |orders| && Fresh(a, orders[k])
    requires end <= (StateOf(a, orders[k]).day + 1) * DAY + 30
    ensures PaidBy(AccrueDay(a, orders[k], uplift).ledger, end) == PaidBy(a.ledger, end)
  {
    AccruedLedger(a, orders, k, uplift);
    hide Inv, AccrueDay, Sound, Entry, Fresh, TotalOf;
    var o := orders[k];
    var p := Payment(
      |a.ledger.obligations|, Roi, o.pkg, Entry(a, o, uplift).credit, (StateOf(a, o).day + 1) * DAY + 30);
    TotalAppend(RoiBefore(end), a.ledger.payments, p);
    TotalAppend(OthersBefore(end + 1), a.ledger.payments, p);
  }

  lemma {:induction false} StillPassed(
      a: Accruals, orders: seq<Order>, k: nat, uplift: set<(int, int)>, j: nat, end: int)
    requires Inv(a, orders) && k < |orders| && j < |orders| && Fresh(a, orders[k])
    requires Passed(a, orders[j], end)
    ensures Passed(AccrueDay(a, orders[k], uplift), orders[j], end)
  {
    if j == k {
      assert StateOf(AccrueDay(a, orders[k], uplift), orders[k]).day == StateOf(a, orders[k]).day + 1;
      hide AccrueDay, Inv, StateOf;
    } else {
      AccruedOrders(a, orders, k, uplift, j);
      hide AccrueDay, Inv, StateOf;
    }
  }

  lemma {:induction false} AccruedPayments(b: Books, k: nat, uplift: set<(int, int)>, i: nat)
    requires BooksInv(b) && k < |b.orders| && Fresh(b.acc, b.orders[k])
    ensures var after := AccrueDay(b.acc, b.orders[k], uplift).ledger;
            && (i < |after.payments| && after.payments[i].kind != Roi ==>
                  b.closed != [] && after.payments[i].posted <= LastEnd(b.closed))
            && (i < |after.obligations| ==> PeriodKnown(b.closed, after.obligations[i].ref))
  {
    hide Inv, AccrueDay, Sound, Entry, Fresh, StateOf, Passed, Solvent, Weeks;
    AccruedLedger(b.acc, b.orders, k, uplift);
  }

  /** A due business day may be accrued at any time: no closed week is reopened by it. */
  lemma {:induction false} AccrualKeepsBooks(b: Books, k: nat, uplift: set<(int, int)>, cutoff: int)
    requires BooksInv(b) && k < |b.orders| && 0 < DueDays(b.acc, b.orders[k], cutoff)
    ensures Fresh(b.acc, b.orders[k]) && BooksInv(b.(acc := AccrueDay(b.acc, b.orders[k], uplift)))
  {
    hide Inv, AccrueDay, Fresh;
    AccrueDayKeepsInv(b.acc, b.orders, k, uplift);
    var after := b.(acc := AccrueDay(b.acc, b.orders[k], uplift));
    assert b.closed != [] ==> LastEnd(b.closed) <= (StateOf(b.acc, b.orders[k]).day + 1) * DAY + 30;
    hide StateOf;
    forall i | 0 <= i < |b.closed| ensures Solvent(after.orders, after.acc.ledger, b.closed[i].end, b.closed[i].paid) {
      EndsBeforeLast(b.closed, i);
      AccrualPayment(b.acc, b.orders, k, uplift, b.closed[i].end);
    }
    hide Solvent;
    forall j | 0 <= j < |b.orders| && b.closed != [] ensures Passed(after.acc, b.orders[j], LastEnd(b.closed)) {
      StillPassed(b.acc, b.orders, k, uplift, j, LastEnd(b.closed));
    }
    hide Passed;
    forall i | 0 <= i < |after.acc.ledger.payments| && after.acc.ledger.payments[i].kind != Roi
      ensures b.closed != [] && after.acc.ledger.payments[i].posted <= LastEnd(b.closed)
    {
      AccruedPayments(b, k, uplift, i);
    }
    forall i | 0 <= i < |after.acc.ledger.obligations|
      ensures PeriodKnown(b.closed, after.acc.ledger.obligations[i].ref)
    {
      AccruedPayments(b, k, uplift, i);
    }
  }

  /* ----- New memberships ----- */

  // A membership joins with a package of its own, no earlier than the weeks already closed.
  function Join(b: Books, o: Order, total: int): Books {
    b.(orders := b.orders + [o],
       acc := b.acc.(ledger := b.acc.ledger.(caps := b.acc.ledger.caps[o.pkg := Cap(total, 0)])))
  }

  ghost predicate CanJoin(b: Books, o: Order, total: int) {
    && o.pkg !in b.acc.ledger.caps && 0 <= total
    && 0 <= o.gross && 0 <= o.net && 0 <= o.baseRate && 0 <= o.qualifiedRate
    && (forall k :: 0 <= k < |b.orders| ==> b.orders[k].id != o.id && b.orders[k].cd != o.cd)
    && o.id !in b.acc.roi && (forall day :: (o.id, day) !in b.acc.days)
    && (b.closed != [] ==> LastEnd(b.closed) <= o.start)
  }

  lemma {:induction false} JoinedOrder(b: Books, o: Order, total: int)
    requires CanJoin(b, o, total)
    ensures RoiInv(Join(b, o, total).acc, o)
    ensures b.closed != [] ==> Passed(Join(b, o, total).acc, o, LastEnd(b.closed))
  {
  }

  lemma {:induction false} JoinKeepsInv(b: Books, o: Order, total: int)
    requires BooksInv(b) && CanJoin(b, o, total)
    ensures Inv(Join(b, o, total).acc, Join(b, o, total).orders)
  {
    var after := Join(b, o, total);
    NewCapKeepsSound(b.acc.ledger, o.pkg, total);
    JoinedOrder(b, o, total);
    hide Sound, Passed, Solvent;
    forall k | 0 <= k < |after.orders| ensures RoiInv(after.acc, after.orders[k]) {
      if k < |b.orders| { assert RoiInv(b.acc, b.orders[k]); }
    }
    hide RoiInv;
    forall i | 0 <= i < |after.acc.ledger.obligations|
      ensures RefInv(after.acc, after.orders, after.acc.ledger.obligations[i].ref)
    {
      RefSurvives(b, o, total, b.acc.ledger.obligations[i].ref);
    }
  }

  lemma {:induction false} RefSurvives(b: Books, o: Order, total: int, ref: Ref)
    requires RefInv(b.acc, b.orders, ref)
    ensures RefInv(Join(b, o, total).acc, Join(b, o, total).orders, ref)
  {
    if ref.RoiRef? {
      var k :| 0 <= k < |b.orders| && b.orders[k].cd == ref.cd && (b.orders[k].id, ref.day) in b.acc.days;
      assert Join(b, o, total).orders[k] == b.orders[k];
    }
  }

  lemma {:induction false} JoinKeepsBooks(b: Books, o: Order, total: int)
    requires BooksInv(b) && CanJoin(b, o, total)
    ensures BooksInv(Join(b, o, total))
  {
    JoinKeepsInv(b, o, total);
    JoinedOrder(b, o, total);
    hide Inv;
    var after := Join(b, o, total);
    forall i | 0 <= i < |b.closed| ensures Solvent(after.orders, after.acc.ledger, b.closed[i].end, b.closed[i].paid) {
      InflowsGrow(b.orders, [o], b.closed[i].end);
    }
    hide Solvent;
    forall j | 0 <= j < |after.orders| && b.closed != [] ensures Passed(after.acc, after.orders[j], LastEnd(b.closed)) {
      if j < |b.orders| { assert Passed(b.acc, b.orders[j], LastEnd(b.closed)); }
    }
  }

  /* ----- Closing a week ----- */

  function WithDues(b: Books, u: Universe, start: int, end: int): Ledger
    requires BuyersKnown(u, b.orders, start, end)
  {
    var l := b.acc.ledger;
    l.(obligations := l.obligations + Dues(u, b.orders, |b.closed|, start, end))
  }

  function WithBinary(l: Ledger, period: int, u: Universe): Ledger
    requires AllocationsFit(l, u.allocations)
  {
    l.(obligations := l.obligations + BinaryDues(l, period, u.allocations))
  }

  // The row the period table gets, given the ledger before and after paying.
  function Record(orders: seq<Order>, l: Ledger, start: int, end: int): Closed {
    Closed(start, end, Inflows(orders, end) - Inflows(orders, start),
           TotalOf(RoiBefore(end), l.payments) - TotalOf(RoiBefore(start), l.payments),
           Projected(l), PaidNow(orders, l, end), Projected(PayOut(orders, l, end)), ClosingTheta(orders, l, end))
  }

  predicate UniverseFits(b: Books, u: Universe, start: int, end: int) {
    && OwnersFit(b.acc.ledger, u) && AllocationsFit(b.acc.ledger, u.allocations) && BuyersKnown(u, b.orders, start, end)
  }

  function CloseWeek(b: Books, u: Universe, start: int, end: int): Books
    requires UniverseFits(b, u, start, end)
  {
    var owed := WithBinary(WithDues(b, u, start, end), |b.closed|, u);
    Books(b.orders, b.acc.(ledger := PayOut(b.orders, owed, end)), b.closed + [Record(b.orders, owed, start, end)])
  }

  // The next week, with every return up to its end already accrued.
  ghost predicate NextWeek(b: Books, start: int, end: int) {
    && end == start + WEEK && (b.closed != [] ==> start == LastEnd(b.closed))
    && forall k :: 0 <= k < |b.orders| ==> Passed(b.acc, b.orders[k], end)
  }

  // The dues of any first part of the orders.
  lemma {:induction false} DuesAreNew(b: Books, u: Universe, start: int, end: int, k: nat)
    requires BooksInv(b) && OwnersFit(b.acc.ledger, u) && k <= |b.orders| && BuyersKnown(u, b.orders[..k], start, end)
    ensures var os := Dues(u, b.orders[..k], |b.closed|, start, end);
            && NewTo(b.acc.ledger, os)
            && forall i :: 0 <= i < |os| ==> os[i].ref.SaleRef? && os[i].ref.period == |b.closed|
  {
    assert forall i, j :: 0 <= i < j < k ==> b.orders[..k][i] == b.orders[i] && b.orders[..k][j] == b.orders[j]
                                             && b.orders[i].id != b.orders[j].id;
    DuesFit(b.acc.ledger, u, b.orders[..k], |b.closed|, start, end);
    hide Inv, Solvent, Passed, DistinctRefs, Acceptable, OwnersFit, BuyersKnown, Weeks;
    var os := Dues(u, b.orders[..k], |b.closed|, start, end);
    forall i | 0 <= i < |os| ensures !HasRef(b.acc.ledger, os[i].ref) {
      forall j | 0 <= j < |b.acc.ledger.obligations| ensures b.acc.ledger.obligations[j].ref != os[i].ref {
        assert PeriodKnown(b.closed, b.acc.ledger.obligations[j].ref);
      }
    }
  }

  lemma {:induction false} WithDuesSound(b: Books, u: Universe, start: int, end: int)
    requires BooksInv(b) && UniverseFits(b, u, start, end)
    ensures var l := WithDues(b, u, start, end);
            && Sound(l) && RoiSettled(l) && l.payments == b.acc.ledger.payments && l.caps == b.acc.ledger.caps
            && (forall i :: |b.acc.ledger.obligations| <= i < |l.obligations| ==>
                  l.obligations[i].ref.SaleRef? && l.obligations[i].ref.period == |b.closed|)
  {
    assert b.orders[..|b.orders|] == b.orders;
    DuesAreNew(b, u, start, end, |b.orders|);
    LedgerOf(b.acc, b.orders);
    hide Inv, Solvent, Passed, NewTo, Sound, RoiSettled, BooksInv;
    AppendKeepsSound(b.acc.ledger, Dues(u, b.orders, |b.closed|, start, end));
  }

  lemma {:induction false} BinaryDuesAreNew(l: Ledger, b: Books, u: Universe)
    requires Sound(l) && AllocationsFit(l, u.allocations)
    requires forall i :: 0 <= i < |l.obligations| && l.obligations[i].ref.BinaryRef? ==>
               l.obligations[i].ref.period < |b.closed|
    ensures NewTo(l, BinaryDues(l, |b.closed|, u.allocations))
    ensures forall i :: 0 <= i < |BinaryDues(l, |b.closed|, u.allocations)| ==>
              var o := BinaryDues(l, |b.closed|, u.allocations)[i]; o.ref.BinaryRef? && o.ref.period == |b.closed|
  {
    BinaryDuesFit(l, |b.closed|, u.allocations);
    hide Sound, DistinctRefs, Acceptable, AllocationsFit;
  }

  // What the week owes is booked without touching payments or caps.
  lemma {:induction false} OwedIsSound(b: Books, u: Universe, start: int, end: int)
    requires BooksInv(b) && UniverseFits(b, u, start, end)
    ensures AllocationsFit(WithDues(b, u, start, end), u.allocations)
    ensures var l := WithBinary(WithDues(b, u, start, end), |b.closed|, u);
            && Sound(l) && RoiSettled(l) && l.payments == b.acc.ledger.payments && l.caps == b.acc.ledger.caps
            && |b.acc.ledger.obligations| <= |l.obligations|
            && (forall i :: 0 <= i < |b.acc.ledger.obligations| ==> l.obligations[i] == b.acc.ledger.obligations[i])
            && (forall i :: |b.acc.ledger.obligations| <= i < |l.obligations| ==>
                  !l.obligations[i].ref.RoiRef? && l.obligations[i].ref.period == |b.closed|)
  {
    WithDuesSound(b, u, start, end);
    var l := WithDues(b, u, start, end);
    hide Inv, Solvent, Passed, Sound, RoiSettled, NewTo, Weeks;
    forall i | 0 <= i < |l.obligations| && l.obligations[i].ref.BinaryRef?
      ensures l.obligations[i].ref.period < |b.closed|
    {
      assert PeriodKnown(b.closed, b.acc.ledger.obligations[i].ref);
    }
    BinaryDuesAreNew(l, b, u);
    AppendKeepsSound(l, BinaryDues(l, |b.closed|, u.allocations));
  }

  // No commission was posted at the instant before, so nothing falls between the two sums.
  lemma {:induction false} NothingAt(payments: seq<Payment>, end: int)
    requires forall i :: 0 <= i < |payments| && payments[i].kind != Roi ==> payments[i].posted < end
    ensures TotalOf(OthersBefore(end + 1), payments) == TotalOf(OthersBefore(end), payments)
  {
    if payments != [] { NothingAt(payments[..|payments| - 1], end); }
  }

  // What a close changes.
  lemma {:induction false} CloseSummary(b: Books, u: Universe, start: int, end: int)
    requires BooksInv(b) && UniverseFits(b, u, start, end)
    ensures var after := CloseWeek(b, u, start, end);
            var l, l' := b.acc.ledger, after.acc.ledger;
            && after.orders == b.orders && after.acc == b.acc.(ledger := l')
            && |after.closed| == |b.closed| + 1 && after.closed[..|b.closed|] == b.closed
            && after.closed[|b.closed|].start == start && after.closed[|b.closed|].end == end
            && Sound(l') && RoiSettled(l') && l'.caps.Keys == l.caps.Keys
            && |l.obligations| <= |l'.obligations|
            && (forall i :: 0 <= i < |l.obligations| ==> l'.obligations[i].ref == l.obligations[i].ref)
            && (forall i :: |l.obligations| <= i < |l'.obligations| ==>
                  !l'.obligations[i].ref.RoiRef? && l'.obligations[i].ref.period == |b.closed|)
            && |l.payments| <= |l'.payments| && l'.payments[..|l.payments|] == l.payments
            && (forall i :: |l.payments| <= i < |l'.payments| ==>
               l'.payments[i].kind != Roi && l'.payments[i].posted == end)
  {
    hide WithBinary, WithDues, Sound, RoiSettled, Inv, BooksInv, PayOut, PaidNow, TotalOf, OwnersFit, AllocationsFit,
      BuyersKnown;
    OwedIsSound(b, u, start, end);
    CloseStaysInBudget(b.orders, WithBinary(WithDues(b, u, start, end), |b.closed|, u), end);
  }

  lemma {:induction false} CloseTotals(b: Books, u: Universe, start: int, end: int, t: int)
    requires BooksInv(b) && UniverseFits(b, u, start, end)
    ensures var after := CloseWeek(b, u, start, end);
            && TotalOf(RoiBefore(t), after.acc.ledger.payments) == TotalOf(RoiBefore(t), b.acc.ledger.payments)
            && (t <= end ==>
                  TotalOf(OthersBefore(t), after.acc.ledger.payments) ==
                      TotalOf(OthersBefore(t), b.acc.ledger.payments))
  {
    hide WithBinary, WithDues, Sound, RoiSettled, Inv, BooksInv, PayOut, PaidNow, TotalOf, OwnersFit, AllocationsFit,
      BuyersKnown;
    OwedIsSound(b, u, start, end);
    CloseStaysInBudget(b.orders, WithBinary(WithDues(b, u, start, end), |b.closed|, u), end);
  }

  lemma {:induction false} SameRoi(a: Accruals, a': Accruals, o: Order)
    requires RoiInv(a, o) && a'.roi == a.roi && a'.days == a.days && a'.ledger.caps.Keys == a.ledger.caps.Keys
    ensures RoiInv(a', o)
  {
    hide NumeratorThrough, AmountThrough;
  }

  lemma {:induction false} SameRef(a: Accruals, a': Accruals, orders: seq<Order>, ref: Ref)
    requires RefInv(a, orders, ref) && a'.days == a.days
    ensures RefInv(a', orders, ref)
  {
  }

  lemma {:induction false} CloseKeepsInv(b: Books, u: Universe, start: int, end: int)
    requires BooksInv(b) && UniverseFits(b, u, start, end)
    ensures Inv(CloseWeek(b, u, start, end).acc, b.orders)
  {
    CloseSummary(b, u, start, end);
    hide CloseWeek, Sound, RoiSettled, UniverseFits, Solvent, Passed, Weeks, RoiInv, RefInv, PeriodKnown, ValidOrders;
    var after := CloseWeek(b, u, start, end);
    forall k | 0 <= k < |b.orders| ensures RoiInv(after.acc, b.orders[k]) {
      SameRoi(b.acc, after.acc, b.orders[k]);
    }
    forall i | 0 <= i < |after.acc.ledger.obligations|
        ensures RefInv(after.acc, b.orders, after.acc.ledger.obligations[i].ref) {
      if i < |b.acc.ledger.obligations| {
        SameRef(b.acc, after.acc, b.orders, b.acc.ledger.obligations[i].ref);
      } else {
        NoRoiRef(after.acc, b.orders, after.acc.ledger.obligations[i].ref);
      }
    }
  }

  lemma {:induction false} NoRoiRef(a: Accruals, orders: seq<Order>, ref: Ref)
    requires !ref.RoiRef?
    ensures RefInv(a, orders, ref)
  {
  }

  // This week's own close, from the budget it stayed in.
  lemma {:induction false} NewCloseIsSolvent(b: Books, u: Universe, start: int, end: int)
    requires BooksInv(b) && UniverseFits(b, u, start, end) && NextWeek(b, start, end)
    ensures var after := CloseWeek(b, u, start, end);
            |after.closed| == |b.closed| + 1
            && Solvent(b.orders, after.acc.ledger, end, after.closed[|b.closed|].paid)
  {
    hide WithBinary, WithDues, Sound, RoiSettled, Inv, Weeks, Passed, PayOut, PaidNow, TotalOf, Solvent, OwnersFit,
      AllocationsFit, BuyersKnown;
    OwedIsSound(b, u, start, end);
    var owed := WithBinary(WithDues(b, u, start, end), |b.closed|, u);
    NothingAt(owed.payments, end);
    CloseIsSolvent(b.orders, owed, end);
  }

  lemma {:induction false} OldCloseStaysSolvent(b: Books, u: Universe, start: int, end: int, i: nat)
    requires BooksInv(b) && UniverseFits(b, u, start, end) && NextWeek(b, start, end) && i < |b.closed|
    ensures Solvent(b.orders, CloseWeek(b, u, start, end).acc.ledger, b.closed[i].end, b.closed[i].paid)
  {
    assert Solvent(b.orders, b.acc.ledger, b.closed[i].end, b.closed[i].paid);
    assert b.closed[i].end + 1 <= end by { EndsBeforeLast(b.closed, i); }
    hide BooksInv, NextWeek, TotalOf, CloseWeek, UniverseFits;
    CloseTotals(b, u, start, end, b.closed[i].end);
    CloseTotals(b, u, start, end, b.closed[i].end + 1);
  }

  lemma {:induction false} ClosedRows(b: Books, u: Universe, start: int, end: int, i: nat)
    requires BooksInv(b) && UniverseFits(b, u, start, end) && NextWeek(b, start, end)
    ensures var after := CloseWeek(b, u, start, end);
            && (i < |after.acc.ledger.payments| && after.acc.ledger.payments[i].kind != Roi ==>
                  after.acc.ledger.payments[i].posted <= end)
            && (i < |after.acc.ledger.obligations| ==> PeriodKnown(after.closed, after.acc.ledger.obligations[i].ref))
  {
    CloseSummary(b, u, start, end);
    hide CloseWeek, Sound, RoiSettled, UniverseFits, Solvent, Passed, Weeks, Inv;
    var l, l' := b.acc.ledger, CloseWeek(b, u, start, end).acc.ledger;
    if i < |l.payments| { assert l'.payments[i] == l'.payments[..|l.payments|][i]; }
    if i < |l.obligations| { assert PeriodKnown(b.closed, l.obligations[i].ref); }
  }

  lemma {:induction false} WeeksAppend(closed: seq<Closed>, next: seq<Closed>)
    requires Weeks(closed) && |next| == |closed| + 1 && next[..|closed|] == closed
    requires next[|closed|].end == next[|closed|].start + WEEK
    requires closed != [] ==> next[|closed|].start == LastEnd(closed)
    ensures Weeks(next) && LastEnd(next) == next[|closed|].end
  {
    assert forall i :: 0 <= i < |closed| ==> next[i] == next[..|closed|][i];
  }

  /**
   * Closing the next week keeps the books: the ledger stays sound and returns settled, weeks
   * stay contiguous, and this close and all earlier ones stay solvent.
   */
  lemma {:induction false} CloseKeepsBooks(b: Books, u: Universe, start: int, end: int)
    requires BooksInv(b) && UniverseFits(b, u, start, end) && NextWeek(b, start, end)
    ensures BooksInv(CloseWeek(b, u, start, end))
    ensures CloseWeek(b, u, start, end).acc.ledger.caps.Keys == b.acc.ledger.caps.Keys
  {
    hide CloseWeek, Sound, RoiSettled, UniverseFits, Solvent, Passed, Weeks, Inv;
    var after := CloseWeek(b, u, start, end);
    CloseSummary(b, u, start, end);
    CloseKeepsInv(b, u, start, end);
    WeeksAppend(b.closed, after.closed);
    NewCloseIsSolvent(b, u, start, end);
    forall i | 0 <= i < |after.closed|
        ensures Solvent(after.orders, after.acc.ledger, after.closed[i].end, after.closed[i].paid) {
      if i < |b.closed| {
        assert after.closed[i] == after.closed[..|b.closed|][i];
        OldCloseStaysSolvent(b, u, start, end, i);
      }
    }
    forall k | 0 <= k < |after.orders| ensures Passed(after.acc, after.orders[k], end) {
      SameStates(b, after, k, end);
    }
    forall i | 0 <= i < |after.acc.ledger.payments| && after.acc.ledger.payments[i].kind != Roi
      ensures after.acc.ledger.payments[i].posted <= end
    {
      ClosedRows(b, u, start, end, i);
    }
    forall i | 0 <= i < |after.acc.ledger.obligations|
      ensures PeriodKnown(after.closed, after.acc.ledger.obligations[i].ref)
    {
      ClosedRows(b, u, start, end, i);
    }
  }

  lemma {:induction false} SameStates(b: Books, after: Books, k: nat, end: int)
    requires after.orders == b.orders && after.acc.roi == b.acc.roi && k < |b.orders| && Passed(b.acc, b.orders[k], end)
    ensures Passed(after.acc, after.orders[k], end)
  {
  }
}
