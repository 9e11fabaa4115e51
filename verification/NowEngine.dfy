/**
 * The scoped engine as it runs: daily accrual in bounded batches, then the weeks that are due,
 * each with its referrals, binary pay and throttled payments. A run that fails leaves nothing.
 */
module NowEngine {
  import opened Prelude
  import opened PackageCap
  import opened Theta
  import opened NowLedger
  import opened NowAccrual
  import opened NowClose
  import opened NowWeek
  import opened NowBooks
  import opened NowPayout
  import opened NowDues

  const MAX_ACCRUALS := 4
  const MAX_CLOSES := 8
  const GRACE := 120

  datatype RunResult = Done | RiskFrozen | NotReady

  function PeriodStart(time: int): int { time / WEEK * WEEK }

  // The weeks that are over, one after the other; nothing if one of them cannot be closed.
  function CloseWeeks(b: Books, start: int, now: int, weeks: seq<Universe>, n: nat): Option<Books>
    decreases n
  {
    if n == 0 || weeks == [] || now < start + WEEK + GRACE then Some(b)
    else if !UniverseFits(b, weeks[0], start, start + WEEK) then None
    else CloseWeeks(CloseWeek(b, weeks[0], start, start + WEEK), start + WEEK, now, weeks[1..], n - 1)
  }

  function FirstWeek(b: Books): int
    requires b.orders != []
  {
    if b.closed == [] then PeriodStart(b.orders[0].activated) else LastEnd(b.closed)
  }

  predicate AnyFrozen(orders: seq<Order>) { exists k :: 0 <= k < |orders| && orders[k].status == Frozen }

  // A whole run on values. Refused runs leave the books as they were.
  function RunOf(b: Books, now: int, uplift: set<(int, int)>, weeks: seq<Universe>, allowed: nat, closes: nat)
    : (RunResult, Books)
  {
    if AnyFrozen(b.orders) then (RiskFrozen, b)
    else if b.orders == [] then (Done, b)
    else
      var accrued := b.(acc := AccrueN(b.acc, b.orders, uplift, DailyCutoff(now), Min(MAX_ACCRUALS, allowed)));
      if allowed == 0 || 0 < Backlog(accrued.acc, accrued.orders, DailyCutoff(now)) then (Done, accrued)
      else
        var after := CloseWeeks(accrued, FirstWeek(b), now, weeks, Min(closes, MAX_CLOSES));
        if after.None? then (NotReady, b) else (Done, after.value)
  }

  // Certificates whose returns are complete: everything before the first order still behind.
  function Completed(a: Accruals, orders: seq<Order>, cutoff: int): set<int> {
    set k | 0 <= k < FirstDue(a, orders, cutoff) && MaturityDay(orders[k]) <= cutoff :: orders[k].cd
  }

  class Engine {
    var orders: seq<Order>
    var ledger: Ledger
    var roi: map<int, RoiState>
    var days: map<(int, int), RateDay>
    var closed: seq<Closed>
    // Certificates marked as matured.
    var matured: set<int>

    function State(): Books
      reads this
    {
      Books(orders, Accruals(ledger, roi, days), closed)
    }

    ghost predicate Valid()
      reads this
    {
      BooksInv(State())
    }

    constructor ()
      ensures Valid() && State() == Books([], Accruals(Ledger([], [], map[]), map[], map[]), []) && matured == {}
    {
      orders, ledger, roi, days, closed, matured := [], Ledger([], [], map[]), map[], map[], [], {};
    }

    // A new membership becomes visible to the engine.
    method AddOrder(o: Order, total: int)
      requires Valid() && CanJoin(State(), o, total)
      modifies this
      ensures Valid() && State() == Join(old(State()), o, total)
      ensures orders == old(orders) + [o] && ledger == old(ledger).(caps := old(ledger).caps[o.pkg := Cap(total, 0)])
      ensures roi == old(roi) && days == old(days) && closed == old(closed) && matured == old(matured)
    {
      JoinKeepsBooks(State(), o, total);
      orders := orders + [o];
      ledger := ledger.(caps := ledger.caps[o.pkg := Cap(total, 0)]);
    }

    // An existing reference creates nothing and reports no id.
    method CreateObligation(o: Obligation) returns (id: Option<nat>)
      modifies `ledger
      ensures ledger == Create(old(ledger), o)
      ensures id == if HasRef(old(ledger), o.ref) then None else Some(|old(ledger).obligations|)
    {
      if HasRef(ledger, o.ref) { return None; }
      id := Some(|ledger.obligations|);
      ledger := ledger.(obligations := ledger.obligations + [o]);
    }

    method PostPayment(id: nat, requested: int, posted: int)
      requires id < |ledger.obligations| && ledger.obligations[id].pkg in ledger.caps
      modifies `ledger
      ensures ledger == Post(old(ledger), id, requested, posted)
    {
      if requested <= 0 { return; }
      var o := ledger.obligations[id];
      var amount := requested;
      if UsesCap(o.kind) && amount > Remaining(ledger, o.pkg) { amount := Remaining(ledger, o.pkg); }
      if amount <= 0 { return; }
      ledger := ledger.(
        obligations := ledger.obligations[id := o.(paid := o.paid + amount)],
        payments := ledger.payments + [Payment(id, o.kind, o.pkg, amount, posted)]);
      if UsesCap(o.kind) {
        var cap := ledger.caps[o.pkg];
        ledger := ledger.(caps := ledger.caps[o.pkg := cap.(paid := cap.paid + amount)]);
      }
    }

    /* ----- Returns ----- */

    method AccrueOne(k: nat, uplift: set<(int, int)>)
      requires Valid() && k < |orders|
      modifies `ledger, `roi, `days
      ensures Fresh(old(State()).acc, orders[k])
      ensures State() == old(State()).(acc := AccrueDay(old(State()).acc, orders[k], uplift))
    {
      hide BooksInv, Inv, Target, Post, HasRef, DailyCutoff;
      ghost var was := State();
      assert Inv(was.acc, was.orders) by { AccrualsOf(was); }
      NextDayIsFresh(was.acc, was.orders, k);
      EntryBounds(was.acc, was.orders, k, uplift);
      var o := orders[k];
      var s := if o.id in roi then roi[o.id] else RoiState(StartDay(o), 0, 0);
      var day, rate := s.day + 1, RateOn(o, s.day + 1, uplift);
      var numerator := s.numerator + o.gross * rate;
      var target := Target(numerator);
      var amount := target - s.claimed;
      var excluded := 0;
      if amount > Remaining(ledger, o.pkg) { excluded := amount - Remaining(ledger, o.pkg); }
      var credit := amount - excluded;
      if amount > 0 {
        var id := CreateObligation(Open(RoiRef(o.cd, day), Roi, o.pkg, amount, excluded));
        PostPayment(id.value, credit, day * DAY + 30);
      }
      roi := roi[o.id := RoiState(day, numerator, target)];
      days := days[(o.id, day) := RateDay(rate, amount, credit)];
    }

    /**
     * At most four days, and only as many as the deadline allows; the rest waits for the next
     * run. Reports whether everything up to the cutoff is done.
     */
    method AccrueRoi(now: int, uplift: set<(int, int)>, allowed: nat) returns (caughtUp: bool)
      requires Valid()
      modifies `ledger, `roi, `days, `matured
      ensures Valid() && ledger.caps.Keys == old(ledger.caps.Keys)
      ensures State().acc ==
              AccrueN(old(State()).acc, orders, uplift, DailyCutoff(now), Min(4, allowed))
      ensures caughtUp <==> 0 < allowed && Backlog(State().acc, orders, DailyCutoff(now)) == 0
      ensures matured == old(matured) + if allowed == 0 then {} else Completed(State().acc, orders, DailyCutoff(now))
    {
      hide BooksInv, Inv, AccrueDay, Fresh, DailyCutoff, DueDays, MaturityDay, Completed, CompletedBefore, Backlog,
        AccrueN;
      var cutoff := DailyCutoff(now);
      ghost var was := State();
      var limit := Min(MAX_ACCRUALS, allowed);
      NoAccrual(State().acc, orders, uplift, cutoff);
      if allowed == 0 { return false; }
      var posted := 0;
      CompletedStep(orders, 0, cutoff);
      for k := 0 to |orders|
        invariant BooksInv(State()) && orders == was.orders && ledger.caps.Keys == was.acc.ledger.caps.Keys
        invariant 0 <= posted <= limit
        invariant AccrueN(State().acc, orders, uplift, cutoff, limit - posted) ==
                  AccrueN(was.acc, orders, uplift, cutoff, limit)
        invariant forall j :: 0 <= j < k ==> DueDays(State().acc, orders[j], cutoff) == 0
        invariant matured == old(matured) + CompletedBefore(orders, k, cutoff)
      {
        while Behind(k, cutoff)
          invariant BooksInv(State()) && orders == was.orders && ledger.caps.Keys == was.acc.ledger.caps.Keys
          invariant 0 <= posted <= limit
          invariant AccrueN(State().acc, orders, uplift, cutoff, limit - posted) ==
                    AccrueN(was.acc, orders, uplift, cutoff, limit)
          invariant forall j :: 0 <= j < k ==> DueDays(State().acc, orders[j], cutoff) == 0
          invariant matured == old(matured) + CompletedBefore(orders, k, cutoff)
          decreases limit - posted, Behind(k, cutoff)
        {
          if posted >= limit {
            NoAccrual(State().acc, orders, uplift, cutoff);
            StoppedAt(State().acc, orders, k, cutoff);
            return false;
          }
          ghost var before := State();
          AccrualKeepsBooks(before, k, uplift, cutoff);
          CapsStay(before, k, uplift);
          NextAccrual(before.acc, orders, uplift, cutoff, k, limit - posted);
          AccrueOne(k, uplift);
          OthersStayDone(before, k, uplift, cutoff);
          posted := posted + 1;
        }
        CompletedStep(orders, k, cutoff);
        if MaturityDay(orders[k]) <= cutoff { matured := matured + {orders[k].cd}; }
      }
      StoppedAt(State().acc, orders, |orders|, cutoff);
      DoneEarly(State().acc, orders, uplift, cutoff, limit - posted);
      return true;
    }

    /* ----- A week ----- */

    // Books obligations that do not exist yet, one by one.
    method CreateAll(os: seq<Obligation>, ghost base: Ledger, ghost before: seq<Obligation>)
      requires NewTo(base, before + os)
      requires ledger == base.(obligations := base.obligations + before)
      modifies `ledger
      ensures ledger == base.(obligations := base.obligations + (before + os))
    {
      hide NewTo;
      assert before + os[..0] == before;
      for i := 0 to |os|
        invariant ledger == base.(obligations := base.obligations + (before + os[..i]))
      {
        NextIsNew(base, before, os, i);
        var _ := CreateObligation(os[i]);
        assert before + os[..i + 1] == (before + os[..i]) + [os[i]];
      }
      assert os[..|os|] == os;
    }

    method Referrals(u: Universe, start: int, end: int) returns (ok: bool)
      requires Valid() && OwnersFit(ledger, u)
      modifies `ledger
      ensures ok == BuyersKnown(u, orders, start, end)
      ensures ok ==> ledger == WithDues(old(State()), u, start, end)
    {
      hide BooksInv, OwnersFit, SaleDues, NewTo, InWeek;
      ghost var was := State();
      assert ledger.obligations + [] == ledger.obligations;
      for k := 0 to |orders|
        invariant orders == was.orders && closed == was.closed && BuyersKnown(u, orders[..k], start, end)
        invariant ledger == was.acc.ledger.(obligations :=
                    was.acc.ledger.obligations + Dues(u, orders[..k], |closed|, start, end))
      {
        var sale := orders[k];
        assert orders[..k + 1][..k] == orders[..k] && orders[..k + 1][k] == sale;
        if InWeek(sale, start, end) {
          if sale.affiliate !in u.members { return false; }
          KnownSoFar(u, orders, start, end, k);
          DuesAreNew(was, u, start, end, k + 1);
          CreateAll(SaleDues(u, |closed|, sale), was.acc.ledger, Dues(u, orders[..k], |closed|, start, end));
        } else {
          KnownSoFar(u, orders, start, end, k);
          assert Dues(u, orders[..k], |closed|, start, end) + [] == Dues(u, orders[..k], |closed|, start, end);
        }
      }
      assert orders[..|orders|] == orders;
      return true;
    }

    method BinaryPay(u: Universe)
      requires Sound(ledger) && AllocationsFit(ledger, u.allocations)
      requires forall i :: 0 <= i < |ledger.obligations| && ledger.obligations[i].ref.BinaryRef? ==>
                 ledger.obligations[i].ref.period < |closed|
      modifies `ledger
      ensures ledger == WithBinary(old(ledger), |closed|, u)
    {
      hide Sound, NewTo, BinaryDue;
      ghost var was := ledger;
      assert was.obligations + [] == was.obligations;
      for k := 0 to |u.allocations|
        invariant ledger == was.(obligations := was.obligations + BinaryDues(was, |closed|, u.allocations[..k]))
      {
        var a := u.allocations[k];
        assert u.allocations[..k + 1][..k] == u.allocations[..k] && u.allocations[..k + 1][k] == a;
        ghost var before := BinaryDues(was, |closed|, u.allocations[..k]);
        if a.entitlement > 0 {
          BinaryPartNew(was, closed, u, k + 1);
          assert BinaryDue(ledger, |closed|, a) ==
                 BinaryDue(was, |closed|, a) by { SameCaps(ledger, was, |closed|, a); }
          CreateAll([BinaryDue(ledger, |closed|, a)], was, before);
        } else {
          assert before + [] == before;
        }
      }
      assert u.allocations[..|u.allocations|] == u.allocations;
    }

    // One entry: its throttled share, clipped by the package; what the package can never pay
    // is written off.
    method PayOne(id: nat, owed: int, theta: int, end: int) returns (amount: int)
      requires Sound(ledger) && id < |ledger.obligations| && Payable(ledger, id) && owed == Outstanding(ledger, id)
      requires ledger.obligations[id].pkg in ledger.caps && 0 <= theta <= ONE
      modifies `ledger
      ensures ledger == PayEntry(old(ledger), id, theta, end) && amount == Share(old(ledger), id, theta)
      ensures 0 <= amount
    {
      assert CapSound(ledger, ledger.obligations[id].pkg);
      ThrottledBounds(owed, theta);
      hide Sound, Throttled;
      var o := ledger.obligations[id];
      var remaining := owed;
      if UsesCap(o.kind) { remaining := Remaining(ledger, o.pkg); }
      amount := Throttled(owed, theta);
      if amount > remaining { amount := remaining; }
      if amount > 0 { PostPayment(id, amount, end); }
      if owed > remaining {
        ledger := ledger.(obligations := ledger.obligations[id :=
          ledger.obligations[id].(excluded := ledger.obligations[id].excluded + (owed - remaining))]);
      } else {
        ExcludeNothing(ledger, id);
      }
    }

    /**
     * The payment loop over everything that is owed; the budget check at its end can never
     * fail, and a budget that covers it all leaves nothing owed.
     */
    method PayEntries(end: int) returns (projected: int, credited: int, theta: int)
      requires Sound(ledger) && RoiSettled(ledger)
      modifies `ledger
      ensures ledger == PayOut(orders, old(ledger), end)
      ensures projected == Projected(old(ledger)) && theta == ClosingTheta(orders, old(ledger), end)
      ensures credited == PaidNow(orders, old(ledger), end) <= Budget(orders, old(ledger), end)
      ensures projected == TotalOwed(old(ledger).obligations) && EachPaid(old(ledger), ledger, theta)
      ensures projected <= Budget(orders, old(ledger), end) ==> TotalOwed(ledger.obligations) == 0
    {
      hide Sound, RoiSettled, Payable, Outstanding, PayEntry, Share, ComputeTheta, Budget, PaysOut, EachPaid, TotalOwed;
      ghost var was := ledger;
      CloseStaysInBudget(orders, was, end);
      CloseTakesUpAll(orders, was, end);
      ProjectedIsOwed(was);
      var entries := PayableFrom(ledger, 0);
      var amounts := Amounts(ledger, entries);
      var budget := Budget(orders, ledger, end);
      projected := Sum(amounts);
      theta := ComputeTheta(budget, projected);
      BudgetNonNegative(orders, ledger, end);
      ThetaRange(budget, projected);
      credited := 0;
      assert entries[0..] == entries && amounts[0..] == amounts;
      for i := 0 to |entries|
        invariant Sound(ledger) && RoiSettled(ledger) && Listed(ledger, entries[i..])
        invariant Amounts(ledger, entries[i..]) == amounts[i..]
        invariant PayAll(ledger, entries[i..], theta, end) == PayAll(was, entries, theta, end)
        invariant credited + Credited(ledger, entries[i..], theta, end) == Credited(was, entries, theta, end)
      {
        ghost var now := ledger;
        assert entries[i..][0] == entries[i] && entries[i..][1..] == entries[i + 1..];
        assert amounts[i..][0] == amounts[i] && amounts[i..][1..] == amounts[i + 1..];
        PayEntryKeeps(now, entries[i], theta, end);
        ListedRest(now, entries[i..], theta, end);
        assert amounts[i] == Amounts(now, entries[i..])[0] == Outstanding(now, entries[i]);
        var amount := PayOne(entries[i], amounts[i], theta, end);
        credited := credited + amount;
      }
      assert entries[|entries|..] == [];
    }

    method ClosePeriod(u: Universe, start: int, end: int) returns (ok: bool)
      requires Valid() && NextWeek(State(), start, end)
      requires OwnersFit(ledger, u) && AllocationsFit(ledger, u.allocations)
      modifies `ledger, `closed
      ensures ok == BuyersKnown(u, orders, start, end)
      ensures ok ==> Valid() && State() == CloseWeek(old(State()), u, start, end)
      ensures ok ==> ledger.caps.Keys == old(ledger.caps.Keys)
      ensures ok ==>
                && |closed| == |old(closed)| + 1
                && Tells(closed[|old(closed)|], old(State()), ledger, old(Owing(State(), u, start, end)), start, end)
    {
      hide BooksInv, NextWeek, OwnersFit, AllocationsFit, BuyersKnown, PayOut, PaidNow, Sound, RoiSettled, ClosingTheta;
      hide WithDues, WithBinary, Tells, Owing;
      ghost var was := State();
      ok := Referrals(u, start, end);
      if !ok { return; }
      assert UniverseFits(was, u, start, end);
      OwedParts(was, u, start, end);
      BinaryPay(u);
      var inflow := Inflows(orders, end) - Inflows(orders, start);
      var returned := TotalOf(RoiBefore(end), ledger.payments) - TotalOf(RoiBefore(start), ledger.payments);
      var projected, credited, theta := PayEntries(end);
      closed := closed + [Closed(start, end, inflow, returned, projected, credited, Projected(ledger), theta)];
      CloseKeepsBooks(was, u, start, end);
      CloseRecords(was, u, start, end);
    }

    /* ----- A run ----- */

    /**
     * One run, refused runs rolled back. Weeks are closed only once all returns up to the
     * cutoff are accrued, at most eight of them, each at least two hours over, and they
     * continue where the last closed week ended.
     */
    method Run(now: int, uplift: set<(int, int)>, weeks: seq<Universe>, allowed: nat, closes: nat)
      returns (r: RunResult)
      requires Valid() && |weeks| == MAX_CLOSES
      requires forall n :: 0 <= n < |weeks| ==>
               OwnersFit(ledger, weeks[n]) && AllocationsFit(ledger, weeks[n].allocations)
      modifies this
      ensures Valid() && (r, State()) == RunOf(old(State()), now, uplift, weeks, allowed, closes)
      ensures r != Done ==> matured == old(matured)
      ensures |old(closed)| <= |closed| <= |old(closed)| + 8 && closed[..|old(closed)|] == old(closed)
      ensures |old(closed)| < |closed| ==>
                && closed[|closed| - 1].end + 120 <= now
                && Backlog(State().acc, orders, DailyCutoff(now)) == 0
    {
      hide BooksInv, Backlog, AccrueN, OwnersFit, AllocationsFit, CloseWeek, NextWeek, PeriodStart, DailyCutoff,
        CloseWeeks, BuyersKnown;
      hide Completed, InWeek, Tells, Owing;
      if AnyFrozen(orders) { return RiskFrozen; }
      if orders == [] { return Done; }
      var was, marked := State(), matured;
      var caughtUp := AccrueRoi(now, uplift, allowed);
      ghost var accrued := State();
      var start := if closed == [] then PeriodStart(orders[0].activated) else closed[|closed| - 1].end;
      var limit := Min(closes, MAX_CLOSES);
      var n := 0;
      assert weeks[0..] == weeks;
      while caughtUp && n < limit && start + WEEK + GRACE <= now
        invariant Valid() && orders == was.orders && n <= limit
        invariant ledger.caps.Keys == was.acc.ledger.caps.Keys
        invariant |closed| == |was.closed| + n && closed[..|was.closed|] == was.closed
        invariant closed != [] ==> start == LastEnd(closed)
        invariant 0 < n ==> caughtUp && LastEnd(closed) + GRACE <= now
        invariant n == 0 ==> State() == accrued
        invariant caughtUp ==> Backlog(State().acc, orders, DailyCutoff(now)) == 0
        invariant CloseWeeks(State(), start, now, weeks[n..], limit - n) ==
                  CloseWeeks(accrued, FirstWeek(was), now, weeks, limit)
        decreases limit - n
      {
        var end := start + WEEK;
        ghost var before := State();
        CaughtUpIsPassed(before, now, start, end);
        FitsStill(was.acc.ledger, ledger, weeks[n]);
        NextClose(before, start, now, weeks[n..], limit - n);
        assert weeks[n..][0] == weeks[n] && weeks[n..][1..] == weeks[n + 1..];
        var ok := ClosePeriod(weeks[n], start, end);
        if !ok {
          orders, ledger, roi, days, closed := was.orders, was.acc.ledger, was.acc.roi, was.acc.days, was.closed;
          matured := marked;
          return NotReady;
        }
        CloseAppends(before, weeks[n], start, end);
        start, n := end, n + 1;
      }
      if caughtUp { NoMoreCloses(State(), start, now, weeks[n..], limit - n); }
      return Done;
    }

    predicate Behind(k: nat, cutoff: int)
      requires k < |orders|
      reads this
      ensures Behind(k, cutoff) <==> 0 < DueDays(State().acc, orders[k], cutoff)
    {
      StateOf(State().acc, orders[k]).day < Min(cutoff, MaturityDay(orders[k]))
    }
  }

  function CompletedBefore(orders: seq<Order>, n: nat, cutoff: int): set<int>
    requires n <= |orders|
  {
    set k | 0 <= k < n && MaturityDay(orders[k]) <= cutoff :: orders[k].cd
  }

  lemma {:induction false} NextClose(b: Books, start: int, now: int, weeks: seq<Universe>, n: nat)
    requires 0 < n && weeks != [] && start + WEEK + GRACE <= now
    ensures CloseWeeks(b, start, now, weeks, n) ==
            if !UniverseFits(b, weeks[0], start, start + WEEK) then None
            else CloseWeeks(CloseWeek(b, weeks[0], start, start + WEEK), start + WEEK, now, weeks[1..], n - 1)
  {
    hide UniverseFits, CloseWeek;
  }

  lemma {:induction false} NoMoreCloses(b: Books, start: int, now: int, weeks: seq<Universe>, n: nat)
    requires n == 0 || now < start + WEEK + GRACE
    ensures CloseWeeks(b, start, now, weeks, n) == Some(b)
  {
  }

  lemma {:induction false} NextAccrual(
      a: Accruals, orders: seq<Order>, uplift: set<(int, int)>, cutoff: int, k: nat, n: nat)
    requires k < |orders| && Fresh(a, orders[k]) && 0 < DueDays(a, orders[k], cutoff) && 0 < n
    requires forall j :: 0 <= j < k ==> DueDays(a, orders[j], cutoff) == 0
    ensures AccrueN(a, orders, uplift, cutoff, n) ==
            AccrueN(AccrueDay(a, orders[k], uplift), orders, uplift, cutoff, n - 1)
  {
    hide DueDays, Fresh, AccrueDay;
    StoppedAt(a, orders, k, cutoff);
  }

  lemma {:induction false} CompletedStep(orders: seq<Order>, k: nat, cutoff: int)
    requires k <= |orders|
    ensures CompletedBefore(orders, 0, cutoff) == {}
    ensures k < |orders| ==>
              CompletedBefore(orders, k + 1, cutoff) ==
              CompletedBefore(orders, k, cutoff) + if MaturityDay(orders[k]) <= cutoff then {orders[k].cd} else {}
  {
    hide MaturityDay;
  }

  lemma {:induction false} DoneEarly(a: Accruals, orders: seq<Order>, uplift: set<(int, int)>, cutoff: int, n: nat)
    requires Backlog(a, orders, cutoff) == 0
    ensures AccrueN(a, orders, uplift, cutoff, n) == a
  {
    NoAccrual(a, orders, uplift, cutoff);
  }

  // Nothing is due before order k, and k is behind unless it is the end of the list.
  lemma {:induction false} StoppedAt(a: Accruals, orders: seq<Order>, k: nat, cutoff: int)
    requires k <= |orders| && forall j :: 0 <= j < k ==> DueDays(a, orders[j], cutoff) == 0
    requires k < |orders| ==> 0 < DueDays(a, orders[k], cutoff)
    ensures FirstDue(a, orders, cutoff) == k && Completed(a, orders, cutoff) == CompletedBefore(orders, k, cutoff)
    ensures Backlog(a, orders, cutoff) == 0 <==> k == |orders|
  {
    hide DueDays;
    BacklogZero(a, orders, cutoff);
  }

  lemma {:induction false} AccrualsOf(b: Books)
    requires BooksInv(b)
    ensures Inv(b.acc, b.orders)
  {
  }

  lemma {:induction false} CapsStay(b: Books, k: nat, uplift: set<(int, int)>)
    requires BooksInv(b) && k < |b.orders|
    ensures Fresh(b.acc, b.orders[k])
    ensures AccrueDay(b.acc, b.orders[k], uplift).ledger.caps.Keys == b.acc.ledger.caps.Keys
  {
    hide Inv, AccrueDay;
    AccrueDayKeepsInv(b.acc, b.orders, k, uplift);
  }

  lemma {:induction false} OthersStayDone(b: Books, k: nat, uplift: set<(int, int)>, cutoff: int)
    requires BooksInv(b) && k < |b.orders| && Fresh(b.acc, b.orders[k])
    ensures forall j :: 0 <= j < |b.orders| && j != k ==>
              DueDays(AccrueDay(b.acc, b.orders[k], uplift), b.orders[j], cutoff) == DueDays(b.acc, b.orders[j], cutoff)
  {
    hide Inv, AccrueDay, Fresh, StateOf;
    forall j | 0 <= j < |b.orders| && j != k
      ensures DueDays(AccrueDay(b.acc, b.orders[k], uplift), b.orders[j], cutoff) == DueDays(b.acc, b.orders[j], cutoff)
    {
      AccruedOrders(b.acc, b.orders, k, uplift, j);
    }
  }

  lemma {:induction false} NextIsNew(base: Ledger, before: seq<Obligation>, os: seq<Obligation>, i: nat)
    requires NewTo(base, before + os) && i < |os|
    ensures !HasRef(base.(obligations := base.obligations + (before + os[..i])), os[i].ref)
  {
    var l := base.(obligations := base.obligations + (before + os[..i]));
    var all := before + os;
    assert all[|before| + i] == os[i] && !HasRef(base, os[i].ref);
    forall j | 0 <= j < |l.obligations| ensures l.obligations[j].ref != os[i].ref {
      if j >= |base.obligations| {
        assert l.obligations[j] == all[j - |base.obligations|];
      }
    }
    hide NewTo;
  }

  lemma {:induction false} KnownSoFar(u: Universe, orders: seq<Order>, start: int, end: int, k: nat)
    requires k < |orders| && BuyersKnown(u, orders[..k], start, end)
    requires InWeek(orders[k], start, end) ==> orders[k].affiliate in u.members
    ensures BuyersKnown(u, orders[..k + 1], start, end)
  {
    var known := orders[..k + 1];
    forall j | 0 <= j < |known| && InWeek(known[j], start, end) ensures known[j].affiliate in u.members {
      if j < k { assert orders[..k][j] == known[j]; }
    }
  }

  lemma {:induction false} SameCaps(l: Ledger, l': Ledger, period: int, a: Allocation)
    requires l.caps == l'.caps && a.pkg in l.caps
    ensures BinaryDue(l, period, a) == BinaryDue(l', period, a)
  {
  }

  lemma {:induction false} BinaryPartNew(l: Ledger, closed: seq<Closed>, u: Universe, k: nat)
    requires Sound(l) && AllocationsFit(l, u.allocations) && k <= |u.allocations|
    requires forall i :: 0 <= i < |l.obligations| && l.obligations[i].ref.BinaryRef? ==>
               l.obligations[i].ref.period < |closed|
    ensures NewTo(l, BinaryDues(l, |closed|, u.allocations[..k]))
  {
    assert AllocationsFit(l, u.allocations[..k]);
    BinaryDuesFit(l, |closed|, u.allocations[..k]);
    hide Sound, DistinctRefs, Acceptable, AllocationsFit;
  }

  lemma {:induction false} ExcludeNothing(l: Ledger, id: nat)
    requires id < |l.obligations|
    ensures Exclude(l, id, 0) == l
  {
  }

  lemma {:induction false} OwedParts(b: Books, u: Universe, start: int, end: int)
    requires BooksInv(b) && UniverseFits(b, u, start, end)
    ensures var l := WithDues(b, u, start, end);
            && Sound(l) && AllocationsFit(l, u.allocations) && l.payments == b.acc.ledger.payments
            && (forall i :: 0 <= i < |l.obligations| && l.obligations[i].ref.BinaryRef? ==>
                  l.obligations[i].ref.period < |b.closed|)
            && Sound(WithBinary(l, |b.closed|, u)) && RoiSettled(WithBinary(l, |b.closed|, u))
  {
    WithDuesSound(b, u, start, end);
    OwedIsSound(b, u, start, end);
    hide Sound, RoiSettled, Inv, Solvent, Passed, AllocationsFit, WithBinary, UniverseFits, Weeks;
    var l := WithDues(b, u, start, end);
    forall i | 0 <= i < |l.obligations| && l.obligations[i].ref.BinaryRef?
      ensures l.obligations[i].ref.period < |b.closed|
    {
      assert PeriodKnown(b.closed, b.acc.ledger.obligations[i].ref);
    }
  }

  // Caught up at a cutoff after the week: no return of the week is still to come.
  lemma {:induction false} CaughtUpIsPassed(b: Books, now: int, start: int, end: int)
    requires Backlog(b.acc, b.orders, DailyCutoff(now)) == 0 && end + GRACE <= now
    requires end == start + WEEK && (b.closed != [] ==> start == LastEnd(b.closed))
    ensures NextWeek(b, start, end)
  {
    BacklogZero(b.acc, b.orders, DailyCutoff(now));
    hide Backlog, StateOf;
    var k := FirstDue(b.acc, b.orders, DailyCutoff(now));
    forall j | 0 <= j < |b.orders| ensures Passed(b.acc, b.orders[j], end) {
      assert DueDays(b.acc, b.orders[j], DailyCutoff(now)) == 0;
    }
  }

  lemma {:induction false} FitsStill(l: Ledger, l': Ledger, u: Universe)
    requires l.caps.Keys == l'.caps.Keys && OwnersFit(l, u) && AllocationsFit(l, u.allocations)
    ensures OwnersFit(l', u) && AllocationsFit(l', u.allocations)
  {
  }

  lemma {:induction false} CloseAppends(b: Books, u: Universe, start: int, end: int)
    requires BooksInv(b) && UniverseFits(b, u, start, end)
    ensures var after := CloseWeek(b, u, start, end);
            && |after.closed| == |b.closed| + 1 && after.closed[..|b.closed|] == b.closed
            && after.closed[|b.closed|].start == start && after.closed[|b.closed|].end == end
            && after.acc.roi == b.acc.roi
            && forall orders, cutoff :: Backlog(after.acc, orders, cutoff) == Backlog(b.acc, orders, cutoff)
  {
    hide BooksInv, UniverseFits;
    CloseSummary(b, u, start, end);
    hide CloseWeek;
    var after := CloseWeek(b, u, start, end);
    forall orders, cutoff ensures Backlog(after.acc, orders, cutoff) == Backlog(b.acc, orders, cutoff) {
      SameBacklog(b.acc, after.acc, orders, cutoff);
    }
  }

  lemma {:induction false} SameBacklog(a: Accruals, a': Accruals, orders: seq<Order>, cutoff: int)
    requires a.roi == a'.roi
    ensures Backlog(a, orders, cutoff) == Backlog(a', orders, cutoff)
  {
    forall j | 0 <= j < |orders| ensures DueDays(a, orders[j], cutoff) == DueDays(a', orders[j], cutoff) {
      assert StateOf(a, orders[j]) == StateOf(a', orders[j]);
    }
    BacklogSame(a, a', orders, cutoff);
  }
}
