/**
 * Daily returns with cumulative cents: each business day adds principal times rate to an
 * exact numerator, and the day's amount is what the rounded-down total has grown by.
 */
module NowAccrual {
  import opened Prelude
  import opened NowLedger

  // Times are business-zone minutes, rates millionths a year, principals cents.
  const DAY := 1440
  const WEEK := 7 * DAY
  const RATE_UNIT := 1_000_000
  const YEAR := 365

  datatype Status = Active | Matured | Frozen

  // net is in hundredths of a cent.
  datatype Order = Order(
    id: int, affiliate: int, pkg: int, cd: int, gross: int, net: int, baseRate: int, qualifiedRate: int,
    activated: int, start: int, matures: int, status: Status)

  ghost predicate ValidOrders(orders: seq<Order>) {
    && (forall i :: 0 <= i < |orders| ==>
          0 <= orders[i].gross && 0 <= orders[i].net && 0 <= orders[i].baseRate && 0 <= orders[i].qualifiedRate)
    && (forall i, j :: 0 <= i < j < |orders| ==> orders[i].id != orders[j].id && orders[i].cd != orders[j].cd)
  }

  // A business day is cut off half an hour into the next.
  function DailyCutoff(time: int): int { (time - 30) / DAY }

  function StartDay(o: Order): int { DailyCutoff(o.start + 30) }

  function MaturityDay(o: Order): int { DailyCutoff(o.matures + 30) }

  datatype RoiState = RoiState(day: int, numerator: int, claimed: int)

  datatype RateDay = RateDay(rate: int, amount: int, credit: int)

  datatype Accruals = Accruals(ledger: Ledger, roi: map<int, RoiState>, days: map<(int, int), RateDay>)

  function StateOf(a: Accruals, o: Order): RoiState {
    if o.id in a.roi then a.roi[o.id] else RoiState(StartDay(o), 0, 0)
  }

  // Whole cents earned by a numerator.
  function Target(numerator: int): int { numerator / (YEAR * RATE_UNIT) }

  function RateOn(o: Order, day: int, uplift: set<(int, int)>): int {
    if (o.id, day) in uplift then o.qualifiedRate else o.baseRate
  }

  function Entry(a: Accruals, o: Order, uplift: set<(int, int)>): RateDay
    requires o.pkg in a.ledger.caps
  {
    var s := StateOf(a, o);
    var rate := RateOn(o, s.day + 1, uplift);
    var amount := Target(s.numerator + o.gross * rate) - s.claimed;
    RateDay(rate, amount, amount - Max(0, amount - Remaining(a.ledger, o.pkg)))
  }

  // The obligation of one day, settled at once as far as the package allows.
  function Settle(l: Ledger, o: Order, day: int, amount: int, credit: int): Ledger
    requires o.pkg in l.caps && !HasRef(l, RoiRef(o.cd, day))
  {
    if amount <= 0 then l
    else
      Post(Create(l, Open(RoiRef(o.cd, day), Roi, o.pkg, amount, amount - credit)),
           |l.obligations|, credit, day * DAY + 30)
  }

  predicate Fresh(a: Accruals, o: Order) {
    o.pkg in a.ledger.caps && !HasRef(a.ledger, RoiRef(o.cd, StateOf(a, o).day + 1))
  }

  // One business day of one order.
  function AccrueDay(a: Accruals, o: Order, uplift: set<(int, int)>): Accruals
    requires Fresh(a, o)
  {
    var s, entry := StateOf(a, o), Entry(a, o, uplift);
    var numerator := s.numerator + o.gross * entry.rate;
    Accruals(Settle(a.ledger, o, s.day + 1, entry.amount, entry.credit),
             a.roi[o.id := RoiState(s.day + 1, numerator, Target(numerator))],
             a.days[(o.id, s.day + 1) := entry])
  }

  /* ----- The invariant ----- */

  function NumeratorThrough(days: map<(int, int), RateDay>, o: Order, day: int): int
    decreases Max(0, day - StartDay(o))
  {
    if day <= StartDay(o) then 0
    else NumeratorThrough(days, o, day - 1) + if (o.id, day) in days then o.gross * days[(o.id, day)].rate else 0
  }

  function AmountThrough(days: map<(int, int), RateDay>, o: Order, day: int): int
    decreases Max(0, day - StartDay(o))
  {
    if day <= StartDay(o) then 0
    else AmountThrough(days, o, day - 1) + if (o.id, day) in days then days[(o.id, day)].amount else 0
  }

  // The recorded days are exactly those after the start up to the last accrued one, and the
  // state is what they add up to.
  ghost predicate RoiInv(a: Accruals, o: Order) {
    var s := StateOf(a, o);
    && StartDay(o) <= s.day
    && (forall day :: (o.id, day) in a.days <==> StartDay(o) < day <= s.day)
    && 0 <= s.numerator == NumeratorThrough(a.days, o, s.day)
    && s.claimed == Target(s.numerator) == AmountThrough(a.days, o, s.day)
    && o.pkg in a.ledger.caps
  }

  // Every return obligation belongs to a recorded day of an order.
  ghost predicate RefInv(a: Accruals, orders: seq<Order>, ref: Ref) {
    ref.RoiRef? ==> exists k :: 0 <= k < |orders| && orders[k].cd == ref.cd && (orders[k].id, ref.day) in a.days
  }

  ghost predicate Inv(a: Accruals, orders: seq<Order>) {
    && ValidOrders(orders) && Sound(a.ledger) && RoiSettled(a.ledger)
    && (forall k :: 0 <= k < |orders| ==> RoiInv(a, orders[k]))
    && (forall i :: 0 <= i < |a.ledger.obligations| ==> RefInv(a, orders, a.ledger.obligations[i].ref))
  }

  lemma {:induction false} NextDayIsFresh(a: Accruals, orders: seq<Order>, k: nat)
    requires Inv(a, orders) && k < |orders|
    ensures Fresh(a, orders[k])
  {
    var o := orders[k];
    var day := StateOf(a, o).day + 1;
    assert RoiInv(a, o);
    hide RoiInv, Sound, RoiSettled, StateOf;
    forall i | 0 <= i < |a.ledger.obligations| ensures a.ledger.obligations[i].ref != RoiRef(o.cd, day) {
      assert RefInv(a, orders, a.ledger.obligations[i].ref);
    }
  }

  lemma {:induction false} TargetGrows(n: int, x: int)
    requires 0 <= n && 0 <= x
    ensures 0 <= Target(n) <= Target(n + x)
  {
  }

  lemma {:induction false} NonNegativeProduct(x: int, y: int)
    requires 0 <= x && 0 <= y
    ensures 0 <= x * y
  {
  }

  // A day's amount is never negative, and its credit fits the package.
  lemma {:induction false} EntryBounds(a: Accruals, orders: seq<Order>, k: nat, uplift: set<(int, int)>)
    requires Inv(a, orders) && k < |orders|
    ensures var o, s := orders[k], StateOf(a, orders[k]);
            && o.pkg in a.ledger.caps
            && var e := Entry(a, o, uplift);
               0 <= e.credit <= e.amount && e.credit <= Remaining(a.ledger, o.pkg) && 0 <= o.gross * e.rate
               && (e.credit < e.amount ==> e.credit == Remaining(a.ledger, o.pkg))
  {
    var o, s := orders[k], StateOf(a, orders[k]);
    assert RoiInv(a, o) && CapSound(a.ledger, o.pkg);
    hide RoiInv, Sound, RoiSettled, RefInv;
    var rate := RateOn(o, s.day + 1, uplift);
    NonNegativeProduct(o.gross, rate);
    TargetGrows(s.numerator, o.gross * rate);
    hide Target;
  }

  /**
   * One business day: the order earns its qualified rate if it is uplifted on that day and its
   * base rate if not. The day's amount is what the earned total, in whole cents, has grown by,
   * and it is credited as far as the package allows.
   */
  lemma {:induction false} DayEarns(a: Accruals, orders: seq<Order>, k: nat, uplift: set<(int, int)>)
    requires Inv(a, orders) && k < |orders| && Fresh(a, orders[k])
    ensures var o := orders[k];
            var s, s', e := StateOf(a, o), StateOf(AccrueDay(a, o, uplift), o), Entry(a, o, uplift);
            && s'.day == s.day + 1
            && s'.numerator == s.numerator
               + o.gross * (if (o.id, s.day + 1) in uplift then o.qualifiedRate else o.baseRate)
            && e.amount == s'.numerator / 365_000_000 - s.numerator / 365_000_000
            && o.pkg in a.ledger.caps
            && var rest := a.ledger.caps[o.pkg].total - a.ledger.caps[o.pkg].paid;
               e.credit == if e.amount <= rest then e.amount else rest
  {
    assert RoiInv(a, orders[k]);
    hide Settle, Inv, RoiInv, Fresh;
  }

  /**
   * An order is due the business days it has not accrued yet, up to the cutoff or its maturity.
   * Business days are counted from midnight, and are over half an hour into the next.
   */
  lemma {:induction false} DueUntil(a: Accruals, o: Order, now: int)
    ensures var done := if o.id in a.roi then a.roi[o.id].day else o.start / (24 * 60);
            var until := if (now - 30) / (24 * 60) <= o.matures / (24 * 60) then (now - 30) / (24 * 60)
                         else o.matures / (24 * 60);
            DueDays(a, o, DailyCutoff(now)) == if done <= until then until - done else 0
  {
  }

  lemma {:induction false} SettleKeepsSound(l: Ledger, o: Order, day: int, amount: int, credit: int)
    requires Sound(l) && o.pkg in l.caps && !HasRef(l, RoiRef(o.cd, day)) && 0 <= credit <= amount
    requires credit <= Remaining(l, o.pkg)
    ensures var l' := Settle(l, o, day, amount, credit);
            && Sound(l') && l'.caps.Keys == l.caps.Keys
            && |l'.obligations| == |l.obligations| + (if 0 < amount then 1 else 0)
            && (forall i :: 0 <= i < |l.obligations| ==> l'.obligations[i] == l.obligations[i])
            && (0 < amount ==> l'.obligations[|l.obligations|] ==
                                 Obligation(RoiRef(o.cd, day), Roi, o.pkg, amount, amount - credit, credit))
            && l'.payments == (if 0 < credit then
               l.payments + [Payment(|l.obligations|, Roi, o.pkg, credit, day * DAY + 30)]
                               else l.payments)
  {
    if 0 < amount {
      var claim := Open(RoiRef(o.cd, day), Roi, o.pkg, amount, amount - credit);
      CreateKeepsSound(l, claim);
      PostKeepsSound(Create(l, claim), |l.obligations|, credit, day * DAY + 30);
    }
    hide Sound;
  }

  lemma {:induction false} DaysUntouched(
      days: map<(int, int), RateDay>, o: Order, key: (int, int), entry: RateDay, day: int)
    requires key.0 != o.id || day < key.1
    ensures NumeratorThrough(days[key := entry], o, day) == NumeratorThrough(days, o, day)
    ensures AmountThrough(days[key := entry], o, day) == AmountThrough(days, o, day)
    decreases Max(0, day - StartDay(o))
  {
    hide DailyCutoff;
    if StartDay(o) < day { DaysUntouched(days, o, key, entry, day - 1); }
  }

  lemma {:induction false} AccruedOrder(a: Accruals, orders: seq<Order>, k: nat, uplift: set<(int, int)>)
    requires Inv(a, orders) && k < |orders| && Fresh(a, orders[k])
    requires orders[k].pkg in AccrueDay(a, orders[k], uplift).ledger.caps
    ensures RoiInv(AccrueDay(a, orders[k], uplift), orders[k])
  {
    EntryBounds(a, orders, k, uplift);
    var o := orders[k];
    var s, e := StateOf(a, o), Entry(a, o, uplift);
    assert RoiInv(a, o);
    DaysUntouched(a.days, o, (o.id, s.day + 1), e, s.day);
    NonNegativeProduct(o.gross, e.rate);
    hide Settle, Sound, RoiSettled, RefInv, Inv, Target, DailyCutoff;
  }

  lemma {:induction false} OtherOrder(a: Accruals, o: Order, other: Order, uplift: set<(int, int)>)
    requires Fresh(a, o) && RoiInv(a, other) && o.id != other.id
    requires other.pkg in AccrueDay(a, o, uplift).ledger.caps
    ensures RoiInv(AccrueDay(a, o, uplift), other)
    ensures StateOf(AccrueDay(a, o, uplift), other) == StateOf(a, other)
  {
    DaysUntouched(a.days, other, (o.id, StateOf(a, o).day + 1), Entry(a, o, uplift), StateOf(a, other).day);
    hide Settle, Target, DailyCutoff, Entry;
  }

  // The ledger side of one accrued day.
  lemma {:induction false} AccruedLedger(a: Accruals, orders: seq<Order>, k: nat, uplift: set<(int, int)>)
    requires Inv(a, orders) && k < |orders| && Fresh(a, orders[k])
    ensures var o := orders[k];
            var after, day, e := AccrueDay(a, o, uplift), StateOf(a, o).day + 1, Entry(a, o, uplift);
            && Sound(after.ledger) && after.ledger.caps.Keys == a.ledger.caps.Keys && 0 <= e.credit <= e.amount
            && |after.ledger.obligations| == |a.ledger.obligations| + (if 0 < e.amount then 1 else 0)
            && (forall i :: 0 <= i < |a.ledger.obligations| ==> after.ledger.obligations[i] == a.ledger.obligations[i])
            && (0 < e.amount ==> after.ledger.obligations[|a.ledger.obligations|] ==
                                   Obligation(RoiRef(o.cd, day), Roi, o.pkg, e.amount, e.amount - e.credit, e.credit))
            && after.ledger.payments ==
               (if 0 < e.credit
                then a.ledger.payments + [Payment(|a.ledger.obligations|, Roi, o.pkg, e.credit, day * DAY + 30)]
                else a.ledger.payments)
            && after.days == a.days[(o.id, day) := e]
  {
    hide Settle, Sound, Entry, StateOf, Inv, HasRef;
    EntryBounds(a, orders, k, uplift);
    assert Sound(a.ledger) by { LedgerOf(a, orders); }
    var o := orders[k];
    SettleKeepsSound(a.ledger, o, StateOf(a, o).day + 1, Entry(a, o, uplift).amount, Entry(a, o, uplift).credit);
  }

  lemma {:induction false} LedgerOf(a: Accruals, orders: seq<Order>)
    requires Inv(a, orders)
    ensures Sound(a.ledger) && RoiSettled(a.ledger)
  {
  }

  lemma {:induction false} AccruedSettled(a: Accruals, orders: seq<Order>, k: nat, uplift: set<(int, int)>)
    requires Inv(a, orders) && k < |orders| && Fresh(a, orders[k])
    ensures RoiSettled(AccrueDay(a, orders[k], uplift).ledger)
  {
    AccruedLedger(a, orders, k, uplift);
    hide AccrueDay, Sound, Entry, StateOf, Fresh, RoiInv, RefInv, ValidOrders;
  }

  lemma {:induction false} AccruedRefs(a: Accruals, orders: seq<Order>, k: nat, uplift: set<(int, int)>, i: nat)
    requires Inv(a, orders) && k < |orders| && Fresh(a, orders[k])
    requires i < |AccrueDay(a, orders[k], uplift).ledger.obligations|
    ensures var after := AccrueDay(a, orders[k], uplift); RefInv(after, orders, after.ledger.obligations[i].ref)
  {
    AccruedLedger(a, orders, k, uplift);
    hide AccrueDay, Sound, Entry, StateOf, Fresh, RoiInv, ValidOrders, RoiSettled;
    if i < |a.ledger.obligations| { assert RefInv(a, orders, a.ledger.obligations[i].ref); }
  }

  lemma {:induction false} AccruedOrders(a: Accruals, orders: seq<Order>, k: nat, uplift: set<(int, int)>, j: nat)
    requires Inv(a, orders) && k < |orders| && j < |orders| && Fresh(a, orders[k])
    ensures RoiInv(AccrueDay(a, orders[k], uplift), orders[j])
    ensures j != k ==> StateOf(AccrueDay(a, orders[k], uplift), orders[j]) == StateOf(a, orders[j])
  {
    AccruedLedger(a, orders, k, uplift);
    hide AccrueDay, Sound, Entry, RoiSettled, Fresh;
    assert RoiInv(a, orders[j]) && RoiInv(a, orders[k]);
    if j == k {
      AccruedOrder(a, orders, k, uplift);
    } else {
      assert orders[j].id != orders[k].id;
      OtherOrder(a, orders[k], orders[j], uplift);
    }
  }

  lemma {:induction false} AccrueDayKeepsInv(a: Accruals, orders: seq<Order>, k: nat, uplift: set<(int, int)>)
    requires Inv(a, orders) && k < |orders|
    ensures Fresh(a, orders[k]) && Inv(AccrueDay(a, orders[k], uplift), orders)
    ensures AccrueDay(a, orders[k], uplift).ledger.caps.Keys == a.ledger.caps.Keys
  {
    NextDayIsFresh(a, orders, k);
    AccruedLedger(a, orders, k, uplift);
    AccruedSettled(a, orders, k, uplift);
    hide AccrueDay, Sound, Entry, StateOf, RoiSettled, RoiInv, RefInv, Fresh;
    forall j | 0 <= j < |orders| ensures RoiInv(AccrueDay(a, orders[k], uplift), orders[j]) {
      AccruedOrders(a, orders, k, uplift, j);
    }
    var after := AccrueDay(a, orders[k], uplift);
    forall i | 0 <= i < |after.ledger.obligations| ensures RefInv(after, orders, after.ledger.obligations[i].ref) {
      AccruedRefs(a, orders, k, uplift, i);
    }
  }

  /* ----- What an order has earned ----- */

  function RoiEntitlement(principal: int, rate: int, days: int): int {
    principal * rate * days / (YEAR * RATE_UNIT)
  }

  lemma {:induction false} ConstantNumerator(days: map<(int, int), RateDay>, o: Order, rate: int, day: int)
    requires StartDay(o) <= day
    requires forall d :: StartDay(o) < d <= day ==> (o.id, d) in days && days[(o.id, d)].rate == rate
    ensures NumeratorThrough(days, o, day) == o.gross * rate * (day - StartDay(o))
    decreases day - StartDay(o)
  {
    hide DailyCutoff;
    if StartDay(o) < day {
      ConstantNumerator(days, o, rate, day - 1);
      OneMore(o.gross * rate, day - 1 - StartDay(o));
    }
  }

  lemma {:induction false} OneMore(x: int, n: int)
    ensures x * n + x == x * (n + 1)
  {
  }

  /**
   * Daily amounts lose no fraction: they add up to the rounded-down exact total, and at one
   * rate throughout to the closed form for that many days.
   */
  lemma {:induction false} DailyAmountsTelescope(a: Accruals, orders: seq<Order>, k: nat, rate: int)
    requires Inv(a, orders) && k < |orders|
    ensures var o, s := orders[k], StateOf(a, orders[k]);
            && AmountThrough(a.days, o, s.day) == NumeratorThrough(a.days, o, s.day) / (YEAR * RATE_UNIT)
            && ((forall d :: StartDay(o) < d <= s.day && (o.id, d) in a.days ==> a.days[(o.id, d)].rate == rate) ==>
                  AmountThrough(a.days, o, s.day) == RoiEntitlement(o.gross, rate, s.day - StartDay(o)))
  {
    var o, s := orders[k], StateOf(a, orders[k]);
    assert RoiInv(a, o);
    hide Inv, NumeratorThrough, AmountThrough, DailyCutoff, StateOf;
    if forall d :: StartDay(o) < d <= s.day && (o.id, d) in a.days ==> a.days[(o.id, d)].rate == rate {
      ConstantNumerator(a.days, o, rate, s.day);
    }
  }

  /* ----- Bounded runs ----- */

  // Days an order is behind the cutoff.
  function DueDays(a: Accruals, o: Order, cutoff: int): nat {
    Max(0, Min(cutoff, MaturityDay(o)) - StateOf(a, o).day)
  }

  function Backlog(a: Accruals, orders: seq<Order>, cutoff: int): nat {
    if orders == [] then 0
    else DueDays(a, orders[0], cutoff) + Backlog(a, orders[1..], cutoff)
  }

  // The first order, in the given order, that is behind.
  function FirstDue(a: Accruals, orders: seq<Order>, cutoff: int): (k: nat)
    ensures k <= |orders|
    ensures forall j :: 0 <= j < k ==> DueDays(a, orders[j], cutoff) == 0
    ensures k < |orders| ==> 0 < DueDays(a, orders[k], cutoff)
  {
    if orders == [] || 0 < DueDays(a, orders[0], cutoff) then 0 else 1 + FirstDue(a, orders[1..], cutoff)
  }

  // At most n days are accrued, the first order's first.
  function AccrueN(a: Accruals, orders: seq<Order>, uplift: set<(int, int)>, cutoff: int, n: nat): Accruals
    decreases n
  {
    var k := FirstDue(a, orders, cutoff);
    if n == 0 || k == |orders| || !Fresh(a, orders[k]) then a
    else AccrueN(AccrueDay(a, orders[k], uplift), orders, uplift, cutoff, n - 1)
  }

  // A run cut off anywhere resumes where it stopped.
  lemma {:induction false} AccrueNSplit(
      a: Accruals, orders: seq<Order>, uplift: set<(int, int)>, cutoff: int, n: nat, m: nat)
    ensures AccrueN(AccrueN(a, orders, uplift, cutoff, n), orders, uplift, cutoff, m) ==
            AccrueN(a, orders, uplift, cutoff, n + m)
    decreases n
  {
    hide AccrueDay, Fresh;
    var k := FirstDue(a, orders, cutoff);
    if n > 0 && k < |orders| && Fresh(a, orders[k]) {
      AccrueNSplit(AccrueDay(a, orders[k], uplift), orders, uplift, cutoff, n - 1, m);
    }
  }

  lemma {:induction false} BacklogZero(a: Accruals, orders: seq<Order>, cutoff: int)
    ensures Backlog(a, orders, cutoff) == 0 <==> FirstDue(a, orders, cutoff) == |orders|
  {
    if orders != [] { BacklogZero(a, orders[1..], cutoff); }
  }

  lemma {:induction false} BacklogShrinks(a: Accruals, a': Accruals, orders: seq<Order>, cutoff: int, k: nat)
    requires k < |orders| && DueDays(a', orders[k], cutoff) + 1 == DueDays(a, orders[k], cutoff)
    requires forall j :: 0 <= j < |orders| && j != k ==> DueDays(a', orders[j], cutoff) == DueDays(a, orders[j], cutoff)
    ensures Backlog(a', orders, cutoff) + 1 == Backlog(a, orders, cutoff)
  {
    hide DueDays;
    if k == 0 {
      BacklogSame(a, a', orders[1..], cutoff);
    } else {
      BacklogShrinks(a, a', orders[1..], cutoff, k - 1);
    }
  }

  lemma {:induction false} BacklogSame(a: Accruals, a': Accruals, orders: seq<Order>, cutoff: int)
    requires forall j :: 0 <= j < |orders| ==> DueDays(a', orders[j], cutoff) == DueDays(a, orders[j], cutoff)
    ensures Backlog(a', orders, cutoff) == Backlog(a, orders, cutoff)
  {
    hide DueDays;
    if orders != [] { BacklogSame(a, a', orders[1..], cutoff); }
  }

  lemma {:induction false} AccrueDayShrinks(
      a: Accruals, orders: seq<Order>, uplift: set<(int, int)>, cutoff: int, k: nat)
    requires Inv(a, orders) && k < |orders| && Fresh(a, orders[k]) && 0 < DueDays(a, orders[k], cutoff)
    ensures Backlog(AccrueDay(a, orders[k], uplift), orders, cutoff) + 1 == Backlog(a, orders, cutoff)
  {
    var a' := AccrueDay(a, orders[k], uplift);
    assert StateOf(a', orders[k]).day == StateOf(a, orders[k]).day + 1;
    hide Inv, AccrueDay, Fresh, Backlog, StateOf;
    forall j | 0 <= j < |orders| && j != k ensures DueDays(a', orders[j], cutoff) == DueDays(a, orders[j], cutoff) {
      AccruedOrders(a, orders, k, uplift, j);
    }
    BacklogShrinks(a, a', orders, cutoff, k);
  }

  /** Catching up takes exactly as many accruals as there are days due, each done once. */
  lemma {:induction false} CaughtUpIff(a: Accruals, orders: seq<Order>, uplift: set<(int, int)>, cutoff: int, n: nat)
    requires Inv(a, orders)
    ensures Backlog(AccrueN(a, orders, uplift, cutoff, n), orders, cutoff) == Max(0, Backlog(a, orders, cutoff) - n)
    decreases n
  {
    hide Inv, AccrueDay, Fresh, Backlog;
    var k := FirstDue(a, orders, cutoff);
    BacklogZero(a, orders, cutoff);
    if n > 0 && k < |orders| {
      AccrueDayKeepsInv(a, orders, k, uplift);
      AccrueDayShrinks(a, orders, uplift, cutoff, k);
      CaughtUpIff(AccrueDay(a, orders[k], uplift), orders, uplift, cutoff, n - 1);
    }
  }

  function InRuns(a: Accruals, orders: seq<Order>, uplift: set<(int, int)>, cutoff: int, sizes: seq<nat>): Accruals
    decreases |sizes|
  {
    if sizes == [] then a
    else InRuns(AccrueN(a, orders, uplift, cutoff, sizes[0]), orders, uplift, cutoff, sizes[1..])
  }

  function TotalSize(sizes: seq<nat>): nat { if sizes == [] then 0 else sizes[0] + TotalSize(sizes[1..]) }

  lemma {:induction false} RunsAddUp(
      a: Accruals, orders: seq<Order>, uplift: set<(int, int)>, cutoff: int, sizes: seq<nat>)
    ensures InRuns(a, orders, uplift, cutoff, sizes) == AccrueN(a, orders, uplift, cutoff, TotalSize(sizes))
    decreases |sizes|
  {
    hide AccrueN;
    if sizes == [] {
      assert AccrueN(a, orders, uplift, cutoff, 0) == a by { NoAccrual(a, orders, uplift, cutoff); }
    } else {
      RunsAddUp(AccrueN(a, orders, uplift, cutoff, sizes[0]), orders, uplift, cutoff, sizes[1..]);
      AccrueNSplit(a, orders, uplift, cutoff, sizes[0], TotalSize(sizes[1..]));
    }
  }

  lemma {:induction false} NoAccrual(a: Accruals, orders: seq<Order>, uplift: set<(int, int)>, cutoff: int)
    ensures AccrueN(a, orders, uplift, cutoff, 0) == a
    ensures Backlog(a, orders, cutoff) == 0 ==> forall n: nat :: AccrueN(a, orders, uplift, cutoff, n) == a
  {
    BacklogZero(a, orders, cutoff);
  }

  /**
   * However the work is cut into runs, once everything up to the cutoff is accrued the state
   * is that of one uninterrupted run.
   */
  lemma {:induction false} RunsReachOneState(
      a: Accruals, orders: seq<Order>, uplift: set<(int, int)>, cutoff: int, sizes: seq<nat>)
    requires Inv(a, orders) && Backlog(InRuns(a, orders, uplift, cutoff, sizes), orders, cutoff) == 0
    ensures InRuns(a, orders, uplift, cutoff, sizes) ==
            AccrueN(a, orders, uplift, cutoff, Backlog(a, orders, cutoff))
  {
    hide AccrueN, Inv, Backlog, InRuns;
    var n, b := TotalSize(sizes), Backlog(a, orders, cutoff);
    RunsAddUp(a, orders, uplift, cutoff, sizes);
    CaughtUpIff(a, orders, uplift, cutoff, n);
    CaughtUpIff(a, orders, uplift, cutoff, b);
    AccrueNSplit(a, orders, uplift, cutoff, b, n - b);
    NoAccrual(AccrueN(a, orders, uplift, cutoff, b), orders, uplift, cutoff);
  }
}
