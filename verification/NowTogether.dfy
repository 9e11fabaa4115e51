/**
 * The scoped engine with its stored claims: every week asks the allocator for its grants, books
 * them and pays, in one transaction. What is proved of the books and of the claims holds at once,
 * and what is booked for an affiliate's binary follows its paid blocks.
 */
module NowTogether {
  import opened Prelude
  import opened NowLedger
  import opened NowAccrual
  import opened NowClose
  import opened NowWeek
  import opened NowBooks
  import opened NowEngine
  import opened NowRuns
  import B = BinaryPreview
  import G = NowGrants
  import BlockPricing

  datatype Both = Both(books: Books, binary: G.State)

  // What a week sees besides the stored claims: its end as the allocator counts time, and the
  // affiliates it considers. The allocations of the universe are replaced by what is granted.
  datatype WeekInput = WeekInput(universe: Universe, asOf: int, candidates: seq<G.Candidate>)

  ghost function Granted(w: WeekInput, binary: G.State): Universe
    requires G.GrantAll(binary, w.asOf, w.candidates).Ok?
  {
    w.universe.(allocations := G.GrantAll(binary, w.asOf, w.candidates).value.1)
  }

  // The next week, or nothing if the allocator refuses or the week does not fit the books.
  ghost function CloseOne(both: Both, w: WeekInput, start: int): Option<Both> {
    if G.GrantAll(both.binary, w.asOf, w.candidates).Err? then None
    else
      var u := Granted(w, both.binary);
      if !UniverseFits(both.books, u, start, start + WEEK) then None
      else Some(Both(CloseWeek(both.books, u, start, start + WEEK),
                     G.GrantAll(both.binary, w.asOf, w.candidates).value.0))
  }

  ghost function CloseAll(both: Both, start: int, now: int, weeks: seq<WeekInput>, n: nat): Option<Both>
    decreases n
  {
    if n == 0 || weeks == [] || now < start + WEEK + GRACE then Some(both)
    else
      var next := CloseOne(both, weeks[0], start);
      if next.None? then None else CloseAll(next.value, start + WEEK, now, weeks[1..], n - 1)
  }

  // A whole run; a failed one leaves books and claims as they were.
  ghost function RunBoth(
      both: Both, now: int, uplift: set<(int, int)>, weeks: seq<WeekInput>, allowed: nat, closes: nat): Both
  {
    var b := both.books;
    if AnyFrozen(b.orders) || b.orders == [] then both
    else
      var accrued := b.(acc := AccrueN(b.acc, b.orders, uplift, DailyCutoff(now), Min(MAX_ACCRUALS, allowed)));
      if allowed == 0 || 0 < Backlog(accrued.acc, accrued.orders, DailyCutoff(now)) then both.(books := accrued)
      else
        var after := CloseAll(both.(books := accrued), FirstWeek(b), now, weeks, Min(closes, MAX_CLOSES));
        if after.None? then both else after.value
  }

  /* ----- Seen from the books ----- */

  // A universe that fits no books with orders in a period.
  const NO_UNIVERSE := Universe(map[], map[], {}, {}, [Allocation(0, 0, -1, 0)])

  // The universes the books saw.
  ghost function Seen(both: Both, start: int, now: int, weeks: seq<WeekInput>, n: nat): seq<Universe>
    decreases n
  {
    if n == 0 || weeks == [] || now < start + WEEK + GRACE then []
    else if G.GrantAll(both.binary, weeks[0].asOf, weeks[0].candidates).Err? then [NO_UNIVERSE]
    else
      var next := CloseOne(both, weeks[0], start);
      [Granted(weeks[0], both.binary)]
      + if next.None? then [] else Seen(next.value, start + WEEK, now, weeks[1..], n - 1)
  }

  lemma {:induction false} BooksOfClose(both: Both, start: int, now: int, weeks: seq<WeekInput>, n: nat)
    ensures var seen := Seen(both, start, now, weeks, n);
            CloseWeeks(both.books, start, now, seen, n) ==
            if CloseAll(both, start, now, weeks, n).None? then None
            else Some(CloseAll(both, start, now, weeks, n).value.books)
    decreases n
  {
    hide CloseWeek, UniverseFits, G.GrantAll;
    if n > 0 && weeks != [] && start + WEEK + GRACE <= now {
      var seen := Seen(both, start, now, weeks, n);
      if G.GrantAll(both.binary, weeks[0].asOf, weeks[0].candidates).Err? {
        NothingFits(both.books, start);
      } else {
        var next := CloseOne(both, weeks[0], start);
        if next.Some? {
          BooksOfClose(next.value, start + WEEK, now, weeks[1..], n - 1);
          assert seen[1..] == Seen(next.value, start + WEEK, now, weeks[1..], n - 1);
        }
      }
    }
  }

  lemma {:induction false} NothingFits(b: Books, start: int)
    ensures !UniverseFits(b, NO_UNIVERSE, start, start + WEEK)
  {
    assert NO_UNIVERSE.allocations[0].entitlement < 0;
    hide OwnersFit, BuyersKnown;
  }

  ghost function SeenByRun(
      both: Both, now: int, uplift: set<(int, int)>, weeks: seq<WeekInput>, allowed: nat, closes: nat): seq<Universe>
  {
    var b := both.books;
    if b.orders == [] then []
    else
      var accrued := b.(acc := AccrueN(b.acc, b.orders, uplift, DailyCutoff(now), Min(MAX_ACCRUALS, allowed)));
      Seen(both.(books := accrued), FirstWeek(b), now, weeks, Min(closes, MAX_CLOSES))
  }

  /** To the books, a run with claims is a run with the granted allocations. */
  lemma {:induction false} BooksOfRun(
      both: Both, now: int, uplift: set<(int, int)>, weeks: seq<WeekInput>, allowed: nat, closes: nat)
    ensures RunBoth(both, now, uplift, weeks, allowed, closes).books ==
            RunOf(both.books, now, uplift, SeenByRun(both, now, uplift, weeks, allowed, closes), allowed, closes).1
  {
    var b := both.books;
    hide AccrueN, Backlog, DailyCutoff, CloseAll, CloseWeeks, Seen, FirstWeek;
    if b.orders != [] {
      var accrued := b.(acc := AccrueN(b.acc, b.orders, uplift, DailyCutoff(now), Min(MAX_ACCRUALS, allowed)));
      BooksOfClose(both.(books := accrued), FirstWeek(b), now, weeks, Min(closes, MAX_CLOSES));
    }
  }

  /* ----- Histories ----- */

  datatype Event =
    | Joins(order: Order, total: int)
    | Runs(now: int, uplift: set<(int, int)>, weeks: seq<WeekInput>, allowed: nat, closes: nat)

  ghost predicate Happens(both: Both, e: Event, after: Both) {
    match e
    case Joins(o, total) =>
      CanJoin(both.books, o, total) && after == both.(books := Join(both.books, o, total))
    case Runs(now, uplift, weeks, allowed, closes) => after == RunBoth(both, now, uplift, weeks, allowed, closes)
  }

  // Candidates come in ascending order of affiliates.
  ghost predicate InOrder(e: Event) {
    e.Runs? ==> forall i :: 0 <= i < |e.weeks| ==> G.Ascends(e.weeks[i].candidates)
  }

  ghost predicate IsHistory(run: seq<Both>, events: seq<Event>) {
    && |run| == |events| + 1 && run[0] == Both(EMPTY, G.NOTHING)
    && forall i :: 0 <= i < |events| ==> InOrder(events[i]) && Happens(run[i], events[i], run[i + 1])
  }

  ghost function BookEvent(both: Both, e: Event): NowRuns.Event {
    match e
    case Joins(o, total) => NowRuns.Joins(o, total)
    case Runs(now, uplift, weeks, allowed, closes) =>
      NowRuns.Runs(now, uplift, SeenByRun(both, now, uplift, weeks, allowed, closes), allowed, closes)
  }

  ghost function BookRun(run: seq<Both>): (books: seq<Books>)
    ensures |books| == |run| && forall i :: 0 <= i < |run| ==> books[i] == run[i].books
  {
    seq(|run|, i requires 0 <= i < |run| => run[i].books)
  }

  ghost function BookEvents(run: seq<Both>, events: seq<Event>): (es: seq<NowRuns.Event>)
    requires |run| == |events| + 1
    ensures |es| == |events| && forall i :: 0 <= i < |es| ==> es[i] == BookEvent(run[i], events[i])
  {
    seq(|events|, i requires 0 <= i < |events| => BookEvent(run[i], events[i]))
  }

  /** Its books go through a history of the engine, so all that holds of those holds here. */
  lemma {:induction false} BooksOfHistory(run: seq<Both>, events: seq<Event>)
    requires IsHistory(run, events)
    ensures NowRuns.IsHistory(BookRun(run), BookEvents(run, events))
  {
    hide RunBoth, RunOf, SeenByRun, CanJoin;
    var books, es := BookRun(run), BookEvents(run, events);
    forall i | 0 <= i < |es| ensures NowRuns.Happens(books[i], es[i], books[i + 1]) {
      assert Happens(run[i], events[i], run[i + 1]);
      match events[i]
      case Joins(o, total) =>
      case Runs(now, uplift, weeks, allowed, closes) => BooksOfRun(run[i], now, uplift, weeks, allowed, closes);
    }
  }

  /* ----- What is booked for an affiliate's binary ----- */

  function BinaryTotal(os: seq<Obligation>, a: int): int {
    if os == [] then 0
    else
      var o := os[|os| - 1];
      BinaryTotal(os[..|os| - 1], a) + if o.ref.BinaryRef? && o.ref.affiliate == a then o.entitlement else 0
  }

  function GrantTotal(grants: seq<Allocation>, a: int): int {
    if grants == [] then 0
    else
      var g := grants[|grants| - 1];
      GrantTotal(grants[..|grants| - 1], a) + if g.affiliate == a then g.entitlement else 0
  }

  function BookedFor(b: Books, a: int): int { BinaryTotal(b.acc.ledger.obligations, a) }

  lemma {:induction false} TotalAppend(os: seq<Obligation>, more: seq<Obligation>, a: int)
    ensures BinaryTotal(os + more, a) == BinaryTotal(os, a) + BinaryTotal(more, a)
    decreases |more|
  {
    if more == [] {
      assert os + more == os;
    } else {
      assert (os + more)[..|os + more| - 1] == os + more[..|more| - 1];
      TotalAppend(os, more[..|more| - 1], a);
    }
  }

  lemma {:induction false} GrantAppend(gs: seq<Allocation>, more: seq<Allocation>, a: int)
    ensures GrantTotal(gs + more, a) == GrantTotal(gs, a) + GrantTotal(more, a)
    decreases |more|
  {
    if more == [] {
      assert gs + more == gs;
    } else {
      assert (gs + more)[..|gs + more| - 1] == gs + more[..|more| - 1];
      GrantAppend(gs, more[..|more| - 1], a);
    }
  }

  // Neither payments nor exclusions change what an obligation is and for how much.
  ghost predicate SameTerms(os: seq<Obligation>, os': seq<Obligation>) {
    |os| == |os'| && forall i :: 0 <= i < |os| ==> os[i].ref == os'[i].ref && os[i].entitlement == os'[i].entitlement
  }

  lemma {:induction false} SameTotal(os: seq<Obligation>, os': seq<Obligation>, a: int)
    requires SameTerms(os, os')
    ensures BinaryTotal(os, a) == BinaryTotal(os', a)
    decreases |os|
  {
    if os != [] { SameTotal(os[..|os| - 1], os'[..|os'| - 1], a); }
  }

  lemma {:induction false} PayAllKeepsTerms(l: Ledger, ids: seq<nat>, theta: int, end: int)
    ensures SameTerms(l.obligations, PayAll(l, ids, theta, end).obligations)
    decreases |ids|
  {
    if ids != [] && ids[0] < |l.obligations| && l.obligations[ids[0]].pkg in l.caps {
      PayAllKeepsTerms(PayEntry(l, ids[0], theta, end), ids[1..], theta, end);
      EntryKeepsTerms(l, ids[0], theta, end);
      hide PayEntry;
    }
  }

  lemma {:induction false} EntryKeepsTerms(l: Ledger, id: nat, theta: int, end: int)
    requires id < |l.obligations| && l.obligations[id].pkg in l.caps
    ensures SameTerms(l.obligations, PayEntry(l, id, theta, end).obligations)
  {
    hide Share, Overhang, Clip;
  }

  lemma {:induction false} NoBinaryTotal(os: seq<Obligation>, a: int)
    requires forall i :: 0 <= i < |os| ==> !os[i].ref.BinaryRef?
    ensures BinaryTotal(os, a) == 0
    decreases |os|
  {
    if os != [] { NoBinaryTotal(os[..|os| - 1], a); }
  }

  lemma {:induction false} DuesAreOfSales(u: Universe, orders: seq<Order>, period: int, start: int, end: int)
    requires BuyersKnown(u, orders, start, end)
    ensures forall i :: 0 <= i < |Dues(u, orders, period, start, end)| ==>
              Dues(u, orders, period, start, end)[i].ref.SaleRef?
  {
    if orders != [] { DuesAreOfSales(u, orders[..|orders| - 1], period, start, end); }
    hide InWeek;
  }

  lemma {:induction false} GrantsAreBooked(l: Ledger, period: int, grants: seq<Allocation>, a: int)
    requires forall i :: 0 <= i < |grants| ==> grants[i].pkg in l.caps && 0 <= grants[i].entitlement
    ensures BinaryTotal(BinaryDues(l, period, grants), a) == GrantTotal(grants, a)
  {
    if grants != [] {
      var g, init := grants[|grants| - 1], grants[..|grants| - 1];
      GrantsAreBooked(l, period, init, a);
      var due := if g.entitlement > 0 then [BinaryDue(l, period, g)] else [];
      OneDue(l, period, g, a);
      TotalAppend(BinaryDues(l, period, init), due, a);
      assert due == [] ==> BinaryDues(l, period, init) + [] == BinaryDues(l, period, init);
      hide BinaryDue;
    }
  }

  lemma {:induction false} OneDue(l: Ledger, period: int, g: Allocation, a: int)
    requires g.pkg in l.caps
    ensures BinaryTotal([BinaryDue(l, period, g)], a) == if g.affiliate == a then g.entitlement else 0
  {
    assert [BinaryDue(l, period, g)][..0] == [];
  }

  // A week books exactly what it was granted.
  lemma {:induction false} CloseBooksGrants(b: Books, u: Universe, start: int, end: int, a: int)
    requires UniverseFits(b, u, start, end)
    ensures BookedFor(CloseWeek(b, u, start, end), a) == BookedFor(b, a) + GrantTotal(u.allocations, a)
  {
    var l := b.acc.ledger;
    var dues := Dues(u, b.orders, |b.closed|, start, end);
    var l1 := WithDues(b, u, start, end);
    var owed := WithBinary(l1, |b.closed|, u);
    DuesAreOfSales(u, b.orders, |b.closed|, start, end);
    hide Dues, BinaryDues, BinaryTotal, GrantTotal, OwnersFit, BuyersKnown, PayAll, Record;
    NoBinaryTotal(dues, a);
    TotalAppend(l.obligations, dues, a);
    GrantsAreBooked(l1, |b.closed|, u.allocations, a);
    TotalAppend(l1.obligations, BinaryDues(l1, |b.closed|, u.allocations), a);
    PayAllKeepsTerms(owed, PayableFrom(owed, 0), ClosingTheta(b.orders, owed, end), end);
    SameTotal(owed.obligations, PayOut(b.orders, owed, end).obligations, a);
  }

  lemma {:induction false} AccrualBooksNone(acc: Accruals, o: Order, uplift: set<(int, int)>, a: int)
    requires Fresh(acc, o)
    ensures BinaryTotal(AccrueDay(acc, o, uplift).ledger.obligations, a) == BinaryTotal(acc.ledger.obligations, a)
  {
    var s, entry := StateOf(acc, o), Entry(acc, o, uplift);
    var roi := Open(RoiRef(o.cd, s.day + 1), Roi, o.pkg, entry.amount, entry.amount - entry.credit);
    var l, l' := acc.ledger, AccrueDay(acc, o, uplift).ledger;
    hide StateOf, Entry, Clip, HasRef, BinaryTotal, Target;
    if entry.amount > 0 {
      NoBinaryTotal([roi], a);
      TotalAppend(l.obligations, [roi], a);
      SameTotal(l.obligations + [roi], l'.obligations, a);
    }
  }

  lemma {:induction false} AccrualsBookNone(
      acc: Accruals, orders: seq<Order>, uplift: set<(int, int)>, cutoff: int, n: nat, a: int)
    ensures BinaryTotal(AccrueN(acc, orders, uplift, cutoff, n).ledger.obligations, a) ==
            BinaryTotal(acc.ledger.obligations, a)
    decreases n
  {
    hide AccrueDay, Fresh, BinaryTotal;
    var k := FirstDue(acc, orders, cutoff);
    if n > 0 && k < |orders| && Fresh(acc, orders[k]) {
      AccrualBooksNone(acc, orders[k], uplift, a);
      AccrualsBookNone(AccrueDay(acc, orders[k], uplift), orders, uplift, cutoff, n - 1, a);
    }
  }

  /* ----- What is granted follows the blocks ----- */

  // Between 9.70 and 49.50 dollars a block, whatever the founder flag was.
  ghost predicate Priced(cents: int, blocks: int) { 0 <= blocks && 970 * blocks <= cents <= 4_950 * blocks }

  lemma {:induction false} PreviewIsPriced(req: B.PreviewRequest)
    requires B.PreviewSpec(req).Ok?
    ensures var p := B.PreviewSpec(req).value;
            && p.newBlocks == p.matchedBlocks - req.claimedBlocks && Priced(p.entitlementCents, p.newBlocks)
  {
    hide B.PreviewSpec, BlockPricing.ProviderOnly, BlockPricing.Conserves;
    G.NewBlocksPay(req);
    BlockPricing.PreviewConserves(req);
    NewBlocksAre(req);
  }

  lemma {:induction false} NewBlocksAre(req: B.PreviewRequest)
    requires B.PreviewSpec(req).Ok?
    ensures B.PreviewSpec(req).value.newBlocks == B.PreviewSpec(req).value.matchedBlocks - req.claimedBlocks
  {
    hide B.WellFormed, B.HashAt, B.Matched, B.Blocks;
  }

  lemma {:induction false} OneGrant(s: G.State, end: int, c: G.Candidate, a: int)
    requires B.PreviewSpec(G.RequestOf(s, end, c)).Ok?
    ensures var p := B.PreviewSpec(G.RequestOf(s, end, c)).value;
            var (s', grant) := G.Granted(s, c, p);
            Priced(GrantTotal(grant, a), G.ClaimOf(s', a).blocks - G.ClaimOf(s, a).blocks)
  {
    hide B.PreviewSpec, G.RowsFor;
    PreviewIsPriced(G.RequestOf(s, end, c));
    var grant := G.Granted(s, c, B.PreviewSpec(G.RequestOf(s, end, c)).value).1;
    assert grant != [] ==> grant[..0] == [];
  }

  lemma {:induction false} GrantsFollowBlocks(s: G.State, end: int, cs: seq<G.Candidate>, a: int)
    requires G.GrantAll(s, end, cs).Ok?
    ensures var (s', grants) := G.GrantAll(s, end, cs).value;
            Priced(GrantTotal(grants, a), G.ClaimOf(s', a).blocks - G.ClaimOf(s, a).blocks)
  {
    hide B.PreviewSpec, G.RequestOf, G.Granted, GrantTotal, G.ClaimOf;
    if cs == [] {
      assert GrantTotal([], a) == 0 by { NoGrants(a); }
    } else {
      var init, c := cs[..|cs| - 1], cs[|cs| - 1];
      GrantsFollowBlocks(s, end, init, a);
      var (s1, grants) := G.GrantAll(s, end, init).value;
      var p := B.PreviewSpec(G.RequestOf(s1, end, c)).value;
      OneGrant(s1, end, c, a);
      GrantAppend(grants, G.Granted(s1, c, p).1, a);
    }
  }

  lemma {:induction false} NoGrants(a: int)
    ensures GrantTotal([], a) == 0
  {
  }

  /* ----- Together ----- */

  ghost predicate PricedFor(both: Both, a: int) {
    Priced(BookedFor(both.books, a), G.ClaimOf(both.binary, a).blocks)
  }

  ghost predicate JointInv(both: Both) { G.AllSettled(both.binary) && forall a :: PricedFor(both, a) }

  lemma {:induction false} WeekBooks(both: Both, w: WeekInput, start: int, a: int)
    requires CloseOne(both, w, start).Some?
    ensures var after, grants := CloseOne(both, w, start).value, Granted(w, both.binary).allocations;
            && BookedFor(after.books, a) == BookedFor(both.books, a) + GrantTotal(grants, a)
            && Priced(GrantTotal(grants, a), G.ClaimOf(after.binary, a).blocks - G.ClaimOf(both.binary, a).blocks)
  {
    hide CloseWeek, UniverseFits, G.GrantAll, BookedFor, GrantTotal, G.ClaimOf, Priced;
    CloseBooksGrants(both.books, Granted(w, both.binary), start, start + WEEK, a);
    GrantsFollowBlocks(both.binary, w.asOf, w.candidates, a);
  }

  /**
   * A week that is closed books for every affiliate exactly what the allocator granted, and
   * leaves every affiliate it considered with the pieces of one claim over this week's legs.
   */
  lemma {:induction false} WeekTogether(both: Both, w: WeekInput, start: int)
    requires JointInv(both) && G.Ascends(w.candidates) && CloseOne(both, w, start).Some?
    ensures var after := CloseOne(both, w, start).value;
            && JointInv(after)
            && G.WeekPaid(both.binary, after.binary, w.candidates)
            && forall a :: BookedFor(after.books, a) ==
                           BookedFor(both.books, a) + GrantTotal(Granted(w, both.binary).allocations, a)
  {
    hide CloseWeek, UniverseFits, BookedFor, GrantTotal, G.GrantAll, G.WeekPaid, G.AllSettled, G.ClaimOf, G.Ascends;
    ClaimsOfWeek(both, w, start);
    var after := CloseOne(both, w, start).value;
    hide CloseOne, Granted;
    forall a
      ensures BookedFor(after.books, a) ==
              BookedFor(both.books, a) + GrantTotal(Granted(w, both.binary).allocations, a)
      ensures PricedFor(after, a)
    {
      WeekBooks(both, w, start, a);
      assert PricedFor(both, a);
    }
  }

  lemma {:induction false} ClaimsOfWeek(both: Both, w: WeekInput, start: int)
    requires G.AllSettled(both.binary) && G.Ascends(w.candidates) && CloseOne(both, w, start).Some?
    ensures var after := CloseOne(both, w, start).value;
            G.AllSettled(after.binary) && G.WeekPaid(both.binary, after.binary, w.candidates)
  {
    hide CloseWeek, UniverseFits, G.GrantAll, G.WeekPaid, G.AllSettled, G.Ascends;
    G.WeekSettles(both.binary, w.asOf, w.candidates);
  }

  lemma {:induction false} CloseAllKeeps(both: Both, start: int, now: int, weeks: seq<WeekInput>, n: nat)
    requires JointInv(both) && forall i :: 0 <= i < |weeks| ==> G.Ascends(weeks[i].candidates)
    requires CloseAll(both, start, now, weeks, n).Some?
    ensures JointInv(CloseAll(both, start, now, weeks, n).value)
    decreases n
  {
    hide JointInv, CloseOne, G.Ascends;
    if n > 0 && weeks != [] && start + WEEK + GRACE <= now {
      WeekTogether(both, weeks[0], start);
      assert forall i :: 0 <= i < |weeks| - 1 ==> weeks[1..][i] == weeks[i + 1];
      CloseAllKeeps(CloseOne(both, weeks[0], start).value, start + WEEK, now, weeks[1..], n - 1);
    }
  }

  lemma {:induction false} SameBooked(both: Both, after: Both)
    requires JointInv(both) && after.binary == both.binary
    requires forall a :: BookedFor(after.books, a) == BookedFor(both.books, a)
    ensures JointInv(after)
  {
    hide BookedFor, G.AllSettled, G.ClaimOf;
    forall a ensures PricedFor(after, a) { assert PricedFor(both, a); }
  }

  lemma {:induction false} EventKeeps(both: Both, e: Event, after: Both)
    requires JointInv(both) && InOrder(e) && Happens(both, e, after)
    ensures JointInv(after)
  {
    hide JointInv, AccrueN, Backlog, DailyCutoff, CloseAll, FirstWeek, CanJoin, AnyFrozen;
    var b := both.books;
    match e
    case Joins(o, total) => SameBooked(both, after);
    case Runs(now, uplift, weeks, allowed, closes) =>
      if !AnyFrozen(b.orders) && b.orders != [] {
        var n := Min(MAX_ACCRUALS, allowed);
        var accrued := both.(books := b.(acc := AccrueN(b.acc, b.orders, uplift, DailyCutoff(now), n)));
        forall a ensures BookedFor(accrued.books, a) == BookedFor(b, a) {
          AccrualsBookNone(b.acc, b.orders, uplift, DailyCutoff(now), n, a);
        }
        SameBooked(both, accrued);
        hide BookedFor;
        if CloseAll(accrued, FirstWeek(b), now, weeks, Min(closes, MAX_CLOSES)).Some? {
          CloseAllKeeps(accrued, FirstWeek(b), now, weeks, Min(closes, MAX_CLOSES));
        }
      }
  }

  lemma {:induction false} EmptyIsJoint()
    ensures JointInv(Both(EMPTY, G.NOTHING))
  {
    forall a ensures G.Settled(G.NOTHING, a) && PricedFor(Both(EMPTY, G.NOTHING), a) {
      G.NothingSettled(a);
    }
    hide G.Settled;
  }

  /**
   * At every moment of every history of the engine with its claims: the books keep their
   * invariant, every affiliate's blocks are paid once, and what is booked for them is between
   * 9.70 and 49.50 dollars for each block its stored claim counts.
   */
  lemma {:induction false} EverythingHoldsTogether(run: seq<Both>, events: seq<Event>, i: nat, a: int)
    requires IsHistory(run, events) && i < |run|
    ensures BooksInv(run[i].books) && G.Settled(run[i].binary, a)
    ensures Priced(BookedFor(run[i].books, a), G.ClaimOf(run[i].binary, a).blocks)
  {
    BooksOfHistory(run, events);
    hide NowRuns.IsHistory, BooksInv, BookEvents;
    HistoryKeepsBooks(BookRun(run), BookEvents(run, events), i);
    JointThroughout(run, events, i);
    assert PricedFor(run[i], a);
    hide G.Settled, BookedFor;
  }

  lemma {:induction false} JointThroughout(run: seq<Both>, events: seq<Event>, i: nat)
    requires IsHistory(run, events) && i < |run|
    ensures JointInv(run[i])
  {
    hide JointInv, Happens, InOrder;
    if i == 0 {
      EmptyIsJoint();
    } else {
      JointThroughout(run, events, i - 1);
      EventKeeps(run[i - 1], events[i - 1], run[i]);
    }
  }
}
