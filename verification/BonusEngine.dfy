/**
 * The bonus engine as it runs: one object whose tables the weekly close and the daily return
 * job rewrite in place.
 */
module BonusEngine {
  import opened Prelude
  import opened PackageCap
  import opened Theta
  import opened CloseCandidates
  import opened ClosePayments
  import opened RankInstalments
  import opened WeekItems
  import opened WeekFits
  import opened WeeklyClose
  import opened DailyReturns

  // All tables, and the most blocks each affiliate ever had matched at a close.
  datatype Books = Books(data: State, closed: map<int, Closed>, cds: map<int, Cd>, peak: map<int, int>)

  const EMPTY := Books(State(map[], map[], map[], [], map[], []), map[], map[], map[])

  ghost predicate BooksSound(b: Books) {
    StateSound(b.data, b.peak) && CreditsKnown(b.data, b.closed, b.cds)
  }

  function RecordOf(p: Plan, s: State, w: Week): Closed
    requires ValidPlan(p) && 0 < w.instalments
  {
    Closed(w.inflows, ProjectedFor(p, s, w), ThetaFor(p, s, w), PaidFor(p, s, w))
  }

  // A period is closed once; closing it again changes nothing.
  function CloseOnce(b: Books, p: Plan, w: Week): Books
    requires ValidPlan(p) && 0 < w.instalments
  {
    if w.period in b.closed then b
    else Books(StateAfter(p, b.data, w), b.closed[w.period := RecordOf(p, b.data, w)], b.cds,
               PeakAfter(b.peak, p, w.ancestors))
  }

  function AccountsOf(b: Books): Accounts { Accounts(b.data.caps, b.data.credits, b.cds) }

  function WithAccounts(b: Books, a: Accounts): Books {
    b.(data := b.data.(caps := a.caps, credits := a.credits), cds := a.cds)
  }

  function RunDay(b: Books, ids: seq<int>, day: Day): Books { WithAccounts(b, AccrueAll(AccountsOf(b), ids, day)) }

  // A new package opens with its whole cap, a new certificate with nothing accrued.
  function OpenPackage(b: Books, pkg: int, total: int): Books {
    if pkg in b.data.caps then b else b.(data := b.data.(caps := b.data.caps[pkg := Cap(total, 0)]))
  }

  function OpenCd(b: Books, id: int, cd: Cd): Books {
    if id in b.cds then b else b.(cds := b.cds[id := cd.(last := None, accrued := 0, status := CdActive)])
  }

  lemma {:induction false} CloseOnceKeeps(b: Books, p: Plan, w: Week)
    requires BooksSound(b) && ValidPlan(p) && ValidWeek(w)
    ensures var after := CloseOnce(b, p, w);
            && BooksSound(after)
            && (w.period !in b.closed ==>
                  && 0 <= after.closed[w.period].paid && after.closed[w.period].paid * CENT <= p.alpha * w.inflows
                  && CreditTotal(after.data.credits) == CreditTotal(b.data.credits) + after.closed[w.period].paid)
  {
    hide StateSound, CreditsKnown, StateAfter, PaidFor, ProjectedFor, ThetaFor, PeakAfter, PeriodNew;
    if w.period !in b.closed {
      KnownMeansNew(b.data, b.closed, b.cds, w.period);
      CloseIsSound(p, b.data, w, b.peak);
      CloseTags(p, b.data, w, b.peak, b.closed, RecordOf(p, b.data, w), b.cds);
    }
  }

  lemma {:induction false} AccountsAre(b: Books)
    requires BooksSound(b)
    ensures AccountsSound(AccountsOf(b), b.closed)
  {
  }

  lemma {:induction false} AccountsKeepBooks(b: Books, a: Accounts)
    requires BooksSound(b) && AccountsSound(a, b.closed)
    ensures BooksSound(WithAccounts(b, a))
  {
    hide CapsSound, BlocksWithin, InstalmentsSound, BonusesSound, CreditKnown;
    var after := WithAccounts(b, a);
    assert BonusesSound(after.data) by { SameBonuses(b.data, after.data); }
  }

  lemma {:induction false} SameBonuses(s: State, s': State)
    requires BonusesSound(s) && s'.instalments == s.instalments && s'.achieved == s.achieved
    ensures BonusesSound(s')
  {
  }

  lemma {:induction false} RunDayKeeps(b: Books, ids: seq<int>, day: Day)
    requires BooksSound(b)
    ensures var after := RunDay(b, ids, day);
            && BooksSound(after) && 0 <= TotalPaid(AccountsOf(b), ids, day)
            && CreditTotal(after.data.credits) == CreditTotal(b.data.credits) + TotalPaid(AccountsOf(b), ids, day)
            && after.closed == b.closed && after.peak == b.peak
  {
    hide BooksSound, AccrueAll, TotalPaid, AccountsSound;
    AccountsAre(b);
    JobKeepsSound(AccountsOf(b), ids, day, b.closed);
    AccountsKeepBooks(b, AccrueAll(AccountsOf(b), ids, day));
  }

  lemma {:induction false} OpenPackageKeeps(b: Books, pkg: int, total: int)
    requires BooksSound(b) && 0 <= total
    ensures BooksSound(OpenPackage(b, pkg, total))
  {
    hide BlocksWithin, InstalmentsSound, BonusesSound, CreditKnown;
    SameBonuses(b.data, OpenPackage(b, pkg, total).data);
  }

  lemma {:induction false} OpenCdKeeps(b: Books, id: int, cd: Cd)
    requires BooksSound(b)
    ensures BooksSound(OpenCd(b, id, cd))
  {
    var after := OpenCd(b, id, cd);
    forall j | 0 <= j < |b.data.credits| ensures CreditKnown(after.closed, after.cds, after.data.credits[j]) {
      assert CreditKnown(b.closed, b.cds, b.data.credits[j]);
    }
    hide StateSound;
  }

  class Engine {
    var caps: map<int, Cap>
    var blocks: map<int, int>
    var points: map<int, int>
    var instalments: seq<Instalment>
    var achieved: map<(int, int), int>
    var credits: seq<Credit>
    var closed: map<int, Closed>
    var cds: map<int, Cd>
    ghost var peak: map<int, int>

    function Data(): State
      reads this
    {
      State(caps, blocks, points, instalments, achieved, credits)
    }

    ghost function Snapshot(): Books
      reads this
    {
      Books(Data(), closed, cds, peak)
    }

    ghost predicate Valid()
      reads this
    {
      BooksSound(Snapshot())
    }

    constructor ()
      ensures Valid() && Snapshot() == EMPTY
    {
      caps, blocks, points, instalments, achieved, credits := map[], map[], map[], [], map[], [];
      closed, cds, peak := map[], map[], map[];
    }

    method AddPackage(pkg: int, total: int)
      requires Valid() && 0 <= total
      modifies `caps
      ensures Valid() && Snapshot() == OpenPackage(old(Snapshot()), pkg, total)
      ensures caps == if pkg in old(caps) then old(caps) else old(caps)[pkg := Cap(total, 0)]
    {
      OpenPackageKeeps(Snapshot(), pkg, total);
      if pkg !in caps { caps := caps[pkg := Cap(total, 0)]; }
    }

    method AddCd(id: int, cd: Cd)
      requires Valid()
      modifies `cds
      ensures Valid() && Snapshot() == OpenCd(old(Snapshot()), id, cd)
      ensures cds == if id in old(cds) then old(cds)
                     else old(cds)[id := cd.(last := None, accrued := 0, status := CdActive)]
    {
      OpenCdKeeps(Snapshot(), id, cd);
      if id !in cds { cds := cds[id := cd.(last := None, accrued := 0, status := CdActive)]; }
    }

    // Reached ranks are recorded and their instalments written.
    method PromoteRanks(w: Week)
      requires 0 < w.instalments
      modifies `instalments, `achieved
      ensures Data() == Promoted(old(Data()), w)
    {
      ghost var was := Data();
      for i := 0 to |w.promotions|
        invariant Data() == PromoteAll(was, w.promotions[..i], w.instalments, w.cadence, w.end)
      {
        var p := w.promotions[i];
        assert w.promotions[..i + 1][..i] == w.promotions[..i] && w.promotions[..i + 1][i] == p;
        if (p.affiliate, p.rank) !in achieved {
          var rows := WriteInstalments(p, w.instalments, w.cadence, w.end);
          achieved := achieved[(p.affiliate, p.rank) := p.bonus];
          instalments := instalments + rows;
        }
      }
      assert w.promotions[..|w.promotions|] == w.promotions;
    }

    method DueInstalments(end: int) returns (items: seq<Item>)
      ensures items == DueItems(instalments, end, |instalments|)
    {
      items := [];
      for n := 0 to |instalments|
        invariant items == DueItems(instalments, end, n)
      {
        var row := instalments[n];
        if row.paid.None? && row.due <= end { items := items + [RankItem(n, row.affiliate, row.amount)]; }
      }
    }

    method PointEntries(p: Plan, rows: seq<PointRow>, cs: seq<Candidate>) returns (items: seq<Item>)
      ensures items == PointItems(p, rows, caps, cs)
    {
      hide PeriodCap;
      items := [];
      for i := 0 to |rows|
        invariant items == PointItems(p, rows[..i], caps, cs)
      {
        var r := rows[i];
        assert rows[..i + 1][..i] == rows[..i] && rows[..i + 1][i] == r;
        if r.pkg == 0 { continue; }
        var gross := r.points * p.dollarsPerPoint / 100 * CENT;
        var room := Max(0, PeriodCap(p, r.pkgAmount, r.rankBonus) - BinaryGross(cs, r.affiliate));
        if gross > room { gross := room; }
        if gross > PackageRoom(caps, r.pkg) * CENT { gross := PackageRoom(caps, r.pkg) * CENT; }
        if gross <= 0 { continue; }
        items := items + [PointsItem(r.affiliate, gross, r.pkg)];
      }
      assert rows[..|rows|] == rows;
    }

    method PayItem(k: Close, i: Item) returns (net: int)
      modifies `caps, `blocks, `points, `instalments, `credits
      ensures Data() == Book(old(Data()), k, i) && net == Pays(old(Data()), k, i)
      ensures if 0 < net && !exists j :: 0 <= j < |old(credits)| && old(credits)[j].ref == RefOf(k, i)
                                         && 0 < old(credits)[j].usd
              then |credits| == |old(credits)| + 1 && credits[..|old(credits)|] == old(credits)
                   && Writes(credits[|old(credits)|], k, i, net)
              else credits == old(credits)
    {
      hide NetOf, CreditOf, RefOf, AlreadyCredited, Reduced, Writes;
      BookWrites(Data(), k, i);
      net := Pays(Data(), k, i);
      var first := !AlreadyCredited(Data(), RefOf(k, i));
      match i
      case BinaryItem(c) =>
        if net == 0 { return; }
        if first { credits := credits + [CreditOf(k, i, net)]; }
        blocks := blocks[c.affiliate := BlocksPaid(blocks, c.affiliate) + c.blocks];
        caps := Charge(caps, c.pkg, net);
      case StreamItem(_, _, _, _) =>
        if 0 < net && first { credits := credits + [CreditOf(k, i, net)]; }
      case PointsItem(affiliate, _, pkg) =>
        if net == 0 { return; }
        if first { credits := credits + [CreditOf(k, i, net)]; }
        caps := Charge(caps, pkg, net);
        points := points[affiliate := 0];
      case RankItem(index, _, _) =>
        if 0 < net && first { credits := credits + [CreditOf(k, i, net)]; }
        if index < |instalments| { instalments := instalments[index := instalments[index].(paid := Some(net))]; }
    }

    // The payment loops, one stream after the other at the same theta.
    method PayAll(k: Close, items: seq<Item>) returns (total: int)
      modifies `caps, `blocks, `points, `instalments, `credits
      ensures Data() == BookAll(old(Data()), k, items) && total == TotalPays(old(Data()), k, items)
    {
      hide Book, Pays;
      ghost var was := Data();
      total := 0;
      assert items[0..] == items;
      for i := 0 to |items|
        invariant BookAll(Data(), k, items[i..]) == BookAll(was, k, items)
        invariant total + TotalPays(Data(), k, items[i..]) == TotalPays(was, k, items)
      {
        assert items[i..][0] == items[i] && items[i..][1..] == items[i + 1..];
        var net := PayItem(k, items[i]);
        total := total + net;
      }
      assert items[|items|..] == [];
    }

    method AccruePoints(p: Plan, cs: seq<Candidate>, theta: int)
      modifies `points
      ensures points == AccruedPoints(old(points), p, cs, theta)
    {
      ghost var was := points;
      for i := 0 to |cs|
        invariant points == AccruedPoints(was, p, cs[..i], theta)
      {
        var c := cs[i];
        assert cs[..i + 1][..i] == cs[..i] && cs[..i + 1][i] == c;
        var effective := c.blocks * theta / ONE;
        if effective <= 0 { continue; }
        points := points[c.affiliate := (if c.affiliate in points then points[c.affiliate] else 0)
            + effective * p.pointsPerBlock];
      }
      assert cs[..|cs|] == cs;
    }

    /**
     * Closes a week once. What is paid, before the returns of the week are added to the
     * report, stays within alpha of the inflows and equals the credits written.
     */
    method ClosePeriod(p: Plan, w: Week) returns (ran: bool)
      requires Valid() && ValidPlan(p) && ValidWeek(w)
      modifies this
      ensures Valid() && ran == (w.period !in old(closed))
      ensures Snapshot() == CloseOnce(old(Snapshot()), p, w)
      ensures ran ==> closed[w.period].paid * CENT <= p.alpha * w.inflows
      ensures ran ==> CreditTotal(credits) == old(CreditTotal(credits)) + closed[w.period].paid
    {
      hide StateSound, CreditsKnown, CandidatesOf, Promoted, DueItems, PointItems, Streams, Binaries, BookAll,
        TotalPays;
      hide ComputeTheta, AccruedPoints, PeakAfter, CreditTotal, PeriodNew;
      CloseOnceKeeps(Snapshot(), p, w);
      if w.period in closed { return false; }
      ghost var was := Data();
      var candidates := EnumerateCandidates(p, w.ancestors, caps, blocks, w.cutoff);
      var pointItems := PointEntries(p, w.pointRows, candidates);
      PromoteRanks(w);
      var due := DueInstalments(w.end);
      var items := Binaries(candidates) + (Streams(Yield, w.yieldShares) + (pointItems
                   + (due + (Streams(Referral, w.referrals) + Streams(RoyaltyBonus, w.royalties)))));
      assert items == Items(p, was, w);
      var projected := Sum(Grosses(items));
      var theta := ComputeTheta(p.alpha * w.inflows, projected);
      var k := Close(p, w.period, theta, w.routing);
      assert k == CloseOf(p, was, w);
      var paid := PayAll(k, items);
      if p.pointsEnabled { AccruePoints(p, candidates, theta); }
      assert Data() == StateAfter(p, was, w) && paid == PaidFor(p, was, w);
      closed := closed[w.period := Closed(w.inflows, projected, theta, paid)];
      peak := PeakAfter(peak, p, w.ancestors);
      return true;
    }

    /* ----- Daily returns ----- */

    // Writes the credit unless its reference exists already.
    method PostCredit(ref: PayRef, affiliate: int, amount: int) returns (posted: bool)
      modifies `credits
      ensures posted == !Used(old(credits), ref)
      ensures credits == if posted then old(credits) + [Credit(ref, affiliate, amount, 0)] else old(credits)
    {
      if exists j :: 0 <= j < |credits| && credits[j].ref == ref { return false; }
      credits := credits + [Credit(ref, affiliate, amount, 0)];
      return true;
    }

    // One active certificate: limited by its package, posted once, matured at its date.
    method AccrueCd(id: int, day: Day) returns (posted: int)
      requires Accrues(Tables(), id)
      modifies `caps, `credits, `cds
      ensures Tables() == Step(old(Tables()), id, day) && posted == Paid(old(Tables()), id, day)
    {
      hide CdEarned, Used;
      ghost var was := Tables();
      var cd := cds[id];
      var cutoff := CdCutoff(cd, day.today);
      var gross := CdEarned(cd, day.today, id in day.qualifying);
      if cd.pkg != 0 && gross > 0 {
        if cd.pkg !in caps {
          gross := 0;
        } else {
          var remaining := caps[cd.pkg].total - caps[cd.pkg].paid;
          if remaining <= 0 { gross := 0; } else if gross > remaining { gross := remaining; }
        }
      }
      assert 0 < gross ==> gross == CdCredit(caps, cd, CdEarned(cd, day.today, id in day.qualifying));
      posted := 0;
      if gross > 0 {
        var done := PostCredit(DayRef(id, cutoff), Beneficiary(day.route, cd.affiliate), gross);
        if done {
          posted := gross;
          if cd.pkg != 0 { caps := Charge(caps, cd.pkg, gross); }
          cds := cds[id := cd.(last := Some(cutoff), accrued := cd.accrued + gross)];
        }
      }
      assert Tables() == Pay(was, id, day);
      if cd.matures <= day.today { cds := cds[id := cds[id].(status := CdMatured)]; }
    }

    function Tables(): Accounts
      reads this
    {
      Accounts(caps, credits, cds)
    }

    /** The daily job over the active certificates, sharing the caps with the weekly close. */
    method AccrueCdRoi(ids: seq<int>, day: Day) returns (total: int)
      requires Valid()
      modifies `caps, `credits, `cds
      ensures Valid() && Snapshot() == RunDay(old(Snapshot()), ids, day)
      ensures total == TotalPaid(old(Tables()), ids, day)
      ensures CreditTotal(credits) == old(CreditTotal(credits)) + total
    {
      hide BooksSound, Step, Paid, CreditTotal;
      RunDayKeeps(Snapshot(), ids, day);
      ghost var was := Tables();
      total := 0;
      assert ids[0..] == ids;
      for n := 0 to |ids|
        invariant AccrueAll(Tables(), ids[n..], day) == AccrueAll(was, ids, day)
        invariant total + TotalPaid(Tables(), ids[n..], day) == TotalPaid(was, ids, day)
      {
        assert ids[n..][0] == ids[n] && ids[n..][1..] == ids[n + 1..];
        SkipIdle(Tables(), ids[n], day);
        if ids[n] in cds && cds[ids[n]].status == CdActive {
          var posted := AccrueCd(ids[n], day);
          total := total + posted;
        }
      }
      assert ids[|ids|..] == [];
    }
  }

  lemma {:induction false} SkipIdle(a: Accounts, id: int, day: Day)
    ensures !Accrues(a, id) ==> Step(a, id, day) == a && Paid(a, id, day) == 0
  {
  }
}
