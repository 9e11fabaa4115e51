/**
 * Daily returns on investment certificates: paid per day passed, limited by the package cap
 * they share with the weekly close, each certificate and day at most once.
 */
module DailyReturns {
  import opened Prelude
  import opened PackageCap
  import opened ClosePayments
  import opened WeeklyClose

  function CdCutoff(cd: Cd, today: int): int { Min(today, cd.matures) }

  function CdLast(cd: Cd): int { if cd.last.Some? then cd.last.value else cd.start }

  // Whole cents earned since the last accrual.
  function CdEarned(cd: Cd, today: int, qualifies: bool): int {
    var days := CdCutoff(cd, today) - CdLast(cd);
    if days <= 0 then 0
    else cd.principal * (if qualifies then cd.qualifiedRate else cd.baseRate) * days / (365 * 10_000)
  }

  // What the package still takes; a certificate without a package is not limited.
  function CdCredit(caps: map<int, Cap>, cd: Cd, earned: int): int {
    if cd.pkg != 0 && 0 < earned then
        Max(0, Min(earned, if cd.pkg in caps then caps[cd.pkg].total - caps[cd.pkg].paid else 0))
    else earned
  }

  // The tables the job rewrites.
  datatype Accounts = Accounts(caps: map<int, Cap>, credits: seq<Credit>, cds: map<int, Cd>)

  // What one run of the job sees besides them: the day, who earns the higher rate, and who
  // receives for a blocked member.
  datatype Day = Day(today: int, qualifying: set<int>, route: map<int, int>)

  function DayRef(id: int, cutoff: int): PayRef { PayRef(DailyReturn, id, cutoff, 0) }

  predicate Used(credits: seq<Credit>, ref: PayRef) { exists j :: 0 <= j < |credits| && credits[j].ref == ref }

  function AmountDue(a: Accounts, id: int, day: Day): int
    requires id in a.cds
  {
    var cd := a.cds[id];
    var amount := CdCredit(a.caps, cd, CdEarned(cd, day.today, id in day.qualifying));
    if amount <= 0 || Used(a.credits, DayRef(id, CdCutoff(cd, day.today))) then 0 else amount
  }

  // Credit, package and certificate move together.
  function Post(a: Accounts, id: int, day: Day, amount: int): Accounts
    requires id in a.cds
  {
    var cd := a.cds[id];
    var cutoff := CdCutoff(cd, day.today);
    Accounts(if cd.pkg != 0 then Charge(a.caps, cd.pkg, amount) else a.caps,
             a.credits + [Credit(DayRef(id, cutoff), Beneficiary(day.route, cd.affiliate), amount, 0)],
             a.cds[id := cd.(last := Some(cutoff), accrued := cd.accrued + amount)])
  }

  function Mature(a: Accounts, id: int, day: Day): Accounts
    requires id in a.cds
  {
    if a.cds[id].matures <= day.today then a.(cds := a.cds[id := a.cds[id].(status := CdMatured)]) else a
  }

  predicate Accrues(a: Accounts, id: int) { id in a.cds && a.cds[id].status == CdActive }

  function Pay(a: Accounts, id: int, day: Day): Accounts
    requires id in a.cds
  {
    if 0 < AmountDue(a, id, day) then Post(a, id, day, AmountDue(a, id, day)) else a
  }

  // One certificate on one day.
  function Step(a: Accounts, id: int, day: Day): Accounts {
    if Accrues(a, id) then Mature(Pay(a, id, day), id, day) else a
  }

  function Paid(a: Accounts, id: int, day: Day): int { if Accrues(a, id) then AmountDue(a, id, day) else 0 }

  function AccrueAll(a: Accounts, ids: seq<int>, day: Day): Accounts
    decreases |ids|
  {
    if ids == [] then a else AccrueAll(Step(a, ids[0], day), ids[1..], day)
  }

  function TotalPaid(a: Accounts, ids: seq<int>, day: Day): int
    decreases |ids|
  {
    if ids == [] then 0 else Paid(a, ids[0], day) + TotalPaid(Step(a, ids[0], day), ids[1..], day)
  }

  /* ----- Caps and credits ----- */

  // A posted return stays within what was earned and what the package still takes.
  lemma {:induction false} DueFits(a: Accounts, id: int, day: Day)
    requires CapsSound(a.caps) && id in a.cds
    ensures var cd, due := a.cds[id], AmountDue(a, id, day);
            && 0 <= due
            && (0 < due ==>
                  due <= CdEarned(cd, day.today, id in day.qualifying) && CdLast(cd) < CdCutoff(cd, day.today))
            && (0 < due && cd.pkg != 0 ==> cd.pkg in a.caps && due <= a.caps[cd.pkg].total - a.caps[cd.pkg].paid)
  {
    hide Used;
  }

  /**
   * What a certificate is due on a day: principal times its rate, for the days passed since its
   * last accrual or its start and no later than its maturity, in whole cents; a certificate with
   * a package no more than the package has left, and none of it twice for one day.
   */
  lemma {:induction false} DueIs(a: Accounts, id: int, day: Day)
    requires id in a.cds
    ensures var cd, due := a.cds[id], AmountDue(a, id, day);
            var until := if day.today <= cd.matures then day.today else cd.matures;
            var days := until - (if cd.last.Some? then cd.last.value else cd.start);
            var rate := if id in day.qualifying then cd.qualifiedRate else cd.baseRate;
            var earned := if days <= 0 then 0 else cd.principal * rate * days / 3_650_000;
            var room := if cd.pkg !in a.caps then 0 else a.caps[cd.pkg].total - a.caps[cd.pkg].paid;
            if earned <= 0
               || exists j :: 0 <= j < |a.credits| && a.credits[j].ref == PayRef(DailyReturn, id, until, 0)
            then due == 0
            else if cd.pkg == 0 || earned <= room then due == earned
            else due == if 0 < room then room else 0
  {
  }

  /**
   * One day of one certificate: what is due is credited to the member's wallet, or to whoever
   * stands in, charged to the package, and added to the certificate; at maturity it ends.
   */
  lemma {:induction false} StepIs(a: Accounts, id: int, day: Day)
    ensures var after := Step(a, id, day);
            if id !in a.cds || a.cds[id].status == CdMatured then after == a && Paid(a, id, day) == 0
            else
              var cd, due := a.cds[id], AmountDue(a, id, day);
              var until := if day.today <= cd.matures then day.today else cd.matures;
              var who := if cd.affiliate in day.route then day.route[cd.affiliate] else cd.affiliate;
              && Paid(a, id, day) == due
              && after.credits == (if 0 < due then a.credits + [Credit(PayRef(DailyReturn, id, until, 0), who, due, 0)]
                                   else a.credits)
              && after.caps == (if 0 < due && cd.pkg != 0 && cd.pkg in a.caps
                                then a.caps[cd.pkg := Cap(a.caps[cd.pkg].total, a.caps[cd.pkg].paid + due)]
                                else a.caps)
              && after.cds == a.cds[id := cd.(
                   last := if 0 < due then Some(until) else cd.last,
                   accrued := if 0 < due then cd.accrued + due else cd.accrued,
                   status := if cd.matures <= day.today then CdMatured else CdActive)]
  {
    hide AmountDue;
  }

  ghost predicate AccountsSound(a: Accounts, closed: map<int, Closed>) {
    CapsSound(a.caps) && forall j :: 0 <= j < |a.credits| ==> CreditKnown(closed, a.cds, a.credits[j])
  }

  lemma {:induction false} PostKeepsSound(a: Accounts, id: int, day: Day, closed: map<int, Closed>)
    requires AccountsSound(a, closed) && id in a.cds && 0 < AmountDue(a, id, day)
    ensures var after := Post(a, id, day, AmountDue(a, id, day));
            && AccountsSound(after, closed) && after.cds.Keys == a.cds.Keys
            && CreditTotal(after.credits) == CreditTotal(a.credits) + AmountDue(a, id, day)
  {
    DueFits(a, id, day);
    hide CdEarned, CdCredit, AmountDue, Used, CdCutoff;
    var after := Post(a, id, day, AmountDue(a, id, day));
    assert after.credits[..|a.credits|] == a.credits;
    forall j | 0 <= j < |after.credits| ensures CreditKnown(closed, after.cds, after.credits[j]) {
      if j < |a.credits| { assert CreditKnown(closed, a.cds, a.credits[j]); }
    }
  }

  lemma {:induction false} MatureKeepsSound(a: Accounts, id: int, day: Day, closed: map<int, Closed>)
    requires AccountsSound(a, closed) && id in a.cds
    ensures var after := Mature(a, id, day);
            && AccountsSound(after, closed) && after.cds.Keys == a.cds.Keys && after.credits == a.credits
            && after.caps == a.caps && forall i :: i in a.cds ==>
               after.cds[i] == a.cds[i].(status := after.cds[i].status)
  {
    var after := Mature(a, id, day);
    forall j | 0 <= j < |after.credits| ensures CreditKnown(closed, after.cds, after.credits[j]) {
      assert CreditKnown(closed, a.cds, a.credits[j]);
    }
  }

  lemma {:induction false} StepKeepsSound(a: Accounts, id: int, day: Day, closed: map<int, Closed>)
    requires AccountsSound(a, closed)
    ensures var after := Step(a, id, day);
            && AccountsSound(after, closed) && after.cds.Keys == a.cds.Keys && 0 <= Paid(a, id, day)
            && CreditTotal(after.credits) == CreditTotal(a.credits) + Paid(a, id, day)
  {
    hide AmountDue, Post, Mature, CapsSound, CreditKnown;
    if Accrues(a, id) {
      DueFits(a, id, day);
      if 0 < AmountDue(a, id, day) { PostKeepsSound(a, id, day, closed); }
      hide AccountsSound;
      MatureKeepsSound(Pay(a, id, day), id, day, closed);
    }
  }

  /**
   * One run of the job: no package above its cap, and the credits written are exactly the
   * total it reports.
   */
  lemma {:induction false} JobKeepsSound(a: Accounts, ids: seq<int>, day: Day, closed: map<int, Closed>)
    requires AccountsSound(a, closed)
    ensures var after := AccrueAll(a, ids, day);
            && AccountsSound(after, closed) && after.cds.Keys == a.cds.Keys && 0 <= TotalPaid(a, ids, day)
            && CreditTotal(after.credits) == CreditTotal(a.credits) + TotalPaid(a, ids, day)
    decreases |ids|
  {
    hide Step, Paid, AccountsSound;
    if ids != [] {
      StepKeepsSound(a, ids[0], day, closed);
      JobKeepsSound(Step(a, ids[0], day), ids[1..], day, closed);
    }
  }

  // A reference of this day can only exist if the certificate has already passed it.
  lemma {:induction false} DayNotUsed(a: Accounts, id: int, day: Day, closed: map<int, Closed>)
    requires AccountsSound(a, closed) && id in a.cds && CdLast(a.cds[id]) < CdCutoff(a.cds[id], day.today)
    ensures !Used(a.credits, DayRef(id, CdCutoff(a.cds[id], day.today)))
  {
    forall j | 0 <= j < |a.credits| ensures a.credits[j].ref != DayRef(id, CdCutoff(a.cds[id], day.today)) {
      assert CreditKnown(closed, a.cds, a.credits[j]);
    }
  }

  // So the uniqueness of references never holds back an earned return.
  lemma {:induction false} DueIsCredit(a: Accounts, id: int, day: Day, closed: map<int, Closed>)
    requires AccountsSound(a, closed) && id in a.cds
    ensures AmountDue(a, id, day) ==
            Max(0, CdCredit(a.caps, a.cds[id], CdEarned(a.cds[id], day.today, id in day.qualifying)))
  {
    if CdLast(a.cds[id]) < CdCutoff(a.cds[id], day.today) {
      DayNotUsed(a, id, day, closed);
    }
    hide AccountsSound, Used;
  }

  /* ----- A second run on the same day ----- */

  // Nothing left to do for a certificate today.
  predicate Quiet(a: Accounts, id: int, day: Day) {
    !Accrues(a, id) || (AmountDue(a, id, day) == 0 && day.today < a.cds[id].matures)
  }

  lemma {:induction false} QuietStays(a: Accounts, id: int, day: Day)
    requires Quiet(a, id, day)
    ensures Step(a, id, day) == a && Paid(a, id, day) == 0
  {
    hide AmountDue;
  }

  lemma {:induction false} StepQuiets(a: Accounts, id: int, day: Day)
    requires CapsSound(a.caps)
    ensures Quiet(Step(a, id, day), id, day)
  {
    if Accrues(a, id) {
      DueFits(a, id, day);
      var paid := Pay(a, id, day);
      if 0 < AmountDue(a, id, day) {
        assert CdEarned(paid.cds[id], day.today, id in day.qualifying) == 0;
      }
      assert AmountDue(paid, id, day) == 0;
      hide Used, CdEarned, CdCredit;
    }
  }

  // Paying one certificate leaves less room for the others, never more.
  lemma {:induction false} OthersStayQuiet(a: Accounts, id: int, other: int, day: Day)
    requires CapsSound(a.caps) && Quiet(a, other, day)
    ensures Quiet(Step(a, id, day), other, day)
  {
    if other == id {
      StepQuiets(a, id, day);
    } else if Accrues(a, id) && Accrues(a, other) {
      DueFits(a, id, day);
      assert Step(a, id, day).cds[other] == a.cds[other];
      MoreUsed(a, id, day, DayRef(other, CdCutoff(a.cds[other], day.today)));
      hide Used, CdEarned, CdCutoff;
    }
  }

  lemma {:induction false} MoreUsed(a: Accounts, id: int, day: Day, ref: PayRef)
    requires id in a.cds
    ensures Used(a.credits, ref) ==> Used(Step(a, id, day).credits, ref)
  {
    hide AmountDue;
    if Used(a.credits, ref) {
      var j :| 0 <= j < |a.credits| && a.credits[j].ref == ref;
      assert Step(a, id, day).credits[j].ref == ref;
    }
  }

  lemma {:induction false} AllQuiet(a: Accounts, ids: seq<int>, day: Day, closed: map<int, Closed>, id: int)
    requires AccountsSound(a, closed) && (id in ids || Quiet(a, id, day))
    ensures Quiet(AccrueAll(a, ids, day), id, day)
    decreases |ids|
  {
    hide Step, Quiet, CreditKnown;
    if ids != [] {
      if id == ids[0] { StepQuiets(a, id, day); } else if Quiet(a, id, day) { OthersStayQuiet(a, ids[0], id, day); }
      StepKeepsSound(a, ids[0], day, closed);
      AllQuiet(Step(a, ids[0], day), ids[1..], day, closed, id);
    }
  }

  lemma {:induction false} QuietAllStays(a: Accounts, ids: seq<int>, day: Day)
    requires forall n :: 0 <= n < |ids| ==> Quiet(a, ids[n], day)
    ensures AccrueAll(a, ids, day) == a && TotalPaid(a, ids, day) == 0
    decreases |ids|
  {
    hide Step, Quiet, Paid;
    if ids != [] {
      QuietStays(a, ids[0], day);
      QuietAllStays(a, ids[1..], day);
    }
  }

  /** A job repeated on the same day changes nothing and pays nothing. */
  lemma {:induction false} RepeatedJobPaysNothing(a: Accounts, ids: seq<int>, day: Day, closed: map<int, Closed>)
    requires AccountsSound(a, closed)
    ensures var after := AccrueAll(a, ids, day);
            AccrueAll(after, ids, day) == after && TotalPaid(after, ids, day) == 0
  {
    hide AccountsSound, AccrueAll, TotalPaid, Quiet;
    forall n | 0 <= n < |ids| ensures Quiet(AccrueAll(a, ids, day), ids[n], day) {
      AllQuiet(a, ids, day, closed, ids[n]);
    }
    QuietAllStays(AccrueAll(a, ids, day), ids, day);
  }
}
