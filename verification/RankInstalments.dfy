/** A rank bonus is paid in N instalments: equal whole cents, the last one carrying the rest. */
module RankInstalments {
  import opened Prelude
  import opened Theta
  import opened CloseCandidates
  import opened ClosePayments

  function Equal(bonus: int, n: int): int
    requires 0 < n
  {
    bonus / n
  }

  function AmountNo(bonus: int, n: int, i: int): int
    requires 0 < n
  {
    if i == n then bonus - (n - 1) * Equal(bonus, n) else Equal(bonus, n)
  }

  datatype Promotion = Promotion(affiliate: int, rank: int, bonus: int)

  // Empty instalments are not written.
  function Instalments(p: Promotion, n: int, cadence: int, end: int, upTo: nat): seq<Instalment>
    requires 0 < n
  {
    if upTo == 0 then []
    else
      var amount := AmountNo(p.bonus, n, upTo);
      var earlier := Instalments(p, n, cadence, end, upTo - 1);
      if amount <= 0 then earlier
      else earlier + [Instalment(p.affiliate, p.rank, upTo, amount, end + 7 * cadence * (upTo - 1), None)]
  }

  function AmountOf(s: seq<Instalment>, affiliate: int, rank: int): int {
    if s == [] then 0
    else
      var last := s[|s| - 1];
      AmountOf(s[..|s| - 1], affiliate, rank)
      + if last.affiliate == affiliate && last.rank == rank then last.amount else 0
  }

  function PaidOf(s: seq<Instalment>, affiliate: int, rank: int): int {
    if s == [] then 0
    else
      var last := s[|s| - 1];
      PaidOf(s[..|s| - 1], affiliate, rank)
      + if last.affiliate == affiliate && last.rank == rank && last.paid.Some? then last.paid.value else 0
  }

  lemma {:induction false} AmountAppend(s: seq<Instalment>, t: seq<Instalment>, affiliate: int, rank: int)
    ensures AmountOf(s + t, affiliate, rank) == AmountOf(s, affiliate, rank) + AmountOf(t, affiliate, rank)
    ensures PaidOf(s + t, affiliate, rank) == PaidOf(s, affiliate, rank) + PaidOf(t, affiliate, rank)
  {
    if t == [] {
      assert s + t == s;
    } else {
      assert (s + t)[..|s + t| - 1] == s + t[..|t| - 1];
      AmountAppend(s, t[..|t| - 1], affiliate, rank);
    }
  }

  lemma {:induction false} EqualBounds(bonus: int, n: int)
    requires 0 <= bonus && 0 < n
    ensures 0 <= Equal(bonus, n) && n * Equal(bonus, n) <= bonus < n * Equal(bonus, n) + n
  {
  }

  lemma {:induction false} OneMoreShare(i: int, per: int)
    ensures (i + 1) * per == i * per + per
  {
  }

  lemma {:induction false} OneMore(s: seq<Instalment>, x: Instalment)
    ensures AmountOf(s + [x], x.affiliate, x.rank) == AmountOf(s, x.affiliate, x.rank) + x.amount
  {
    assert (s + [x])[..|s|] == s;
  }

  // What was paid for a rank: every settled instalment of it counts with what it got.
  lemma {:induction false} PaidAdds(s: seq<Instalment>, x: Instalment, affiliate: int, rank: int)
    ensures PaidOf([], affiliate, rank) == 0
    ensures PaidOf(s + [x], affiliate, rank) ==
            PaidOf(s, affiliate, rank)
            + match x.paid case Some(v) => (if x.affiliate == affiliate && x.rank == rank then v else 0) case None => 0
  {
    assert (s + [x])[..|s|] == s;
  }

  lemma {:induction false} NextInstalment(p: Promotion, n: int, cadence: int, end: int, upTo: nat)
    requires 0 < n && 0 < upTo && 0 <= AmountNo(p.bonus, n, upTo)
    ensures AmountOf(Instalments(p, n, cadence, end, upTo), p.affiliate, p.rank) ==
            AmountOf(Instalments(p, n, cadence, end, upTo - 1), p.affiliate, p.rank) + AmountNo(p.bonus, n, upTo)
  {
    hide AmountOf, AmountNo;
    OneMore(Instalments(p, n, cadence, end, upTo - 1),
            Instalment(p.affiliate, p.rank, upTo, AmountNo(p.bonus, n, upTo), end + 7 * cadence * (upTo - 1), None));
  }

  lemma {:induction false} FirstInstalments(p: Promotion, n: int, cadence: int, end: int, upTo: nat)
    requires 0 < n && 0 <= p.bonus && upTo < n
    ensures AmountOf(Instalments(p, n, cadence, end, upTo), p.affiliate, p.rank) == upTo * Equal(p.bonus, n)
  {
    EqualBounds(p.bonus, n);
    hide Equal, AmountOf;
    if upTo > 0 {
      assert AmountNo(p.bonus, n, upTo) == Equal(p.bonus, n);
      NextInstalment(p, n, cadence, end, upTo);
      hide Instalments;
      FirstInstalments(p, n, cadence, end, upTo - 1);
      OneMoreShare(upTo - 1, Equal(p.bonus, n));
    } else {
      assert Instalments(p, n, cadence, end, 0) == [] && AmountOf([], p.affiliate, p.rank) == 0 by { NothingYet(p); }
    }
  }

  lemma {:induction false} NothingYet(p: Promotion)
    ensures AmountOf([], p.affiliate, p.rank) == 0
  {
  }

  /**
   * For every bonus and number of instalments the scheduled amounts add up to the bonus, and
   * the last exceeds the others by less than one cent per instalment.
   */
  lemma {:induction false} ScheduleIsExact(p: Promotion, n: int, cadence: int, end: int)
    requires 0 < n && 0 <= p.bonus
    ensures AmountOf(Instalments(p, n, cadence, end, n), p.affiliate, p.rank) == p.bonus
    ensures 0 <= AmountNo(p.bonus, n, n) - Equal(p.bonus, n) < n
  {
    hide Equal, AmountOf, Instalments;
    FirstInstalments(p, n, cadence, end, n - 1);
    EqualBounds(p.bonus, n);
    OneMoreShare(n - 1, Equal(p.bonus, n));
    NextInstalment(p, n, cadence, end, n);
  }

  lemma {:induction false} ScheduleIsSound(p: Promotion, n: int, cadence: int, end: int, upTo: nat)
    requires 0 < n
    ensures InstalmentsSound(Instalments(p, n, cadence, end, upTo))
    ensures forall a, r :: (a, r) != (p.affiliate, p.rank) ==>
            AmountOf(Instalments(p, n, cadence, end, upTo), a, r) == 0
    ensures forall i :: 0 <= i < |Instalments(p, n, cadence, end, upTo)| ==>
            Instalments(p, n, cadence, end, upTo)[i].paid.None?
  {
    hide Equal;
    if upTo > 0 { ScheduleIsSound(p, n, cadence, end, upTo - 1); }
  }

  // The loop that writes the instalments of one bonus.
  method WriteInstalments(p: Promotion, n: int, cadence: int, end: int) returns (rows: seq<Instalment>)
    requires 0 < n
    ensures rows == Instalments(p, n, cadence, end, n)
  {
    rows := [];
    var per := p.bonus / n;
    var spent := 0;
    for i := 1 to n + 1
      invariant rows == Instalments(p, n, cadence, end, i - 1) && spent == (i - 1) * per
    {
      var amount := per;
      if i == n { amount := p.bonus - spent; }
      OneMoreShare(i - 1, per);
      spent := spent + per;
      assert amount == AmountNo(p.bonus, n, i);
      if amount <= 0 { continue; }
      rows := rows + [Instalment(p.affiliate, p.rank, i, amount, end + 7 * cadence * (i - 1), None)];
    }
  }

  /* ----- Over all closes ----- */

  // Everything scheduled for a reached rank is exactly its bonus.
  ghost predicate BonusesSound(s: State) {
    forall a, r :: AmountOf(s.instalments, a, r) == if (a, r) in s.achieved then s.achieved[(a, r)] else 0
  }

  // A rank is reached once; its bonus is scheduled then and never again.
  function Promote(s: State, p: Promotion, n: int, cadence: int, end: int): State
    requires 0 < n
  {
    if (p.affiliate, p.rank) in s.achieved then s
    else s.(achieved := s.achieved[(p.affiliate, p.rank) := p.bonus],
            instalments := s.instalments + Instalments(p, n, cadence, end, n))
  }

  lemma {:induction false} PromoteKeeps(s: State, p: Promotion, n: int, cadence: int, end: int)
    requires 0 < n && 0 <= p.bonus && InstalmentsSound(s.instalments) && BonusesSound(s)
    ensures var after := Promote(s, p, n, cadence, end); InstalmentsSound(after.instalments) && BonusesSound(after)
  {
    if (p.affiliate, p.rank) !in s.achieved {
      var rows := Instalments(p, n, cadence, end, n);
      ScheduleIsExact(p, n, cadence, end);
      ScheduleIsSound(p, n, cadence, end, n);
      hide Instalments, AmountOf, InstalmentsSound;
      forall a, r
        ensures AmountOf(s.instalments + rows, a, r) == AmountOf(s.instalments, a, r) + AmountOf(rows, a, r)
      {
        AmountAppend(s.instalments, rows, a, r);
      }
      assert InstalmentsSound(s.instalments + rows) by { SoundAppend(s.instalments, rows); }
    }
  }

  lemma {:induction false} SoundAppend(a: seq<Instalment>, b: seq<Instalment>)
    requires InstalmentsSound(a) && InstalmentsSound(b)
    ensures InstalmentsSound(a + b)
  {
  }

  lemma {:induction false} PaymentKeepsAmounts(a: seq<Instalment>, b: seq<Instalment>, affiliate: int, rank: int)
    requires OnlySettled(a, b)
    ensures AmountOf(a, affiliate, rank) == AmountOf(b, affiliate, rank)
    decreases |a|
  {
    if a != [] {
      assert OnlySettled(a[..|a| - 1], b[..|b| - 1]);
      PaymentKeepsAmounts(a[..|a| - 1], b[..|b| - 1], affiliate, rank);
    }
  }

  lemma {:induction false} PaidWithinAmount(s: seq<Instalment>, affiliate: int, rank: int)
    requires InstalmentsSound(s)
    ensures 0 <= PaidOf(s, affiliate, rank) <= AmountOf(s, affiliate, rank)
  {
    if s != [] {
      assert InstalmentsSound(s[..|s| - 1]);
      PaidWithinAmount(s[..|s| - 1], affiliate, rank);
    }
  }

  /** Whatever the thetas of its closes, a rank never pays more than its bonus. */
  lemma {:induction false} RankPayWithinBonus(s: State, affiliate: int, rank: int)
    requires InstalmentsSound(s.instalments) && BonusesSound(s)
    ensures 0 <= PaidOf(s.instalments, affiliate, rank)
            <= if (affiliate, rank) in s.achieved then s.achieved[(affiliate, rank)] else 0
  {
    PaidWithinAmount(s.instalments, affiliate, rank);
    assert AmountOf(s.instalments, affiliate, rank) ==
           if (affiliate, rank) in s.achieved then s.achieved[(affiliate, rank)] else 0;
  }

  lemma {:induction false} CloseKeepsBonuses(s: State, k: Close, items: seq<Item>)
    requires ValidPlan(k.plan) && NonNegativeItems(items) && 0 <= k.theta <= ONE
    requires InstalmentsSound(s.instalments) && RanksOpen(s, items) && BonusesSound(s)
    ensures BonusesSound(BookAll(s, k, items))
  {
    CloseSettles(s, k, items);
    AchievedStays(s, k, items);
    hide BookAll, RanksOpen, InstalmentsSound, AmountOf;
    var after := BookAll(s, k, items);
    forall a, r ensures AmountOf(after.instalments, a, r) == AmountOf(s.instalments, a, r) {
      PaymentKeepsAmounts(s.instalments, after.instalments, a, r);
    }
  }

  lemma {:induction false} AchievedStays(s: State, k: Close, items: seq<Item>)
    ensures BookAll(s, k, items).achieved == s.achieved
    decreases |items|
  {
    if items != [] {
      assert Book(s, k, items[0]).achieved == s.achieved by { OneStays(s, k, items[0]); }
      hide Book;
      AchievedStays(Book(s, k, items[0]), k, items[1..]);
    }
  }

  lemma {:induction false} OneStays(s: State, k: Close, i: Item)
    ensures Book(s, k, i).achieved == s.achieved
  {
    hide Pays, AlreadyCredited, CreditOf, RefOf, Charge;
  }
}
