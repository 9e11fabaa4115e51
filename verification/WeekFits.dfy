/** Why the parts of a week fit together: distinct references, open instalments, own packages. */
module WeekFits {
  import opened Prelude
  import opened PackageCap
  import opened CloseCandidates
  import opened ClosePayments
  import opened WeekItems

  function Key(i: Item): (int, int) {
    match i
    case BinaryItem(c) => (c.affiliate, c.event)
    case StreamItem(_, _, _, key) => (key, 0)
    case PointsItem(affiliate, _, _) => (affiliate, 0)
    case RankItem(index, _, _) => (index, 0)
  }

  lemma {:induction false} RefIs(k: Close, i: Item)
    ensures RefOf(k, i) == PayRef(KindOf(i), k.period, Key(i).0, Key(i).1)
  {
  }

  // Amounts are not negative and no two items share kind and key.
  ghost predicate Good(items: seq<Item>) {
    && NonNegativeItems(items)
    && forall n, m :: 0 <= n < m < |items| ==> (KindOf(items[n]), Key(items[n])) != (KindOf(items[m]), Key(items[m]))
  }

  ghost predicate OnlyKinds(items: seq<Item>, kinds: set<Kind>) {
    forall n :: 0 <= n < |items| ==> KindOf(items[n]) in kinds
  }

  lemma {:induction false} Join(a: seq<Item>, b: seq<Item>, left: set<Kind>, right: set<Kind>)
    requires Good(a) && Good(b) && OnlyKinds(a, left) && OnlyKinds(b, right) && left !! right
    ensures Good(a + b) && OnlyKinds(a + b, left + right)
  {
    hide Gross, KindOf, Key;
  }

  lemma {:induction false} StreamsGood(kind: Kind, shares: seq<Share>)
    requires ValidShares(shares)
    ensures Good(Streams(kind, shares)) && OnlyKinds(Streams(kind, shares), {kind})
  {
    hide Streams;
    var items := Streams(kind, shares);
    forall n | 0 <= n < |items| ensures 0 <= Gross(items[n]) && KindOf(items[n]) == kind
        && Key(items[n]) == (shares[n].key, 0) {
    }
    hide Gross, KindOf, Key;
  }

  lemma {:induction false} BinariesGood(cs: seq<Candidate>)
    requires Distinct(cs) && forall n :: 0 <= n < |cs| ==> 0 <= cs[n].gross
    ensures Good(Binaries(cs)) && OnlyKinds(Binaries(cs), {BinaryBonus})
  {
    hide Binaries;
  }

  lemma {:induction false} PointsFrom(p: Plan, rows: seq<PointRow>, caps: map<int, Cap>, cs: seq<Candidate>, n: nat)
    requires n < |PointItems(p, rows, caps, cs)|
    ensures var i := PointItems(p, rows, caps, cs)[n];
            && i.PointsItem? && 0 < i.exact
            && exists m :: 0 <= m < |rows| && rows[m].affiliate == i.affiliate
  {
    hide PointGross, BinaryGross;
    var init := rows[..|rows| - 1];
    if n < |PointItems(p, init, caps, cs)| {
      PointsFrom(p, init, caps, cs, n);
      var m :| 0 <= m < |init| && init[m].affiliate == PointItems(p, init, caps, cs)[n].affiliate;
      assert rows[m] == init[m];
    } else {
      assert rows[|rows| - 1].affiliate == PointItems(p, rows, caps, cs)[n].affiliate;
    }
  }

  lemma {:induction false} PointsGood(p: Plan, rows: seq<PointRow>, caps: map<int, Cap>, cs: seq<Candidate>)
    requires forall n, m :: 0 <= n < m < |rows| ==> rows[n].affiliate != rows[m].affiliate
    ensures Good(PointItems(p, rows, caps, cs)) && OnlyKinds(PointItems(p, rows, caps, cs), {PointsBonus})
  {
    if rows != [] {
      var init, r := rows[..|rows| - 1], rows[|rows| - 1];
      PointsGood(p, init, caps, cs);
      var others := PointItems(p, init, caps, cs);
      hide PointGross, BinaryGross;
      forall n | 0 <= n < |others| ensures others[n].PointsItem? && others[n].affiliate != r.affiliate {
        PointsFrom(p, init, caps, cs, n);
        var m :| 0 <= m < |init| && init[m].affiliate == others[n].affiliate;
        assert rows[m] == init[m];
      }
    }
  }

  ghost predicate DueList(instalments: seq<Instalment>, items: seq<Item>, upTo: nat) {
    && (forall n :: 0 <= n < |items| ==>
          && items[n].RankItem? && items[n].index < upTo <= |instalments|
          && instalments[items[n].index].paid.None?
          && items[n].amount == instalments[items[n].index].amount
          && items[n].affiliate == instalments[items[n].index].affiliate)
    && (forall n, m :: 0 <= n < m < |items| ==> items[n].index < items[m].index)
  }

  lemma {:induction false} DueItemsListed(instalments: seq<Instalment>, end: int, upTo: nat)
    requires upTo <= |instalments|
    ensures DueList(instalments, DueItems(instalments, end, upTo), upTo)
    ensures forall n :: 0 <= n < upTo && instalments[n].paid.None? && instalments[n].due <= end ==>
              exists m :: 0 <= m < |DueItems(instalments, end, upTo)| && DueItems(instalments, end, upTo)[m].RankItem?
                          && DueItems(instalments, end, upTo)[m].index == n
  {
    if upTo > 0 {
      DueItemsListed(instalments, end, upTo - 1);
      var others, all := DueItems(instalments, end, upTo - 1), DueItems(instalments, end, upTo);
      forall n | 0 <= n < upTo && instalments[n].paid.None? && instalments[n].due <= end
        ensures exists m :: 0 <= m < |all| && all[m].RankItem? && all[m].index == n
      {
        if n < upTo - 1 {
          var m :| 0 <= m < |others| && others[m].RankItem? && others[m].index == n;
          assert all[m] == others[m];
        } else {
          assert all[|all| - 1].index == n;
        }
      }
    }
  }

  lemma {:induction false} DueGood(instalments: seq<Instalment>, items: seq<Item>, upTo: nat)
    requires InstalmentsSound(instalments) && DueList(instalments, items, upTo)
    ensures Good(items) && OnlyKinds(items, {RankBonus})
  {
    forall n | 0 <= n < |items| ensures 0 <= Gross(items[n]) {
      assert 0 < instalments[items[n].index].amount;
    }
  }

  // All binary candidates of a week have positive gross and fit.
  lemma {:induction false} CandidatesFit(p: Plan, s: State, w: Week, peak: map<int, int>, n: nat)
    requires ValidPlan(p) && n < |Candidates(p, s, w)|
    requires forall m :: 0 <= m < |w.ancestors| ==> MatchedBlocks(p, w.ancestors[m]) <= Peak(peak, w.ancestors[m].id)
    ensures 0 <= Candidates(p, s, w)[n].gross && BinaryFits(s, Candidates(p, s, w)[n], peak)
  {
    CandidatesFrom(p, w.ancestors, s.caps, s.blocks, w.cutoff, n);
    var m :| 0 <= m < |w.ancestors|
        && CandidateOf(p, w.ancestors[m], s.caps, s.blocks, w.cutoff) == Some(Candidates(p, s, w)[n]);
    CandidateFits(p, w.ancestors[m], s.caps, s.blocks, w.cutoff);
    hide CandidateOf, CandidatesOf, MatchedBlocks, PeriodCap, Bonus, PackageRoom;
  }

  function Rest(p: Plan, s: State, w: Week): seq<Item>
    requires ValidPlan(p) && 0 < w.instalments
  {
    var due := Promoted(s, w).instalments;
    Streams(Yield, w.yieldShares) + (PointItems(p, w.pointRows, s.caps, Candidates(p, s, w))
    + (DueItems(due, w.end, |due|) + (Streams(Referral, w.referrals) + Streams(RoyaltyBonus, w.royalties))))
  }

  lemma {:induction false} RestGood(p: Plan, s: State, w: Week)
    requires ValidPlan(p) && ValidWeek(w) && InstalmentsSound(Promoted(s, w).instalments)
    ensures Good(Rest(p, s, w)) && OnlyKinds(Rest(p, s, w), {Yield, PointsBonus, RankBonus, Referral, RoyaltyBonus})
  {
    var due := Promoted(s, w).instalments;
    StreamsGood(Yield, w.yieldShares);
    PointsGood(p, w.pointRows, s.caps, Candidates(p, s, w));
    DueItemsListed(due, w.end, |due|);
    DueGood(due, DueItems(due, w.end, |due|), |due|);
    StreamsGood(Referral, w.referrals);
    StreamsGood(RoyaltyBonus, w.royalties);
    hide Good, OnlyKinds, Streams, PointItems, DueItems, Promoted, Candidates, DueList;
    var a, b := Streams(Referral, w.referrals), Streams(RoyaltyBonus, w.royalties);
    Join(a, b, {Referral}, {RoyaltyBonus});
    var c := DueItems(due, w.end, |due|);
    Join(c, a + b, {RankBonus}, {Referral} + {RoyaltyBonus});
    var d := PointItems(p, w.pointRows, s.caps, Candidates(p, s, w));
    Join(d, c + (a + b), {PointsBonus}, {RankBonus} + ({Referral} + {RoyaltyBonus}));
    var e := Streams(Yield, w.yieldShares);
    Join(e, d + (c + (a + b)), {Yield}, {PointsBonus} + ({RankBonus} + ({Referral} + {RoyaltyBonus})));
    assert {Yield} + ({PointsBonus} + ({RankBonus} + ({Referral} + {RoyaltyBonus})))
           == {Yield, PointsBonus, RankBonus, Referral, RoyaltyBonus};
  }

  lemma {:induction false} ItemsGood(p: Plan, s: State, w: Week)
    requires ValidPlan(p) && ValidWeek(w) && InstalmentsSound(Promoted(s, w).instalments)
    ensures Good(Items(p, s, w))
    ensures OnlyKinds(Items(p, s, w), {BinaryBonus, Yield, PointsBonus, RankBonus, Referral, RoyaltyBonus})
  {
    RestGood(p, s, w);
    assert Items(p, s, w) == Binaries(Candidates(p, s, w)) + Rest(p, s, w);
    CandidatesDistinct(p, w.ancestors, s.caps, s.blocks, w.cutoff);
    var cs := Candidates(p, s, w);
    forall n | 0 <= n < |cs| ensures 0 <= cs[n].gross {
      CandidatesFrom(p, w.ancestors, s.caps, s.blocks, w.cutoff, n);
      var m :| 0 <= m < |w.ancestors| && CandidateOf(p, w.ancestors[m], s.caps, s.blocks, w.cutoff) == Some(cs[n]);
      CandidateFits(p, w.ancestors[m], s.caps, s.blocks, w.cutoff);
    }
    BinariesGood(cs);
    hide Good, OnlyKinds, Items, Rest, Candidates, Distinct;
    Join(Binaries(cs), Rest(p, s, w), {BinaryBonus}, {Yield, PointsBonus, RankBonus, Referral, RoyaltyBonus});
    assert {BinaryBonus} + {Yield, PointsBonus, RankBonus, Referral, RoyaltyBonus}
           == {BinaryBonus, Yield, PointsBonus, RankBonus, Referral, RoyaltyBonus};
  }

  // No reference of this period has been credited before.
  ghost predicate PeriodNew(credits: seq<Credit>, period: int) {
    forall j :: 0 <= j < |credits| && credits[j].ref.kind != DailyReturn ==> credits[j].ref.period != period
  }

  lemma {:induction false} ItemsNew(s: State, k: Close, items: seq<Item>)
    requires Good(items) && PeriodNew(s.credits, k.period)
    requires OnlyKinds(items, {BinaryBonus, Yield, PointsBonus, RankBonus, Referral, RoyaltyBonus})
    ensures NewRefs(s, k, items)
  {
    hide Gross, KindOf, Key, RefOf;
    forall n | 0 <= n < |items| ensures !AlreadyCredited(s, RefOf(k, items[n])) {
      RefIs(k, items[n]);
    }
    forall n, m | 0 <= n < m < |items| ensures RefOf(k, items[n]) != RefOf(k, items[m]) {
      RefIs(k, items[n]);
      RefIs(k, items[m]);
    }
  }

  lemma {:induction false} ItemsBinaries(p: Plan, s: State, w: Week, peak: map<int, int>)
    requires ValidPlan(p) && ValidWeek(w) && InstalmentsSound(Promoted(s, w).instalments)
    requires forall m :: 0 <= m < |w.ancestors| ==> MatchedBlocks(p, w.ancestors[m]) <= Peak(peak, w.ancestors[m].id)
    ensures BinariesFit(s, Items(p, s, w), peak)
  {
    CandidatesDistinct(p, w.ancestors, s.caps, s.blocks, w.cutoff);
    RestGood(p, s, w);
    var cs, rest, items := Candidates(p, s, w), Rest(p, s, w), Items(p, s, w);
    assert items == Binaries(cs) + rest;
    assert forall n :: 0 <= n < |rest| ==> KindOf(rest[n]) != BinaryBonus;
    hide Items, Rest, Candidates, MatchedBlocks, BinaryFits, Good, OnlyKinds, Binaries;
    forall n | |cs| <= n < |items| ensures !items[n].BinaryItem? {
      assert items[n] == rest[n - |cs|];
    }
    assert forall n :: 0 <= n < |cs| ==> items[n] == BinaryItem(cs[n]);
    forall n | 0 <= n < |cs| ensures BinaryFits(s, cs[n], peak) {
      CandidatesFit(p, s, w, peak, n);
    }
  }

  lemma {:induction false} ItemsRanks(p: Plan, s: State, w: Week)
    requires ValidPlan(p) && ValidWeek(w) && InstalmentsSound(Promoted(s, w).instalments)
    ensures RanksOpen(Promoted(s, w), Items(p, s, w))
  {
    var due := Promoted(s, w).instalments;
    DueItemsListed(due, w.end, |due|);
    var cs := Candidates(p, s, w);
    var a, b, c := Binaries(cs), Streams(Yield, w.yieldShares), PointItems(p, w.pointRows, s.caps, cs);
    var d, e, f := DueItems(due, w.end, |due|), Streams(Referral, w.referrals), Streams(RoyaltyBonus, w.royalties);
    PointsGood(p, w.pointRows, s.caps, cs);
    assert forall n :: 0 <= n < |c| ==> !c[n].RankItem?;
    var items := Items(p, s, w);
    assert items == a + (b + (c + (d + (e + f))));
    hide Items, Candidates, Promoted, DueItems, PointItems, Binaries, Streams, Good, OnlyKinds;
    var lead := |a| + |b| + |c|;
    forall n | 0 <= n < |items| && items[n].RankItem? ensures lead <= n < lead + |d| && items[n] == d[n - lead] {
    }
  }
}
