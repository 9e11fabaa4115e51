/** Two buyers, one paid block, and a buyer who is moved: the next week is rejected. */
module NowMovedBuyer {
  import opened Prelude
  import opened Digits
  import opened FifoSlices
  import opened FifoAllocation
  import opened LotOrder
  import opened BinaryPreview
  import opened MembershipSource
  import opened NowVolumes
  import opened NowDrift

  // Buyers 2 and 3 hang left and right of member 1.
  const TREE: Members := map[1 := Node(0, None), 2 := Node(1, Some(L)), 3 := Node(1, Some(R))]

  // Buyer 2 has been moved below buyer 3.
  const MOVED_TREE: Members := TREE[2 := Node(3, Some(L))]

  const WEEK_END := 7 * DAY_NS
  const NEXT_END := 14 * DAY_NS

  // A version 4 identifier that ends in the given digit.
  function SaleId(digit: char): string {
    seq(36, i => if i in {8, 13, 18, 23} then '-' else if i == 14 then '4' else if i == 19 then '8'
                 else if i == 35 then digit else '0')
  }

  // USD 500 for 500 PV, paid through the provider that keeps one per cent.
  function Purchase(affiliate: int, digit: char, at: int): Sale {
    Sale(affiliate, at, SourceInput(SaleId(digit), "nowpayments", "usd", "500.00", "5.0000", "495.0000", 500, at))
  }

  function TwoSales(): seq<Sale> { [Purchase(2, '1', DAY_NS), Purchase(3, '2', DAY_NS + 1)] }

  function SaleSource(digit: char, at: int): RawSource {
    RawSource(SaleId(digit), NOWPayments, 5_000_000, 50_000, 4_950_000, 500, at, 9_900, true)
  }

  lemma {:induction false} Numbers()
    ensures AllDigits("500") && NatOf("500") == 500 && AllDigits("495") && NatOf("495") == 495
    ensures AllDigits("5") && NatOf("5") == 5
    ensures AllDigits("00") && NatOf("00") == 0 && AllDigits("0000") && NatOf("0000") == 0
  {
    assert "500"[..2] == "50" && "50"[..1] == "5" && "5"[..0] == "";
    assert "495"[..2] == "49" && "49"[..1] == "4" && "4"[..0] == "";
    assert "0000"[..3] == "000" && "000"[..2] == "00" && "00"[..1] == "0" && "0"[..0] == "";
    assert NatOf("5") == 5 && NatOf("4") == 4 && NatOf("50") == 50 && NatOf("49") == 49;
    assert NatOf("0") == 0 && NatOf("00") == 0 && NatOf("000") == 0;
  }

  lemma {:induction false} Dots()
    ensures FirstDot("500.00") == 3 && FirstDot("5.0000") == 1 && FirstDot("495.0000") == 3
  {
    assert "500.00"[3] == '.' && "5.0000"[1] == '.' && "495.0000"[3] == '.';
  }

  lemma {:induction false} Prices()
    ensures Money("500.00", 2) == Some(5_000_000)
    ensures Money("5.0000", 4) == Some(50_000)
    ensures Money("495.0000", 4) == Some(4_950_000)
  {
    Numbers();
    Dots();
    hide NatOf, FirstDot, AllDigits;
    assert "500.00"[..3] == "500" && "500.00"[4..] == "00";
    assert "5.0000"[..1] == "5" && "5.0000"[2..] == "0000";
    assert "495.0000"[..3] == "495" && "495.0000"[4..] == "0000";
  }

  lemma {:induction false} PurchaseIsAccepted(affiliate: int, digit: char, at: int)
    requires IsDigit(digit) && ValidTime(at)
    ensures Genuine(SaleSource(digit, at)) && SourceOf(Purchase(affiliate, digit, at)) == Ok(SaleSource(digit, at))
  {
    Prices();
    hide Money;
    assert CanonicalId(SaleId(digit));
  }

  // Who hangs where, before and after the move.
  lemma {:induction false} Places()
    ensures Hangs(TREE, 2, 1, L, DEPTH) && !Hangs(TREE, 2, 1, R, DEPTH)
    ensures Hangs(TREE, 3, 1, R, DEPTH) && !Hangs(TREE, 3, 1, L, DEPTH)
    ensures !Hangs(MOVED_TREE, 2, 1, L, DEPTH)
  {
    assert !Hangs(TREE, 1, 1, L, DEPTH - 1) && !Hangs(TREE, 1, 1, R, DEPTH - 1);
    assert !Hangs(MOVED_TREE, 1, 1, L, DEPTH - 2);
    assert !Hangs(MOVED_TREE, 3, 1, L, DEPTH - 1);
  }

  lemma {:induction false} BothCount()
    ensures var sales := TwoSales();
            && Counts(TREE, sales[0], WEEK_END, 1, L) && !Counts(TREE, sales[0], WEEK_END, 1, R)
            && Counts(TREE, sales[1], WEEK_END, 1, R) && !Counts(TREE, sales[1], WEEK_END, 1, L)
  {
    PurchaseIsAccepted(2, '1', DAY_NS);
    PurchaseIsAccepted(3, '2', DAY_NS + 1);
    Places();
    hide SourceOf, SaleSource, Hangs;
  }

  lemma {:induction false} TwoLots(members: Members, sales: seq<Sale>, end: int, a: int, side: Side)
    requires |sales| == 2
    ensures LegLots(members, sales, end, a, side) ==
            if Counts(members, sales[0], end, a, side) then
              if Counts(members, sales[1], end, a, side) then
                [Lot(SourceOf(sales[0]).value, 1), Lot(SourceOf(sales[1]).value, 2)]
              else [Lot(SourceOf(sales[0]).value, 1)]
            else if Counts(members, sales[1], end, a, side) then [Lot(SourceOf(sales[1]).value, 2)]
            else []
  {
    hide SourceOf, Hangs;
    var one := sales[..1];
    assert one[..0] == [] && one[0] == sales[0];
    assert LegLots(members, one[..0], end, a, side) == [];
    assert LegLots(members, one, end, a, side) ==
           if Counts(members, sales[0], end, a, side) then [Lot(SourceOf(sales[0]).value, 1)] else [];
    hide Counts;
  }

  lemma {:induction false} Legs()
    ensures Genuine(SaleSource('1', DAY_NS)) && Genuine(SaleSource('2', DAY_NS + 1))
    ensures LegLots(TREE, TwoSales(), WEEK_END, 1, L) == [Lot(SaleSource('1', DAY_NS), 1)]
    ensures LegLots(TREE, TwoSales(), WEEK_END, 1, R) == [Lot(SaleSource('2', DAY_NS + 1), 2)]
  {
    PurchaseIsAccepted(2, '1', DAY_NS);
    PurchaseIsAccepted(3, '2', DAY_NS + 1);
    BothCount();
    hide SourceOf, SaleSource, Counts, LegLots;
    TwoLots(TREE, TwoSales(), WEEK_END, 1, L);
    TwoLots(TREE, TwoSales(), WEEK_END, 1, R);
  }

  lemma {:induction false} SalesAreValid()
    ensures ValidSales(TwoSales())
    ensures Acyclic(TREE, map[1 := 0, 2 := 1, 3 := 1])
    ensures Acyclic(MOVED_TREE, map[1 := 0, 3 := 1, 2 := 2])
  {
    assert SaleId('1')[35] == '1' && SaleId('2')[35] == '2';
    hide SaleId;
  }

  lemma {:induction false} OneLotPv(lot: Lot)
    ensures TotalPv([lot]) == lot.source.pv
  {
    assert [lot][1..] == [];
  }

  /** The first week of member 1 pays one block. */
  lemma {:induction false} FirstWeekPays()
    ensures var first := PreviewSpec(Request(TREE, TwoSales(), WEEK_END, 1, 0, NoHash, false));
            first.Ok? && first.value.matchedBlocks == 1
  {
    Legs();
    SalesAreValid();
    OneLotPv(Lot(SaleSource('1', DAY_NS), 1));
    OneLotPv(Lot(SaleSource('2', DAY_NS + 1), 2));
    hide LegLots, TwoSales, SaleId, Acyclic, ValidSales, TotalPv, WellFormed, Sort;
    RequestIsWellFormed(TREE, map[1 := 0, 2 := 1, 3 := 1], TwoSales(), WEEK_END, 1, 0, NoHash, false);
    LegIsSorted(TREE, TwoSales(), WEEK_END, 1, L);
    LegIsSorted(TREE, TwoSales(), WEEK_END, 1, R);
  }

  lemma {:induction false} NothingBefore(members: Members, end: int, a: int, side: Side)
    ensures TotalPv(LegLots(members, [], end, a, side)) == 0
  {
  }

  lemma {:induction false} MovedFits()
    ensures FitsPv(MOVED_TREE, TwoSales(), NEXT_END, 1)
  {
    PurchaseIsAccepted(2, '1', DAY_NS);
    PurchaseIsAccepted(3, '2', DAY_NS + 1);
    hide SourceOf, SaleId, Counts, LegLots;
    forall side: Side ensures TotalPv(LegLots(MOVED_TREE, TwoSales(), NEXT_END, 1, side)) <= 1000 {
      TwoLots(MOVED_TREE, TwoSales(), NEXT_END, 1, side);
      TwoLotsPv(Lot(SaleSource('1', DAY_NS), 1), Lot(SaleSource('2', DAY_NS + 1), 2));
    }
    hide TotalPv;
  }

  lemma {:induction false} TwoLotsPv(x: Lot, y: Lot)
    ensures TotalPv([x, y]) == x.source.pv + y.source.pv && TotalPv([]) == 0
    ensures TotalPv([x]) == x.source.pv && TotalPv([y]) == y.source.pv
  {
    OneLotPv(x);
    OneLotPv(y);
    TotalPvAppend([x], [y]);
    assert [x] + [y] == [x, y];
  }

  // The first week reaches the sale of buyer 2, which the move takes out of the left leg.
  lemma {:induction false} FirstSaleMoved(sales: seq<Sale>)
    requires sales == TwoSales() && BLOCK_PV <= TotalPv(LegLots(TREE, sales, WEEK_END, 1, L))
    ensures ClaimMoved(TREE, MOVED_TREE, sales, WEEK_END, 1, L, BLOCK_PV)
  {
    Places();
    PurchaseIsAccepted(2, '1', DAY_NS);
    NothingBefore(TREE, WEEK_END, 1, L);
    assert Relinked(TREE, MOVED_TREE, sales[0], 1, L) by { hide SourceOf, Hangs; }
    hide LegLots, TotalPv, Hangs, SourceOf, Reach, Relinked;
    ReachIs(TREE, sales, WEEK_END, 1, L, BLOCK_PV);
    assert sales[..0] == [];
  }

  /** The same claim a week later, with buyer 2 moved below buyer 3 in between, is rejected. */
  lemma {:induction false} MovedBuyerDrifts() returns (first: Preview)
    ensures PreviewSpec(Request(TREE, TwoSales(), WEEK_END, 1, 0, NoHash, false)) == Ok(first)
    ensures first.matchedBlocks == 1
    ensures PreviewSpec(Request(MOVED_TREE, TwoSales(), NEXT_END, 1, first.matchedBlocks, first.nextHash, false)) ==
            Err(ClaimHistoryDrift)
  {
    FirstWeekPays();
    SalesAreValid();
    MovedFits();
    hide *;
    var sales := TwoSales();
    first := PreviewSpec(Request(TREE, sales, WEEK_END, 1, 0, NoHash, false)).value;
    ClaimIsInLegs(TREE, sales, WEEK_END, 1, 0, NoHash, false);
    FirstSaleMoved(sales);
    assert sales + [] == sales;
    assert WEEK_END <= NEXT_END && ValidTime(NEXT_END) by { TimesFit(); }
    DriftIffMoved(TREE, MOVED_TREE, map[1 := 0, 3 := 1, 2 := 2], sales, [], WEEK_END, NEXT_END, 1, 0, NoHash, false,
        false);
  }

  lemma {:induction false} TimesFit()
    ensures WEEK_END <= NEXT_END && ValidTime(NEXT_END)
  {
  }
}
