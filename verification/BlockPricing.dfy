/** What a single accepted preview guarantees: conservation of PV and bounds on the price. */
module BlockPricing {
  import opened Prelude
  import opened FifoSlices
  import opened LotOrder
  import opened FifoAllocation
  import opened BinaryPreview
  import ClaimHistory

  /* ----- The fast slicer refines the simple one ----- */

  // The slices of blocks from + 1 .. to of one leg, in order.
  function SliceBlocks(lots: seq<Lot>, from: int, to: int): seq<Slice>
    decreases Max(to - from, 0)
  {
    if to <= from then []
    else SliceBlocks(lots, from, to - 1) + Slices(lots, BLOCK_PV * (to - 1), BLOCK_PV * to)
  }

  lemma {:induction false} ExpandAppend(a: seq<Slice>, b: seq<Slice>)
    requires Proper(a) && Proper(b)
    ensures Proper(a + b)
    ensures Expand(a + b) == Expand(a) + Expand(b)
  {
    if a == [] {
      assert a + b == b;
    } else {
      var rest := a[1..] + b;
      assert (a + b)[1..] == rest;
      ExpandAppend(a[1..], b);
      AppendAssoc(LotUnits(a[0].lot, a[0].offset, a[0].offset + a[0].pv), Expand(a[1..]), Expand(b));
    }
  }

  lemma {:induction false} SliceBlocksUnits(lots: seq<Lot>, from: int, to: int)
    requires AllPositive(lots) && 0 <= from <= to && BLOCK_PV * to <= TotalPv(lots)
    ensures |Units(lots)| == TotalPv(lots)
    ensures Proper(SliceBlocks(lots, from, to))
    ensures Expand(SliceBlocks(lots, from, to)) == Units(lots)[BLOCK_PV * from..BLOCK_PV * to]
    decreases Max(to - from, 0)
  {
    hide Slices, Units, TotalPv;
    UnitsLength(lots);
    if from < to {
      SliceBlocksUnits(lots, from, to - 1);
      SlicesAreUnits(lots, BLOCK_PV * (to - 1), BLOCK_PV * to);
      ExpandAppend(SliceBlocks(lots, from, to - 1), Slices(lots, BLOCK_PV * (to - 1), BLOCK_PV * to));
      Joined(Units(lots), BLOCK_PV * from, BLOCK_PV * (to - 1), BLOCK_PV * to);
    }
  }

  lemma {:induction false} Joined<T>(s: seq<T>, a: int, b: int, c: int)
    requires 0 <= a <= b <= c <= |s|
    ensures s[a..b] + s[b..c] == s[a..c]
  {
  }

  /**
   * The blocks of a leg, put one behind the other and merged, are the one cut of the whole
   * claimed range that the simple slicer makes.
   */
  lemma {:induction false} MergedBlocksAreOneCut(lots: seq<Lot>, from: int, to: int)
    requires AllPositive(lots) && DistinctIds(lots)
    requires 0 <= from <= to && BLOCK_PV * to <= TotalPv(lots)
    ensures Merge(SliceBlocks(lots, from, to)) == Slices(lots, BLOCK_PV * from, BLOCK_PV * to)
  {
    hide Slices, Units, TotalPv, SliceBlocks, Merge, Expand;
    SliceBlocksUnits(lots, from, to);
    MergeKeepsUnits(SliceBlocks(lots, from, to));
    SlicesAreUnits(lots, BLOCK_PV * from, BLOCK_PV * to);
    SlicesAreMaximal(lots, BLOCK_PV * from, BLOCK_PV * to);
    MaximalIsUnique(Merge(SliceBlocks(lots, from, to)), Slices(lots, BLOCK_PV * from, BLOCK_PV * to));
  }

  /* ----- Conservation and price of one block ----- */

  function SidePv(segments: seq<Segment>, side: Side): int {
    if segments == [] then 0
    else
      var n := |segments| - 1;
      SidePv(segments[..n], side) + if segments[n].side == side then segments[n].pv else 0
  }

  lemma {:induction false} SidePvAppend(a: seq<Segment>, b: seq<Segment>, side: Side)
    ensures SidePv(a + b, side) == SidePv(a, side) + SidePv(b, side)
  {
    if b == [] {
      assert a + b == a;
    } else {
      var n := |b| - 1;
      assert (a + b)[..|a| + n] == a + b[..n];
      SidePvAppend(a, b[..n], side);
    }
  }

  lemma {:induction false} WeightedAppend(a: seq<Segment>, b: seq<Segment>)
    ensures Weighted(a + b) == Weighted(a) + Weighted(b)
  {
    if b == [] {
      assert a + b == a;
    } else {
      var n := |b| - 1;
      assert (a + b)[..|a| + n] == a + b[..n];
      WeightedAppend(a, b[..n]);
    }
  }

  lemma {:induction false} SlicesPvLast(a: seq<Slice>, s: Slice)
    ensures SlicesPv(a + [s]) == SlicesPv(a) + s.pv
  {
    if a == [] {
      assert a + [s] == [s];
      assert [s][1..] == [];
    } else {
      assert (a + [s])[1..] == a[1..] + [s];
      SlicesPvLast(a[1..], s);
    }
  }

  ghost predicate ValidFactors(slices: seq<Slice>) {
    forall i :: 0 <= i < |slices| ==> 0 < slices[i].pv && slices[i].lot.source.valid
  }

  ghost predicate AllFrom(slices: seq<Slice>, kind: Kind) {
    forall i :: 0 <= i < |slices| ==> slices[i].lot.source.kind == kind
  }

  // One leg's share of a block: its PV is all on its side, and its weight lies between the
  // two factors, on the upper one when every source came through the payment provider.
  lemma {:induction false} LegWeight(side: Side, k: int, slices: seq<Slice>)
    requires ValidFactors(slices)
    ensures var r := Render(side, k, slices);
            && SidePv(r, side) == SlicesPv(slices)
            && SidePv(r, if side == L then R else L) == 0
            && 9700 * SlicesPv(slices) <= Weighted(r) <= 9900 * SlicesPv(slices)
            && (AllFrom(slices, NOWPayments) ==> Weighted(r) == 9900 * SlicesPv(slices))
  {
    if slices != [] {
      var n := |slices| - 1;
      var init, last := slices[..n], slices[n];
      assert slices == init + [last];
      LegWeight(side, k, init);
      SlicesPvLast(init, last);
      RenderAppend(side, k, init, last);
      var r, s := Render(side, k, init), SegmentOf(side, k, last);
      assert (r + [s])[..|r|] == r;
      assert s.factorBps == (if last.lot.source.kind == NOWPayments then 9900 else 9700);
    }
  }

  lemma {:induction false} SlicesAreValid(lots: seq<Lot>, start: int, end: int)
    requires AllPositive(lots) && forall i :: 0 <= i < |lots| ==> lots[i].source.valid
    ensures ValidFactors(Slices(lots, start, end))
    ensures (forall i :: 0 <= i < |lots| ==> lots[i].source.kind == NOWPayments) ==>
              AllFrom(Slices(lots, start, end), NOWPayments)
  {
    SlicesAreProper(lots, start, end);
    hide Slices;
    var s := Slices(lots, start, end);
    forall i | 0 <= i < |s| ensures 0 < s[i].pv && s[i].lot in lots { assert Within(lots, s[i]); }
  }

  ghost predicate ValidLeg(lots: seq<Lot>) {
    GoodLeg(lots) && forall i :: 0 <= i < |lots| ==> lots[i].source.valid
  }

  ghost predicate ProviderOnly(lots: seq<Lot>) {
    forall i :: 0 <= i < |lots| ==> lots[i].source.kind == NOWPayments
  }

  lemma {:induction false} BlockWeight(left: seq<Lot>, right: seq<Lot>, k: int)
    requires ValidLeg(left) && ValidLeg(right)
    requires 1 <= k && BLOCK_PV * k <= TotalPv(left) && BLOCK_PV * k <= TotalPv(right)
    ensures var segments := BlockSegmentsAt(left, right, k);
            && SidePv(segments, L) == BLOCK_PV && SidePv(segments, R) == BLOCK_PV
            && 9_700_000 <= Weighted(segments) <= 9_900_000
            && (ProviderOnly(left) && ProviderOnly(right) ==> Weighted(segments) == 9_900_000)
  {
    hide Slices, TotalPv, Render, SidePv, Weighted;
    var a, b := Slices(left, BLOCK_PV * (k - 1), BLOCK_PV * k), Slices(right, BLOCK_PV * (k - 1), BLOCK_PV * k);
    SlicesTotal(left, BLOCK_PV * (k - 1), BLOCK_PV * k);
    SlicesTotal(right, BLOCK_PV * (k - 1), BLOCK_PV * k);
    SlicesAreValid(left, BLOCK_PV * (k - 1), BLOCK_PV * k);
    SlicesAreValid(right, BLOCK_PV * (k - 1), BLOCK_PV * k);
    LegWeight(L, k, a);
    LegWeight(R, k, b);
    SidePvAppend(Render(L, k, a), Render(R, k, b), L);
    SidePvAppend(Render(L, k, a), Render(R, k, b), R);
    WeightedAppend(Render(L, k, a), Render(R, k, b));
  }

  // PV of one kind of payment in a leg's share of a block.
  function KindPv(slices: seq<Slice>, kind: Kind): int {
    if slices == [] then 0
    else KindPv(slices[..|slices| - 1], kind)
         + if slices[|slices| - 1].lot.source.kind == kind then slices[|slices| - 1].pv else 0
  }

  /** A leg's share weighs 99 per cent of its provider PV and 97 per cent of its manual PV. */
  lemma {:induction false} WeightByKind(side: Side, k: int, slices: seq<Slice>)
    requires ValidFactors(slices)
    ensures Weighted(Render(side, k, slices)) ==
            9900 * KindPv(slices, NOWPayments) + 9700 * KindPv(slices, Manual)
  {
    if slices != [] {
      var n := |slices| - 1;
      assert slices == slices[..n] + [slices[n]];
      WeightByKind(side, k, slices[..n]);
      RenderAppend(side, k, slices[..n], slices[n]);
      var r, s := Render(side, k, slices[..n]), SegmentOf(side, k, slices[n]);
      assert (r + [s])[..|r|] == r;
    }
  }

  // Every block is worth its weight times the unit, unrounded.
  ghost predicate Priced(blocks: seq<BlockAllocation>, unit: int) {
    forall i :: 0 <= i < |blocks| ==>
      && blocks[i].nominalUsd == unit && blocks[i].meanFactorE7 == Weighted(blocks[i].segments)
      && blocks[i].exactE7 == unit * Weighted(blocks[i].segments)
  }

  lemma {:induction false} BlocksArePriced(left: seq<Lot>, right: seq<Lot>, from: int, to: int, unit: int)
    ensures Priced(Blocks(left, right, from, to, unit), unit)
    decreases Max(to - from, 0)
  {
    hide Weighted, BlockSegmentsAt;
    if from < to { BlocksArePriced(left, right, from, to - 1, unit); }
  }

  ghost predicate Numbered(blocks: seq<BlockAllocation>, first: int) {
    forall i :: 0 <= i < |blocks| ==>
      && blocks[i].index == first + i
      && SidePv(blocks[i].segments, L) == 500
      && SidePv(blocks[i].segments, R) == 500
  }

  // Every new block is the next lifetime block and takes 500 PV from each leg.
  lemma {:induction false} BlocksAreNumbered(left: seq<Lot>, right: seq<Lot>, from: int, to: int, unit: int)
    requires ValidLeg(left) && ValidLeg(right) && 0 <= from <= to
    requires BLOCK_PV * to <= TotalPv(left) && BLOCK_PV * to <= TotalPv(right)
    ensures Numbered(Blocks(left, right, from, to, unit), from + 1)
    decreases Max(to - from, 0)
  {
    hide TotalPv, SidePv, Weighted, BlockSegmentsAt;
    if from < to {
      BlocksAreNumbered(left, right, from, to - 1, unit);
      BlockWeight(left, right, to);
    }
  }

  lemma {:induction false} ExactBounds(left: seq<Lot>, right: seq<Lot>, from: int, to: int, unit: int)
    requires ValidLeg(left) && ValidLeg(right) && 0 <= from <= to && (unit == 10 || unit == 50)
    requires BLOCK_PV * to <= TotalPv(left) && BLOCK_PV * to <= TotalPv(right)
    ensures var exact, nominal := ExactOf(Blocks(left, right, from, to, unit)), unit * (to - from);
            && 9_700_000 * nominal <= exact <= 9_900_000 * nominal
            && (ProviderOnly(left) && ProviderOnly(right) ==> exact == 9_900_000 * nominal)
    decreases Max(to - from, 0)
  {
    hide TotalPv, Weighted, BlockSegmentsAt, ExactOf, Blocks;
    if from < to {
      ExactBounds(left, right, from, to - 1, unit);
      BlockWeight(left, right, to);
      UnitTimes(unit, Weighted(BlockSegmentsAt(left, right, to)));
      UnitDistributes(unit, to - from - 1);
      BlocksLast(left, right, from, to, unit);
      PriceStep(Blocks(left, right, from, to - 1, unit), left, right, from, to, unit);
    } else {
      NoBlocks(left, right, from, unit);
    }
  }

  lemma {:induction false} BlocksLast(left: seq<Lot>, right: seq<Lot>, from: int, to: int, unit: int)
    requires from < to
    ensures Blocks(left, right, from, to, unit) ==
            Blocks(left, right, from, to - 1, unit) + [BlockOf(BlockSegmentsAt(left, right, to), to, unit)]
  {
  }

  lemma {:induction false} UnitTimes(unit: int, w: int)
    requires (unit == 10 || unit == 50) && 9_700_000 <= w <= 9_900_000
    ensures 9_700_000 * unit <= unit * w <= 9_900_000 * unit
    ensures w == 9_900_000 ==> unit * w == 9_900_000 * unit
  {
    if unit == 10 { assert unit * w == 10 * w; } else { assert unit * w == 50 * w; }
  }

  lemma {:induction false} UnitDistributes(unit: int, n: int)
    ensures unit * (n + 1) == unit * n + unit
  {
  }

  lemma {:induction false} SortedLegIsValid(lots: seq<Lot>, asOf: int, ids: set<string>, sequences: set<nat>)
    requires LotsOk(lots, asOf, ids, sequences)
    ensures ValidLeg(Sort(lots)) && TotalPv(Sort(lots)) == TotalPv(lots)
    ensures ProviderOnly(lots) ==> ProviderOnly(Sort(lots))
  {
    SortedLegIsGood(lots, asOf, ids, sequences);
    SortIsPermutation(lots);
    hide Sort, TotalPv;
    var s := Sort(lots);
    forall i | 0 <= i < |s| ensures s[i].source.valid && (ProviderOnly(lots) ==> s[i].source.kind == NOWPayments) {
      SameElements(lots, s, s[i]);
      var x :| 0 <= x < |lots| && lots[x] == s[i];
      assert LotOk(lots[x], asOf, ids, sequences);
    }
  }

  ghost predicate Conserves(req: PreviewRequest, p: Preview) {
    && p.carryLeft + 500 * p.matchedBlocks == TotalPv(req.left)
    && p.carryRight + 500 * p.matchedBlocks == TotalPv(req.right)
    && 0 <= p.carryLeft && 0 <= p.carryRight && (p.carryLeft < 500 || p.carryRight < 500)
    && p.matchedBlocks == req.claimedBlocks + p.newBlocks
    && |p.blocks| == p.newBlocks
    && Numbered(p.blocks, req.claimedBlocks + 1)
  }

  lemma {:induction false} LegsOfAccepted(req: PreviewRequest)
    requires PreviewSpec(req).Ok?
    ensures var l, r := Sort(req.left), Sort(req.right);
            && ValidLeg(l) && ValidLeg(r)
            && TotalPv(l) == TotalPv(req.left) && TotalPv(r) == TotalPv(req.right)
            && (ProviderOnly(req.left) ==> ProviderOnly(l)) && (ProviderOnly(req.right) ==> ProviderOnly(r))
  {
    SortedLegIsValid(req.left, req.asOf, {}, {});
    SortedLegIsValid(req.right, req.asOf, IdsOf(req.left), SequencesOf(req.left));
  }

  /**
   * An accepted preview conserves PV on both legs, leaves less than one block unmatched on
   * the shorter leg, and grants between 97% and 99% of the nominal amount; exactly 99% when
   * every lot was paid through the provider.
   */
  lemma {:induction false} PreviewConserves(req: PreviewRequest)
    requires PreviewSpec(req).Ok?
    ensures var p := PreviewSpec(req).value;
            && Conserves(req, p) && Priced(p.blocks, if req.founder then 50 else 10)
            && p.exactE7 == ExactOf(p.blocks)
            && p.entitlementCents * 100_000 <= p.exactE7 < (p.entitlementCents + 1) * 100_000
            && p.nominalUsd == (if req.founder then 50 else 10) * p.newBlocks
            && 97 * p.nominalUsd <= p.entitlementCents <= 99 * p.nominalUsd
            && (ProviderOnly(req.left) && ProviderOnly(req.right) ==> p.entitlementCents == 99 * p.nominalUsd)
  {
    hide Sort, TotalPv, Numbered, Blocks, ExactOf, LotsOk, HashAt, PreviewSpec, GoodLeg, ProviderOnly, AllSegments,
      Priced;
    ClaimHistory.AcceptedIsGood(req);
    LegsOfAccepted(req);
    var l, r := Sort(req.left), Sort(req.right);
    BlocksAreNumbered(l, r, req.claimedBlocks, Matched(l, r), UnitUsd(req.founder));
    BlocksArePriced(l, r, req.claimedBlocks, Matched(l, r), UnitUsd(req.founder));
    ExactBounds(l, r, req.claimedBlocks, Matched(l, r), UnitUsd(req.founder));
  }

  /**
   * A preview is given exactly for a request whose purchases are all reviewed, activated by
   * then, and told apart by identifier and activation number across both legs; whose claims
   * are covered by both legs and still described by their digest; and which asks for no more
   * than 10 000 new blocks.
   */
  lemma {:induction false} AcceptedIff(req: PreviewRequest)
    ensures var all, l, r := req.left + req.right, TotalPv(req.left), TotalPv(req.right);
            PreviewSpec(req).Ok? <==>
              && 0 < req.asOf < 3_651_694 * 86_400_000_000_000 && |all| <= 10_000
              && (forall i :: 0 <= i < |all| ==>
                    all[i].source.valid && all[i].source.effectiveAt <= req.asOf && all[i].sequence != 0)
              && (forall i, j :: 0 <= i < j < |all| ==>
                    all[i].source.id != all[j].source.id && all[i].sequence != all[j].sequence)
              && l <= 9_223_372_036_854_775_807 && r <= 9_223_372_036_854_775_807
              && 0 <= req.claimedBlocks && 500 * req.claimedBlocks <= l && 500 * req.claimedBlocks <= r
              && req.claimedHash == (if req.claimedBlocks == 0 then NoHash
                                     else Hash(DigestOf(Sort(req.left), Sort(req.right), 500 * req.claimedBlocks)))
              && (l < 500 * (req.claimedBlocks + 10_001) || r < 500 * (req.claimedBlocks + 10_001))
  {
    hide Sort, TotalPv, DigestOf;
    LegsOkIff(req.left, req.right, req.asOf);
    hide LotsOk;
    if WellFormed(req) {
      SortedLegIsGood(req.left, req.asOf, {}, {});
      SortedLegIsGood(req.right, req.asOf, IdsOf(req.left), SequencesOf(req.left));
    }
    hide GoodLeg, IdsOf, SequencesOf;
  }

  lemma {:induction false} LegsOkIff(left: seq<Lot>, right: seq<Lot>, asOf: int)
    ensures LotsOk(left, asOf, {}, {}) && LotsOk(right, asOf, IdsOf(left), SequencesOf(left)) <==>
            var all := left + right;
            && (forall i :: 0 <= i < |all| ==>
                  all[i].source.valid && all[i].source.effectiveAt <= asOf && all[i].sequence != 0)
            && (forall i, j :: 0 <= i < j < |all| ==>
                  all[i].source.id != all[j].source.id && all[i].sequence != all[j].sequence)
            && TotalPv(left) <= MAX_INT64 && TotalPv(right) <= MAX_INT64
  {
    hide TotalPv;
    var all := left + right;
    if LotsOk(left, asOf, {}, {}) && LotsOk(right, asOf, IdsOf(left), SequencesOf(left)) {
      forall i | 0 <= i < |all|
        ensures all[i].source.valid && all[i].source.effectiveAt <= asOf && all[i].sequence != 0
        ensures forall j :: i < j < |all| ==>
                  all[i].source.id != all[j].source.id && all[i].sequence != all[j].sequence
      {
        OkTogether(left, right, asOf, i);
      }
    }
    if (forall i :: 0 <= i < |all| ==>
          all[i].source.valid && all[i].source.effectiveAt <= asOf && all[i].sequence != 0)
       && (forall i, j :: 0 <= i < j < |all| ==>
             all[i].source.id != all[j].source.id && all[i].sequence != all[j].sequence)
       && TotalPv(left) <= MAX_INT64 && TotalPv(right) <= MAX_INT64
    {
      OkApart(left, right, asOf);
    }
  }

  lemma {:induction false} OkTogether(left: seq<Lot>, right: seq<Lot>, asOf: int, i: nat)
    requires LotsOk(left, asOf, {}, {}) && LotsOk(right, asOf, IdsOf(left), SequencesOf(left))
    requires i < |left + right|
    ensures var all := left + right;
            && all[i].source.valid && all[i].source.effectiveAt <= asOf && all[i].sequence != 0
            && forall j :: i < j < |all| ==>
                 all[i].source.id != all[j].source.id && all[i].sequence != all[j].sequence
  {
    hide TotalPv;
    var all := left + right;
    if i < |left| { assert LotOk(left[i], asOf, {}, {}); }
    else { assert LotOk(right[i - |left|], asOf, IdsOf(left), SequencesOf(left)); }
    forall j | i < j < |all| ensures all[i].source.id != all[j].source.id && all[i].sequence != all[j].sequence {
      if i < |left| <= j { assert LotOk(right[j - |left|], asOf, IdsOf(left), SequencesOf(left)); }
    }
  }

  lemma {:induction false} OkApart(left: seq<Lot>, right: seq<Lot>, asOf: int)
    requires var all := left + right;
             && (forall i :: 0 <= i < |all| ==>
                   all[i].source.valid && all[i].source.effectiveAt <= asOf && all[i].sequence != 0)
             && (forall i, j :: 0 <= i < j < |all| ==>
                   all[i].source.id != all[j].source.id && all[i].sequence != all[j].sequence)
    requires TotalPv(left) <= MAX_INT64 && TotalPv(right) <= MAX_INT64
    ensures LotsOk(left, asOf, {}, {}) && LotsOk(right, asOf, IdsOf(left), SequencesOf(left))
  {
    hide TotalPv;
    var all := left + right;
    assert all[..|left|] == left && all[|left|..] == right;
    forall i | 0 <= i < |left| ensures LotOk(left[i], asOf, {}, {}) {
      assert all[i] == left[i];
    }
    forall j | 0 <= j < |right| ensures LotOk(right[j], asOf, IdsOf(left), SequencesOf(left)) {
      assert all[|left| + j] == right[j];
      forall i | 0 <= i < |left| ensures left[i].source.id != right[j].source.id
          && left[i].sequence != right[j].sequence {
        assert all[i] == left[i];
      }
    }
    forall i, j | 0 <= i < j < |left|
      ensures left[i].source.id != left[j].source.id && left[i].sequence != left[j].sequence
    {
      assert all[i] == left[i] && all[j] == left[j];
    }
    forall i, j | 0 <= i < j < |right|
      ensures right[i].source.id != right[j].source.id && right[i].sequence != right[j].sequence
    {
      assert all[|left| + i] == right[i] && all[|left| + j] == right[j];
    }
  }
}
