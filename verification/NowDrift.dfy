/**
 * When a week's claims have drifted: exactly when the genealogy has moved one of the sales up to
 * the last claimed one into, or out of, a leg.
 */
module NowDrift {
  import opened Prelude
  import opened FifoSlices
  import opened FifoAllocation
  import opened LotOrder
  import opened BinaryPreview
  import opened ClaimHistory
  import opened NowVolumes

  /* ----- The lots a cut names ----- */

  function LotsNamed(slices: seq<Slice>): seq<Lot> {
    if slices == [] then [] else [slices[0].lot] + LotsNamed(slices[1..])
  }

  // A cut from the front names the lots up to the one that completes it.
  lemma {:induction false} NamesPrefix(lots: seq<Lot>, start: int, end: int) returns (j: nat)
    requires AllPositive(lots) && start <= 0
    ensures j <= |lots| && LotsNamed(Slices(lots, start, end)) == lots[..j]
    ensures j < |lots| ==> end <= TotalPv(lots[..j])
    ensures j > 0 ==> TotalPv(lots[..j - 1]) < end
  {
    if lots == [] {
      j := 0;
    } else if end <= 0 {
      EmptyRange(lots, start, end);
      j := 0;
    } else {
      var pv, rest := lots[0].source.pv, lots[1..];
      var i := NamesPrefix(rest, start - pv, end - pv);
      SlicesUnfold(lots, start, end);
      hide Slices;
      j := i + 1;
      var tail := Slices(rest, start - pv, end - pv);
      var s := Slice(lots[0], 0, Min(end, pv));
      assert ([s] + tail)[1..] == tail;
      assert lots[..j] == [lots[0]] + rest[..i];
      assert lots[..j][1..] == rest[..i];
      if i > 0 { assert lots[..i][1..] == rest[..i - 1]; }
    }
  }

  // A leg that is just long enough is named whole.
  lemma {:induction false} NamesAll(lots: seq<Lot>, end: int)
    requires AllPositive(lots) && lots != [] && TotalPv(lots[..|lots| - 1]) < end
    ensures LotsNamed(Slices(lots, 0, end)) == lots
  {
    var j := NamesPrefix(lots, 0, end);
    hide Slices, LotsNamed;
    if j < |lots| {
      var most := lots[..|lots| - 1];
      assert most[..j] == lots[..j];
      PrefixFits(most, j);
      assert false;
    }
    assert lots[..|lots|] == lots;
  }

  /* ----- How many sales a claim reaches ----- */

  // The number of sales up to the one that completes the first pv units of a leg.
  function Reach(members: Members, sales: seq<Sale>, end: int, a: int, side: Side, pv: int): (k: nat)
    ensures k <= |sales|
    decreases |sales|
  {
    if sales == [] || TotalPv(LegLots(members, sales[..|sales| - 1], end, a, side)) < pv then |sales|
    else Reach(members, sales[..|sales| - 1], end, a, side, pv)
  }

  lemma {:induction false} ReachIs(members: Members, sales: seq<Sale>, end: int, a: int, side: Side, pv: int)
    requires 0 <= pv <= TotalPv(LegLots(members, sales, end, a, side))
    ensures var k := Reach(members, sales, end, a, side, pv);
            && pv <= TotalPv(LegLots(members, sales[..k], end, a, side))
            && (k > 0 ==> TotalPv(LegLots(members, sales[..k - 1], end, a, side)) < pv)
    decreases |sales|
  {
    hide LegLots, TotalPv;
    var k := Reach(members, sales, end, a, side, pv);
    if k == |sales| {
      assert sales[..k] == sales;
    } else {
      var shorter := sales[..|sales| - 1];
      ReachIs(members, shorter, end, a, side, pv);
      assert shorter[..k] == sales[..k];
      if k > 0 { assert shorter[..k - 1] == sales[..k - 1]; }
    }
  }

  // The last lot of a leg is sale number k.
  ghost predicate Ends(leg: seq<Lot>, k: int) { leg != [] && leg[|leg| - 1].sequence == k }

  // The last sale reached has joined the leg.
  lemma {:induction false} LastReached(members: Members, sales: seq<Sale>, end: int, a: int, side: Side, pv: int)
    requires 0 <= pv <= TotalPv(LegLots(members, sales, end, a, side))
    requires Reach(members, sales, end, a, side, pv) > 0
    ensures var k := Reach(members, sales, end, a, side, pv);
            var leg := LegLots(members, sales[..k], end, a, side);
            && Counts(members, sales[k - 1], end, a, side)
            && Ends(leg, k)
            && leg[..|leg| - 1] == LegLots(members, sales[..k - 1], end, a, side)
  {
    ReachIs(members, sales, end, a, side, pv);
    var k := Reach(members, sales, end, a, side, pv);
    assert sales[..k][..k - 1] == sales[..k - 1];
    hide Reach, TotalPv, Counts;
  }

  lemma {:induction false} LegIsPositive(members: Members, sales: seq<Sale>, end: int, a: int, side: Side)
    ensures AllPositive(LegLots(members, sales, end, a, side))
  {
    LegLotsAre(members, sales, end, a, side);
    var lots := LegLots(members, sales, end, a, side);
    hide LegLots, SourceOf, Hangs;
    forall i | 0 <= i < |lots| ensures 0 < lots[i].source.pv {
      assert FromSale(members, sales, end, a, side, lots[i]);
      SourceKeeps(sales[lots[i].sequence - 1]);
    }
  }

  // Every counted sale is in the leg under its number.
  lemma {:induction false} CountedIsThere(members: Members, sales: seq<Sale>, end: int, a: int, side: Side, i: nat)
      returns (x: nat)
    requires i < |sales| && Counts(members, sales[i], end, a, side)
    ensures x < |LegLots(members, sales, end, a, side)| && LegLots(members, sales, end, a, side)[x].sequence == i + 1
    decreases |sales|
  {
    hide Counts;
    if i == |sales| - 1 {
      x := |LegLots(members, sales, end, a, side)| - 1;
    } else {
      x := CountedIsThere(members, sales[..|sales| - 1], end, a, side, i);
    }
  }

  lemma {:induction false} SameCounts(
      members: Members, members': Members, sales: seq<Sale>, end: int, end': int, a: int, side: Side)
    requires forall i :: 0 <= i < |sales| ==>
               Counts(members, sales[i], end, a, side) == Counts(members', sales[i], end', a, side)
    ensures LegLots(members, sales, end, a, side) == LegLots(members', sales, end', a, side)
    decreases |sales|
  {
    hide Counts;
    if sales != [] { SameCounts(members, members', sales[..|sales| - 1], end, end', a, side); }
  }

  /* ----- The claimed part of one leg ----- */

  // No sale up to the last one reached joined the leg and would not now, or the other way round.
  ghost predicate Unmoved(
      members: Members, members': Members, sales: seq<Sale>, end: int, end': int, a: int, side: Side, k: nat)
    requires k <= |sales|
  {
    forall i :: 0 <= i < k ==> Counts(members, sales[i], end, a, side) == Counts(members', sales[i], end', a, side)
  }

  lemma {:induction false} UnmovedKeepsClaim(
      members: Members, members': Members, sales: seq<Sale>, more: seq<Sale>, end: int, end': int, a: int, side: Side,
      pv: int)
    requires 0 <= pv <= TotalPv(LegLots(members, sales, end, a, side))
    requires Unmoved(members, members', sales, end, end', a, side, Reach(members, sales, end, a, side, pv))
    ensures Slices(LegLots(members, sales, end, a, side), 0, pv) ==
            Slices(LegLots(members', sales + more, end', a, side), 0, pv)
  {
    var k := Reach(members, sales, end, a, side, pv);
    ReachIs(members, sales, end, a, side, pv);
    hide Reach, LegLots, Counts, TotalPv, Slices;
    var all := sales + more;
    assert all[..k] == sales[..k];
    SameCounts(members, members', sales[..k], end, end', a, side);
    var added := LegSplits(members, sales, end, a, side, k);
    var added' := LegSplits(members', all, end', a, side, k);
    LegIsPositive(members, sales, end, a, side);
    LegIsPositive(members', all, end', a, side);
    var first := LegLots(members, sales[..k], end, a, side);
    LegIsPositive(members, sales[..k], end, a, side);
    PositiveSuffix(first, added);
    PositiveSuffix(first, added');
    SlicesIgnoreLaterLots(first, added, 0, pv);
    SlicesIgnoreLaterLots(first, added', 0, pv);
  }

  // Both legs come from sales that agree up to the last lot of the first one.
  lemma {:induction false} CountedInBoth(
      members: Members, members': Members, sales: seq<Sale>, all: seq<Sale>, end: int, end': int, a: int, side: Side,
      j: nat, i: nat)
    requires sales <= all && i < |sales| && Counts(members, sales[i], end, a, side)
    requires var leg := LegLots(members', all, end', a, side);
             j <= |leg| && LegLots(members, sales, end, a, side) == leg[..j]
    ensures Counts(members', all[i], end', a, side)
  {
    var leg, leg' := LegLots(members, sales, end, a, side), LegLots(members', all, end', a, side);
    LegLotsAre(members', all, end', a, side);
    hide LegLots, Counts, SourceOf;
    var x := CountedIsThere(members, sales, end, a, side, i);
    assert leg'[x] == leg[x] && FromSale(members', all, end', a, side, leg'[x]);
  }

  lemma {:induction false} CountedInFirst(
      members: Members, members': Members, sales: seq<Sale>, all: seq<Sale>, end: int, end': int, a: int, side: Side,
      j: nat, i: nat)
    requires sales <= all && i < |sales| && Counts(members', all[i], end', a, side)
    requires var leg := LegLots(members', all, end', a, side);
             j <= |leg| && LegLots(members, sales, end, a, side) == leg[..j]
    requires Ends(LegLots(members, sales, end, a, side), |sales|)
    ensures Counts(members, sales[i], end, a, side)
  {
    var leg, leg' := LegLots(members, sales, end, a, side), LegLots(members', all, end', a, side);
    LegLotsAre(members, sales, end, a, side);
    LegLotsAre(members', all, end', a, side);
    hide LegLots, Counts, SourceOf;
    var x := CountedIsThere(members', all, end', a, side, i);
    assert leg[|leg| - 1] == leg'[j - 1];
    assert x < j && leg[x] == leg'[x];
    assert FromSale(members, sales, end, a, side, leg[x]);
  }

  // What a leg names of its first k sales is all there, and nothing else is, in a leg named alike.
  lemma {:induction false} SameNamesSameCounts(
      members: Members, members': Members, sales: seq<Sale>, all: seq<Sale>, end: int, end': int, a: int, side: Side,
      k: nat, j: nat)
    requires sales <= all && k <= |sales|
    requires Ends(LegLots(members, sales[..k], end, a, side), k)
    requires j <= |LegLots(members', all, end', a, side)|
    requires LegLots(members, sales[..k], end, a, side) == LegLots(members', all, end', a, side)[..j]
    ensures Unmoved(members, members', sales, end, end', a, side, k)
  {
    hide LegLots, Counts, Ends;
    forall i | 0 <= i < k ensures Counts(members, sales[i], end, a, side) == Counts(members', sales[i], end', a, side) {
      assert sales[..k][i] == sales[i] == all[i];
      if Counts(members, sales[i], end, a, side) {
        CountedInBoth(members, members', sales[..k], all, end, end', a, side, j, i);
      }
      if Counts(members', sales[i], end', a, side) {
        CountedInFirst(members, members', sales[..k], all, end, end', a, side, j, i);
      }
    }
  }

  lemma {:induction false} SameClaimIsUnmoved(
      members: Members, members': Members, sales: seq<Sale>, more: seq<Sale>, end: int, end': int, a: int, side: Side,
      pv: int)
    requires 0 <= pv <= TotalPv(LegLots(members, sales, end, a, side))
    requires Slices(LegLots(members, sales, end, a, side), 0, pv) ==
             Slices(LegLots(members', sales + more, end', a, side), 0, pv)
    ensures Unmoved(members, members', sales, end, end', a, side, Reach(members, sales, end, a, side, pv))
  {
    var k := Reach(members, sales, end, a, side, pv);
    if k > 0 {
      ReachIs(members, sales, end, a, side, pv);
      LastReached(members, sales, end, a, side, pv);
      hide Reach, LegLots, Counts, TotalPv, Slices, LotsNamed, Unmoved;
      var all := sales + more;
      assert all[..k] == sales[..k];
      var leg := LegLots(members, sales[..k], end, a, side);
      var added := LegSplits(members, sales, end, a, side, k);
      LegIsPositive(members, sales, end, a, side);
      LegIsPositive(members, sales[..k], end, a, side);
      PositiveSuffix(leg, added);
      SlicesIgnoreLaterLots(leg, added, 0, pv);
      NamesAll(leg, pv);
      LegIsPositive(members', all, end', a, side);
      var j := NamesPrefix(LegLots(members', all, end', a, side), 0, pv);
      SameNamesSameCounts(members, members', sales, all, end, end', a, side, k, j);
    }
  }

  /* ----- The next week ----- */

  // The buyer of a sale hangs in the leg under one genealogy and not under the other.
  ghost predicate Relinked(members: Members, members': Members, s: Sale, a: int, side: Side) {
    SourceOf(s).Ok? && Hangs(members, s.affiliate, a, side, DEPTH) != Hangs(members', s.affiliate, a, side, DEPTH)
  }

  // Among the sales that the first pv units of a leg reach, one has been moved in or out.
  ghost predicate ClaimMoved(
      members: Members, members': Members, sales: seq<Sale>, end: int, a: int, side: Side, pv: int) {
    exists i :: 0 <= i < Reach(members, sales, end, a, side, pv) && Relinked(members, members', sales[i], a, side)
  }

  lemma {:induction false} ReachedInTime(
      members: Members, sales: seq<Sale>, more: seq<Sale>, end: int, a: int, side: Side, pv: int, i: int)
    requires ValidSales(sales + more) && 0 <= pv <= TotalPv(LegLots(members, sales, end, a, side))
    requires 0 <= i < Reach(members, sales, end, a, side, pv)
    ensures sales[i].activated < end
  {
    var k := Reach(members, sales, end, a, side, pv);
    LastReached(members, sales, end, a, side, pv);
    hide Reach, LegLots, TotalPv, SourceOf, Hangs;
    var all := sales + more;
    assert all[i] == sales[i] && all[k - 1] == sales[k - 1];
    assert i < k - 1 ==> all[i].activated <= all[k - 1].activated;
  }

  lemma {:induction false} MovedIffCounted(
      members: Members, members': Members, sales: seq<Sale>, more: seq<Sale>, end: int, end': int, a: int, side: Side,
      pv: int)
    requires ValidSales(sales + more) && end <= end'
    requires 0 <= pv <= TotalPv(LegLots(members, sales, end, a, side))
    ensures ClaimMoved(members, members', sales, end, a, side, pv) <==>
            !Unmoved(members, members', sales, end, end', a, side, Reach(members, sales, end, a, side, pv))
  {
    hide Reach, LegLots, TotalPv, SourceOf, Hangs, ValidSales;
    var k := Reach(members, sales, end, a, side, pv);
    forall i | 0 <= i < k
      ensures Relinked(members, members', sales[i], a, side) <==>
              Counts(members, sales[i], end, a, side) != Counts(members', sales[i], end', a, side)
    {
      ReachedInTime(members, sales, more, end, a, side, pv, i);
    }
    hide Counts, Relinked;
  }

  lemma {:induction false} LegIsSorted(members: Members, sales: seq<Sale>, end: int, a: int, side: Side)
    ensures Sort(LegLots(members, sales, end, a, side)) == LegLots(members, sales, end, a, side)
  {
    var leg := LegLots(members, sales, end, a, side);
    LegLotsAre(members, sales, end, a, side);
    hide LegLots, Sort;
    SortSorts(leg);
    SortIsPermutation(leg);
    SortedIsUnique(Sort(leg), leg);
  }

  lemma {:induction false} LegDriftIff(
      members: Members, members': Members, sales: seq<Sale>, more: seq<Sale>, end: int, end': int, a: int, side: Side,
      pv: int)
    requires ValidSales(sales + more) && end <= end'
    requires 0 <= pv <= TotalPv(LegLots(members, sales, end, a, side))
    ensures ClaimMoved(members, members', sales, end, a, side, pv) <==>
            Slices(Sort(LegLots(members', sales + more, end', a, side)), 0, pv) !=
            Slices(Sort(LegLots(members, sales, end, a, side)), 0, pv)
  {
    hide LegLots, Sort, Slices, TotalPv, Reach, Unmoved, ClaimMoved, ValidSales;
    LegIsSorted(members, sales, end, a, side);
    LegIsSorted(members', sales + more, end', a, side);
    MovedIffCounted(members, members', sales, more, end, end', a, side, pv);
    if Unmoved(members, members', sales, end, end', a, side, Reach(members, sales, end, a, side, pv)) {
      UnmovedKeepsClaim(members, members', sales, more, end, end', a, side, pv);
    } else if Slices(LegLots(members, sales, end, a, side), 0, pv) ==
              Slices(LegLots(members', sales + more, end', a, side), 0, pv) {
      SameClaimIsUnmoved(members, members', sales, more, end, end', a, side, pv);
    }
  }

  lemma {:induction false} ClaimIsInLegs(members: Members, sales: seq<Sale>, end: int, a: int, claimed: int,
      hash: ClaimHash, founder: bool)
    requires PreviewSpec(Request(members, sales, end, a, claimed, hash, founder)).Ok?
    ensures var prev := PreviewSpec(Request(members, sales, end, a, claimed, hash, founder)).value;
            var pv := BLOCK_PV * prev.matchedBlocks;
            && 0 <= pv <= TotalPv(LegLots(members, sales, end, a, L))
            && 0 <= pv <= TotalPv(LegLots(members, sales, end, a, R))
  {
    AcceptedIsGood(Request(members, sales, end, a, claimed, hash, founder));
    LegIsSorted(members, sales, end, a, L);
    LegIsSorted(members, sales, end, a, R);
    hide LegLots, Sort, TotalPv, Blocks, HashAt, LotsOk;
  }

  /**
   * The week after an accepted claim, with the genealogy changed in any way: the claim is
   * rejected as drift exactly if one of the sales its legs reached has been moved into or out
   * of its leg. Moves further down the lists, and moves within a leg, do no harm.
   */
  lemma {:induction false} DriftIffMoved(
      members: Members, members': Members, rank': map<int, int>, sales: seq<Sale>, more: seq<Sale>,
      end: int, end': int, a: int, claimed: int, hash: ClaimHash, founder: bool, founder': bool)
    requires Acyclic(members', rank') && ValidSales(sales + more) && end <= end' && ValidTime(end')
    requires FitsPv(members', sales + more, end', a)
    requires PreviewSpec(Request(members, sales, end, a, claimed, hash, founder)).Ok?
    ensures var prev := PreviewSpec(Request(members, sales, end, a, claimed, hash, founder)).value;
            var next := Request(members', sales + more, end', a, prev.matchedBlocks, prev.nextHash, founder');
            var pv := BLOCK_PV * prev.matchedBlocks;
            PreviewSpec(next) == Err(ClaimHistoryDrift) <==>
              || ClaimMoved(members, members', sales, end, a, L, pv)
              || ClaimMoved(members, members', sales, end, a, R, pv)
  {
    var first := Request(members, sales, end, a, claimed, hash, founder);
    AcceptedIsGood(first);
    ClaimIsInLegs(members, sales, end, a, claimed, hash, founder);
    var prev := PreviewSpec(first).value;
    var next := Request(members', sales + more, end', a, prev.matchedBlocks, prev.nextHash, founder');
    var pv := BLOCK_PV * prev.matchedBlocks;
    hide LegLots, PreviewSpec, WellFormed, Acyclic, ValidSales, FitsPv, GoodLeg, Matched, TotalPv, ClaimMoved, Sort,
      Slices;
    RequestIsWellFormed(members', rank', sales + more, end', a, prev.matchedBlocks, prev.nextHash, founder');
    LegDriftIff(members, members', sales, more, end, end', a, L, pv);
    LegDriftIff(members, members', sales, more, end, end', a, R, pv);
    DriftIff(first, next);
  }

  // Part of the claimed prefix of a leg.
  ghost predicate Claimed(leg: seq<Lot>, blocks: int, lot: Lot) {
    exists i :: 0 <= i < |Slices(Sort(leg), 0, BLOCK_PV * blocks)|
        && Slices(Sort(leg), 0, BLOCK_PV * blocks)[i].lot == lot
  }

  lemma {:induction false} ClaimedIsInLeg(leg: seq<Lot>, blocks: int, lot: Lot)
    requires AllPositive(Sort(leg)) && Claimed(leg, blocks, lot)
    ensures lot in leg
  {
    var slices := Slices(Sort(leg), 0, BLOCK_PV * blocks);
    SlicesAreProper(Sort(leg), 0, BLOCK_PV * blocks);
    SortIsPermutation(leg);
    SameElements(Sort(leg), leg, lot);
    hide Slices, Sort;
    var i :| 0 <= i < |slices| && slices[i].lot == lot;
    assert Within(Sort(leg), slices[i]);
  }

  /**
   * If a source that has been claimed from a leg no longer hangs in that leg, as after its buyer
   * was moved in the genealogy, the next week of this ancestor is rejected as drift.
   */
  lemma {:induction false} MovedClaimDrifts(prev: PreviewRequest, next: PreviewRequest, lot: Lot)
    requires Continues(prev, next) && WellFormed(next)
    requires (Claimed(prev.left, next.claimedBlocks, lot) && lot !in next.left)
             || (Claimed(prev.right, next.claimedBlocks, lot) && lot !in next.right)
    ensures PreviewSpec(next) == Err(ClaimHistoryDrift)
  {
    DriftIff(prev, next);
    SortedLegIsGood(next.left, next.asOf, {}, {});
    SortedLegIsGood(next.right, next.asOf, IdsOf(next.left), SequencesOf(next.left));
    hide Slices, Sort, PreviewSpec, WellFormed, Matched, Continues, TotalPv;
    if SameClaim(prev, next) {
      if Claimed(prev.left, next.claimedBlocks, lot) { ClaimedIsInLeg(next.left, next.claimedBlocks, lot); }
      if Claimed(prev.right, next.claimedBlocks, lot) { ClaimedIsInLeg(next.right, next.claimedBlocks, lot); }
    }
  }
}
