/**
 * What holds over every history of binary claims: claiming in instalments is claiming once.
 */
module ClaimHistory {
  import opened Prelude
  import opened FifoSlices
  import opened LotOrder
  import opened FifoAllocation
  import opened BinaryPreview

  /* ----- Blocks as a function of the claimed prefix ----- */

  lemma {:induction false} BlocksSplit(left: seq<Lot>, right: seq<Lot>, a: int, b: int, c: int, unit: int)
    requires a <= b <= c
    ensures Blocks(left, right, a, c, unit) == Blocks(left, right, a, b, unit) + Blocks(left, right, b, c, unit)
    decreases c - b
  {
    hide BlockOf, BlockSegmentsAt;
    var x := Blocks(left, right, a, b, unit);
    if b == c {
      assert x + [] == x;
    } else {
      BlocksSplit(left, right, a, b, c - 1, unit);
      AppendAssoc(x, Blocks(left, right, b, c - 1, unit), [BlockOf(BlockSegmentsAt(left, right, c), c, unit)]);
    }
  }

  // Two pairs of legs that agree on a prefix agree on every block cut from it.
  lemma {:induction false} SamePrefixSameBlocks(
      left: seq<Lot>, right: seq<Lot>, left': seq<Lot>, right': seq<Lot>, from: int, to: int, bound: int, unit: int)
    requires AllPositive(left) && AllPositive(right) && AllPositive(left') && AllPositive(right')
    requires 0 <= from && to <= bound
    requires Slices(left, 0, BLOCK_PV * bound) == Slices(left', 0, BLOCK_PV * bound)
    requires Slices(right, 0, BLOCK_PV * bound) == Slices(right', 0, BLOCK_PV * bound)
    ensures Blocks(left, right, from, to, unit) == Blocks(left', right', from, to, unit)
    decreases Max(to - from, 0)
  {
    hide Slices, Reslice, Render, Weighted;
    if from < to {
      SamePrefixSameBlocks(left, right, left', right', from, to - 1, bound, unit);
      var end, a, b := BLOCK_PV * bound, BLOCK_PV * (to - 1), BLOCK_PV * to;
      SlicesFromPrefix(left, 0, end, a, b);
      SlicesFromPrefix(right, 0, end, a, b);
      SlicesFromPrefix(left', 0, end, a, b);
      SlicesFromPrefix(right', 0, end, a, b);
    }
  }

  /* ----- Histories of accepted calls ----- */

  // `next` presents the claim that `prev` produced. Its lots and its unit price may be anything.
  ghost predicate Continues(prev: PreviewRequest, next: PreviewRequest) {
    && PreviewSpec(prev).Ok?
    && next.claimedBlocks == PreviewSpec(prev).value.matchedBlocks
    && next.claimedHash == PreviewSpec(prev).value.nextHash
  }

  ghost predicate AcceptedHistory(run: seq<PreviewRequest>) {
    && run != []
    && run[0].claimedBlocks == 0
    && (forall i :: 0 <= i < |run| ==> PreviewSpec(run[i]).Ok?)
    && (forall i :: 0 <= i < |run| - 1 ==> Continues(run[i], run[i + 1]))
  }

  ghost function HistoryBlocks(run: seq<PreviewRequest>): seq<BlockAllocation>
    requires forall i :: 0 <= i < |run| ==> PreviewSpec(run[i]).Ok?
  {
    if run == [] then []
    else HistoryBlocks(run[..|run| - 1]) + PreviewSpec(run[|run| - 1]).value.blocks
  }

  // For every block of a history, the unit price of the call that paid it.
  ghost function HistoryUnits(run: seq<PreviewRequest>): seq<int>
    requires forall i :: 0 <= i < |run| ==> PreviewSpec(run[i]).Ok?
  {
    if run == [] then []
    else HistoryUnits(run[..|run| - 1])
         + Repeat(UnitUsd(run[|run| - 1].founder), |PreviewSpec(run[|run| - 1]).value.blocks|)
  }

  function Repeat(unit: int, n: nat): seq<int> { seq(n, _ => unit) }

  // All blocks of a request's legs, claimed from nothing.
  ghost function FromScratch(req: PreviewRequest): seq<BlockAllocation> {
    Blocks(Sort(req.left), Sort(req.right), 0, Matched(Sort(req.left), Sort(req.right)), UnitUsd(req.founder))
  }

  // The same pieces of the same purchases under the same number, at another unit price.
  function Repriced(b: BlockAllocation, unit: int): BlockAllocation { BlockOf(b.segments, b.index, unit) }

  // Block by block the same, each at its own unit price.
  ghost predicate PaidAs(blocks: seq<BlockAllocation>, units: seq<int>, once: seq<BlockAllocation>) {
    && |blocks| == |units| == |once|
    && forall k :: 0 <= k < |blocks| ==> blocks[k] == Repriced(once[k], units[k])
  }

  lemma {:induction false} BlockAt(left: seq<Lot>, right: seq<Lot>, from: int, to: int, unit: int, k: int)
    requires 0 <= k < to - from
    ensures Blocks(left, right, from, to, unit)[k] ==
            BlockOf(BlockSegmentsAt(left, right, from + k + 1), from + k + 1, unit)
    decreases Max(to - from, 0)
  {
    hide BlockOf, BlockSegmentsAt;
    if k < to - from - 1 { BlockAt(left, right, from, to - 1, unit, k); }
  }

  // Blocks cut at one unit price are those cut at another, repriced.
  lemma {:induction false} RepricedBlocks(
      left: seq<Lot>, right: seq<Lot>, from: int, to: int, unit: int, unit': int)
    ensures PaidAs(Blocks(left, right, from, to, unit), Repeat(unit, Max(to - from, 0)),
                   Blocks(left, right, from, to, unit'))
  {
    hide Weighted, BlockSegmentsAt, Blocks;
    var n := Max(to - from, 0);
    forall k | 0 <= k < n
      ensures Blocks(left, right, from, to, unit)[k] ==
              Repriced(Blocks(left, right, from, to, unit')[k], Repeat(unit, n)[k])
    {
      BlockAt(left, right, from, to, unit, k);
      BlockAt(left, right, from, to, unit', k);
    }
  }

  lemma {:induction false} PaidAsThrough(
      blocks: seq<BlockAllocation>, units: seq<int>, once: seq<BlockAllocation>,
      same: seq<int>, once': seq<BlockAllocation>)
    requires PaidAs(blocks, units, once) && PaidAs(once, same, once')
    ensures PaidAs(blocks, units, once')
  {
    hide Weighted;
  }

  lemma {:induction false} PaidAsJoin(
      b: seq<BlockAllocation>, u: seq<int>, o: seq<BlockAllocation>,
      b': seq<BlockAllocation>, u': seq<int>, o': seq<BlockAllocation>)
    requires PaidAs(b, u, o) && PaidAs(b', u', o')
    ensures PaidAs(b + b', u + u', o + o')
  {
    hide Repriced;
  }

  lemma {:induction false} AcceptedIsGood(req: PreviewRequest)
    requires PreviewSpec(req).Ok?
    ensures WellFormed(req)
    ensures GoodLeg(Sort(req.left)) && GoodLeg(Sort(req.right))
    ensures 0 <= req.claimedBlocks <= Matched(Sort(req.left), Sort(req.right))
    ensures req.claimedHash == HashAt(Sort(req.left), Sort(req.right), req.claimedBlocks)
    ensures PreviewSpec(req).value == PreviewOf(Sort(req.left), Sort(req.right), req.claimedBlocks, req.founder)
  {
    hide Sort, LotsOk, HashAt, PreviewOf, Matched, GoodLeg;
    SortedLegIsGood(req.left, req.asOf, {}, {});
    SortedLegIsGood(req.right, req.asOf, IdsOf(req.left), SequencesOf(req.left));
  }

  // One accepted call more: what was claimed is cut again from its own legs, and paid on.
  lemma {:induction false} AcceptedStep(
      prev: PreviewRequest, next: PreviewRequest, paid: seq<BlockAllocation>, units: seq<int>)
    requires PreviewSpec(next).Ok? && Continues(prev, next)
    requires PaidAs(paid, units, FromScratch(prev))
    ensures var added := PreviewSpec(next).value.blocks;
            PaidAs(paid + added, units + Repeat(UnitUsd(next.founder), |added|), FromScratch(next))
  {
    AcceptedIsGood(prev);
    AcceptedIsGood(next);
    hide Sort, Blocks, Slices, PreviewSpec, LotsOk, WellFormed, Matched, PaidAs, Repeat;
    var l, r, l', r' := Sort(prev.left), Sort(prev.right), Sort(next.left), Sort(next.right);
    var m, m', unit, unit' := Matched(l, r), Matched(l', r'), UnitUsd(prev.founder), UnitUsd(next.founder);
    if m > 0 {
      DigestPinsSlices(l, r, BLOCK_PV * m, l', r', BLOCK_PV * m);
      SamePrefixSameBlocks(l, r, l', r', 0, m, m, unit);
    } else {
      NoBlocks(l, r, 0, unit);
      NoBlocks(l', r', 0, unit);
    }
    RepricedBlocks(l', r', 0, m, unit, unit');
    PaidAsThrough(paid, units, FromScratch(prev), Repeat(unit, Max(m, 0)), Blocks(l', r', 0, m, unit'));
    RepricedBlocks(l', r', m, m', unit', unit');
    BlocksSplit(l', r', 0, m, m', unit');
    PaidAsJoin(paid, units, Blocks(l', r', 0, m, unit'),
               Blocks(l', r', m, m', unit'), Repeat(unit', m' - m), Blocks(l', r', m, m', unit'));
  }

  /**
   * Whatever happens to the lots between calls, a history whose calls are all accepted has
   * paid exactly the blocks that one claim over the final lots would pay, each at the unit
   * price of its own call: nothing twice, nothing skipped, nothing repriced afterwards.
   */
  lemma {:induction false} InstalmentsEqualOneClaim(run: seq<PreviewRequest>)
    requires AcceptedHistory(run)
    ensures PaidAs(HistoryBlocks(run), HistoryUnits(run), FromScratch(run[|run| - 1]))
  {
    hide FromScratch, PreviewSpec, PaidAs, Repeat;
    var n := |run| - 1;
    var last, before := run[n], run[..n];
    if n == 0 {
      assert before == [];
      FirstClaim(last);
    } else {
      InstalmentsEqualOneClaim(before);
      assert Continues(run[n - 1], run[n - 1 + 1]);
      AcceptedStep(run[n - 1], last, HistoryBlocks(before), HistoryUnits(before));
    }
  }

  lemma {:induction false} FirstClaim(req: PreviewRequest)
    requires PreviewSpec(req).Ok? && req.claimedBlocks == 0
    ensures var blocks := PreviewSpec(req).value.blocks;
            && blocks == FromScratch(req)
            && PaidAs([] + blocks, [] + Repeat(UnitUsd(req.founder), |blocks|), FromScratch(req))
  {
    AcceptedIsGood(req);
    var l, r, unit := Sort(req.left), Sort(req.right), UnitUsd(req.founder);
    hide Sort, Blocks, PaidAs, Matched, Repeat;
    RepricedBlocks(l, r, 0, Matched(l, r), unit, unit);
    NothingInFront(PreviewSpec(req).value.blocks);
    NothingInFront(Repeat(unit, Matched(l, r)));
  }

  lemma {:induction false} NothingInFront<T>(s: seq<T>)
    ensures [] + s == s
  {
  }

  lemma {:induction false} UnitsAre(run: seq<PreviewRequest>, founder: bool)
    requires forall i :: 0 <= i < |run| ==> PreviewSpec(run[i]).Ok? && run[i].founder == founder
    ensures forall k :: 0 <= k < |HistoryUnits(run)| ==> HistoryUnits(run)[k] == UnitUsd(founder)
  {
    hide PreviewSpec;
    if run != [] { UnitsAre(run[..|run| - 1], founder); }
  }

  // ... and if the unit price never changed, the same blocks at the same price.
  lemma {:induction false} SamePriceSameBlocks(run: seq<PreviewRequest>)
    requires AcceptedHistory(run)
    requires forall i :: 0 <= i < |run| ==> run[i].founder == run[0].founder
    ensures HistoryBlocks(run) == FromScratch(run[|run| - 1])
  {
    InstalmentsEqualOneClaim(run);
    UnitsAre(run, run[0].founder);
    var last := run[|run| - 1];
    hide HistoryBlocks, HistoryUnits, PreviewSpec, Sort, Blocks, Weighted;
    var blocks, once := HistoryBlocks(run), FromScratch(last);
    var l, r := Sort(last.left), Sort(last.right);
    forall k | 0 <= k < |blocks| ensures blocks[k] == once[k] {
      BlockAt(l, r, 0, Matched(l, r), UnitUsd(last.founder), k);
    }
  }

  // ... and, within the limit on blocks per call, that one claim is itself an accepted call.
  lemma {:induction false} OneClaimIsAccepted(run: seq<PreviewRequest>)
    requires AcceptedHistory(run)
    requires PreviewSpec(run[|run| - 1]).value.matchedBlocks <= MAX_PREVIEW_BLOCKS
    ensures var once := run[|run| - 1].(claimedBlocks := 0, claimedHash := NoHash);
            && PreviewSpec(once).Ok?
            && PaidAs(HistoryBlocks(run), HistoryUnits(run), PreviewSpec(once).value.blocks)
  {
    var last := run[|run| - 1];
    AcceptedIsGood(last);
    InstalmentsEqualOneClaim(run);
    hide HistoryBlocks, HistoryUnits, Sort, Blocks, LotsOk, PaidAs;
    var once := last.(claimedBlocks := 0, claimedHash := NoHash);
    assert WellFormed(once);
    FirstClaim(once);
  }

  /* ----- Growing legs never drift ----- */

  ghost predicate Grows(before: seq<Lot>, now: seq<Lot>) {
    exists added: seq<Lot> ::
      && multiset(now) == multiset(before) + multiset(added)
      && forall x, y :: x in before && y in added ==> x.sequence < y.sequence
  }

  lemma {:induction false} PartOfDistinct(part: seq<Lot>, rest: seq<Lot>, all: seq<Lot>)
    requires DistinctSequences(all) && multiset(all) == multiset(part) + multiset(rest)
    ensures DistinctSequences(part)
  {
    forall i, j | 0 <= i < j < |part| ensures part[i].sequence != part[j].sequence {
      if part[i].sequence == part[j].sequence {
        TwiceInMultiset(part, i, j);
        SortSorts(all);
        SortIsPermutation(all);
        var s := Sort(all);
        assert part[i] in multiset(s) && part[j] in multiset(s);
        var x :| 0 <= x < |s| && s[x] == part[i];
        var y :| 0 <= y < |s| && s[y] == part[j];
        assert x == y;
        OnceInSorted(s, x);
      }
    }
  }

  lemma {:induction false} TwiceInMultiset(part: seq<Lot>, i: int, j: int)
    requires 0 <= i < j < |part|
    ensures part[i] == part[j] ==> multiset(part)[part[i]] >= 2
  {
    if part[i] == part[j] {
      assert part == part[..i + 1] + part[i + 1..];
      assert part[i] in part[..i + 1] && part[j] in part[i + 1..];
    }
  }

  lemma {:induction false} OnceInSorted(s: seq<Lot>, x: int)
    requires Sorted(s) && 0 <= x < |s|
    ensures multiset(s)[s[x]] == 1
  {
    assert s == s[..x] + ([s[x]] + s[x + 1..]);
    assert s[x] !in s[..x] && s[x] !in s[x + 1..];
    assert multiset(s) == multiset(s[..x]) + (multiset{s[x]} + multiset(s[x + 1..]));
  }

  lemma {:induction false} GrowthAppends(before: seq<Lot>, now: seq<Lot>)
    requires DistinctSequences(now) && GoodLeg(Sort(now))
    requires Grows(before, now)
    ensures exists later :: Sort(now) == Sort(before) + later && AllPositive(later)
  {
    var added: seq<Lot> :|
      && multiset(now) == multiset(before) + multiset(added)
      && forall x, y :: x in before && y in added ==> x.sequence < y.sequence;
    hide Sort;
    PartOfDistinct(before, added, now);
    PartOfDistinct(added, before, now);
    SortOfGrowth(before, added, now);
    PositiveSuffix(Sort(before), Sort(added));
  }

  lemma {:induction false} PositiveSuffix(a: seq<Lot>, b: seq<Lot>)
    requires AllPositive(a + b)
    ensures AllPositive(b)
  {
    forall i | 0 <= i < |b| ensures 0 < b[i].source.pv {
      assert (a + b)[|a| + i] == b[i];
    }
  }

  lemma {:induction false} GrownPrefix(before: seq<Lot>, now: seq<Lot>, end: int)
    requires GoodLeg(Sort(before)) && DistinctSequences(now) && GoodLeg(Sort(now)) && Grows(before, now)
    requires 0 <= end <= TotalPv(Sort(before))
    ensures TotalPv(Sort(before)) <= TotalPv(Sort(now))
    ensures Slices(Sort(now), 0, end) == Slices(Sort(before), 0, end)
  {
    GrowthAppends(before, now);
    hide Sort, Slices;
    var later :| Sort(now) == Sort(before) + later && AllPositive(later);
    TotalPvAppend(Sort(before), later);
    TotalPvNonNegative(later);
    SlicesIgnoreLaterLots(Sort(before), later, 0, end);
  }

  /**
   * If purchases only ever arrive with higher activation numbers, a call that presents the
   * previous result is never rejected as drift; it is accepted unless it would produce more
   * blocks than one call may.
   */
  lemma {:induction false} GrowingLegsNeverDrift(prev: PreviewRequest, next: PreviewRequest)
    requires Continues(prev, next) && WellFormed(next)
    requires Grows(prev.left, next.left) && Grows(prev.right, next.right)
    ensures PreviewSpec(next).Ok? <==>
            Matched(Sort(next.left), Sort(next.right)) - next.claimedBlocks <= MAX_PREVIEW_BLOCKS
    ensures PreviewSpec(next) != Err(ClaimHistoryDrift)
  {
    AcceptedIsGood(prev);
    SortedLegIsGood(next.left, next.asOf, {}, {});
    SortedLegIsGood(next.right, next.asOf, IdsOf(next.left), SequencesOf(next.left));
    hide Sort, Slices, TotalPv, RecordsOf, Blocks;
    var m := next.claimedBlocks;
    GrownPrefix(prev.left, next.left, BLOCK_PV * m);
    GrownPrefix(prev.right, next.right, BLOCK_PV * m);
  }

  // The claimed part of both legs is what it was.
  ghost predicate SameClaim(prev: PreviewRequest, next: PreviewRequest) {
    var end := BLOCK_PV * next.claimedBlocks;
    && Slices(Sort(next.left), 0, end) == Slices(Sort(prev.left), 0, end)
    && Slices(Sort(next.right), 0, end) == Slices(Sort(prev.right), 0, end)
  }

  lemma {:induction false} SameHashIff(left: seq<Lot>, right: seq<Lot>, left': seq<Lot>, right': seq<Lot>, m: nat)
    requires AllPositive(left) && AllPositive(right) && AllPositive(left') && AllPositive(right')
    ensures HashAt(left, right, m) == HashAt(left', right', m) <==>
            Slices(left, 0, BLOCK_PV * m) == Slices(left', 0, BLOCK_PV * m)
            && Slices(right, 0, BLOCK_PV * m) == Slices(right', 0, BLOCK_PV * m)
  {
    if m == 0 {
      EmptyRange(left, 0, 0);
      EmptyRange(right, 0, 0);
      EmptyRange(left', 0, 0);
      EmptyRange(right', 0, 0);
    } else if HashAt(left, right, m) == HashAt(left', right', m) {
      DigestPinsSlices(left, right, BLOCK_PV * m, left', right', BLOCK_PV * m);
    }
    hide Slices;
  }

  // A leg that yields the slices of a range is long enough for it.
  lemma {:induction false} SlicesFit(lots: seq<Lot>, start: int, end: int)
    requires AllPositive(lots)
    ensures SlicesPv(Slices(lots, start, end)) <= TotalPv(lots)
  {
    if lots != [] {
      var rest, pv := lots[1..], lots[0].source.pv;
      SlicesFit(rest, start - pv, end - pv);
      var tail := Slices(rest, start - pv, end - pv);
      SlicesPvCons(Slice(lots[0], Max(start, 0), Min(end, pv) - Max(start, 0)), tail);
      hide Slices;
    }
  }

  lemma {:induction false} SameClaimIsThere(before: seq<Lot>, now: seq<Lot>, end: int)
    requires AllPositive(before) && AllPositive(now) && 0 <= end <= TotalPv(before)
    requires Slices(now, 0, end) == Slices(before, 0, end)
    ensures end <= TotalPv(now)
  {
    hide Slices;
    SlicesTotal(before, 0, end);
    SlicesFit(now, 0, end);
  }

  lemma {:induction false} SameClaimMatches(prev: PreviewRequest, next: PreviewRequest)
    requires SameClaim(prev, next) && GoodLeg(Sort(next.left)) && GoodLeg(Sort(next.right))
    requires GoodLeg(Sort(prev.left)) && GoodLeg(Sort(prev.right))
    requires 0 <= next.claimedBlocks <= Matched(Sort(prev.left), Sort(prev.right))
    ensures next.claimedBlocks <= Matched(Sort(next.left), Sort(next.right))
  {
    hide Sort, Slices, TotalPv;
    var end := BLOCK_PV * next.claimedBlocks;
    SameClaimIsThere(Sort(prev.left), Sort(next.left), end);
    SameClaimIsThere(Sort(prev.right), Sort(next.right), end);
  }

  /**
   * Exactly when a call that presents the previous result is rejected as drift: the claimed
   * part of a leg is no longer what it was. The unit price plays no part.
   */
  lemma {:induction false} DriftIff(prev: PreviewRequest, next: PreviewRequest)
    requires Continues(prev, next) && WellFormed(next)
    ensures PreviewSpec(next) == Err(ClaimHistoryDrift) <==> !SameClaim(prev, next)
  {
    AcceptedIsGood(prev);
    SortedLegIsGood(next.left, next.asOf, {}, {});
    SortedLegIsGood(next.right, next.asOf, IdsOf(next.left), SequencesOf(next.left));
    hide Sort, Slices, TotalPv, RecordsOf, Blocks, Matched;
    SameHashIff(Sort(next.left), Sort(next.right), Sort(prev.left), Sort(prev.right), next.claimedBlocks);
    if SameClaim(prev, next) { SameClaimMatches(prev, next); }
    hide HashAt, LotsOk, SameClaim;
  }
}
