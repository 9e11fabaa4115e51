/** Validation, the claimed-prefix digest, and the priced preview of new binary blocks. */
module BinaryPreview {
  import opened Prelude
  import opened FifoSlices
  import opened LotOrder
  import opened FifoAllocation

  /* ----- Validation ----- */

  function IdsOf(lots: seq<Lot>): set<string> { set lot | lot in lots :: lot.source.id }

  function SequencesOf(lots: seq<Lot>): set<nat> { set lot | lot in lots :: lot.sequence }

  ghost predicate LotOk(lot: Lot, asOf: int, ids: set<string>, sequences: set<nat>) {
    && lot.source.valid && lot.source.effectiveAt <= asOf && lot.sequence != 0
    && lot.source.id !in ids && lot.sequence !in sequences
  }

  ghost predicate LotsOk(lots: seq<Lot>, asOf: int, ids: set<string>, sequences: set<nat>) {
    && (forall i :: 0 <= i < |lots| ==> LotOk(lots[i], asOf, ids, sequences))
    && DistinctIds(lots) && DistinctSequences(lots)
    && TotalPv(lots) <= MAX_INT64
  }

  lemma {:induction false} PrefixFits(lots: seq<Lot>, i: int)
    requires AllPositive(lots) && 0 <= i <= |lots|
    ensures TotalPv(lots[..i]) <= TotalPv(lots)
  {
    assert lots == lots[..i] + lots[i..];
    TotalPvAppend(lots[..i], lots[i..]);
    TotalPvNonNegative(lots[i..]);
  }

  // One turn of the validation loop: the next lot is accepted exactly when the longer prefix is.
  lemma {:induction false} PrefixOkStep(lots: seq<Lot>, i: int, asOf: int, ids: set<string>, sequences: set<nat>)
    requires 0 <= i < |lots| && LotsOk(lots[..i], asOf, ids, sequences)
    ensures LotsOk(lots[..i + 1], asOf, ids, sequences) <==>
            && LotOk(lots[i], asOf, ids + IdsOf(lots[..i]), sequences + SequencesOf(lots[..i]))
            && lots[i].source.pv <= MAX_INT64 - TotalPv(lots[..i])
    ensures ids + IdsOf(lots[..i + 1]) == (ids + IdsOf(lots[..i])) + {lots[i].source.id}
    ensures sequences + SequencesOf(lots[..i + 1]) == (sequences + SequencesOf(lots[..i])) + {lots[i].sequence}
  {
    TotalPvStep(lots, i);
    assert lots[..i + 1] == lots[..i] + [lots[i]];
    hide TotalPv, LotsOk, LotOk;
    if LotsOk(lots[..i + 1], asOf, ids, sequences) { LastOfOk(lots[..i], lots[i], asOf, ids, sequences); }
    if LotOk(lots[i], asOf, ids + IdsOf(lots[..i]), sequences + SequencesOf(lots[..i]))
       && lots[i].source.pv <= MAX_INT64 - TotalPv(lots[..i]) {
      OneMoreOk(lots[..i], lots[i], asOf, ids, sequences);
    }
  }

  lemma {:induction false} LastOfOk(part: seq<Lot>, last: Lot, asOf: int, ids: set<string>, sequences: set<nat>)
    requires LotsOk(part + [last], asOf, ids, sequences)
    ensures LotOk(last, asOf, ids + IdsOf(part), sequences + SequencesOf(part))
    ensures TotalPv(part + [last]) <= MAX_INT64
  {
    var all := part + [last];
    hide TotalPv;
    assert LotOk(all[|part|], asOf, ids, sequences);
    forall k | 0 <= k < |part| ensures part[k].source.id != last.source.id && part[k].sequence != last.sequence {
      assert all[k] == part[k] && all[|part|] == last;
    }
  }

  lemma {:induction false} OneMoreOk(part: seq<Lot>, last: Lot, asOf: int, ids: set<string>, sequences: set<nat>)
    requires LotsOk(part, asOf, ids, sequences) && LotOk(last, asOf, ids + IdsOf(part), sequences + SequencesOf(part))
    requires TotalPv(part + [last]) <= MAX_INT64
    ensures LotsOk(part + [last], asOf, ids, sequences)
  {
    var all := part + [last];
    hide TotalPv;
    forall k | 0 <= k < |part| ensures part[k].source.id != last.source.id && part[k].sequence != last.sequence {
      assert part[k] in part;
    }
  }

  lemma {:induction false} PrefixOfOk(lots: seq<Lot>, i: int, asOf: int, ids: set<string>, sequences: set<nat>)
    requires 0 <= i <= |lots| && LotsOk(lots, asOf, ids, sequences)
    ensures LotsOk(lots[..i], asOf, ids, sequences)
  {
    forall k | 0 <= k < |lots| ensures 0 < lots[k].source.pv {
      assert LotOk(lots[k], asOf, ids, sequences);
    }
    PrefixFits(lots, i);
  }

  method ValidateLots(lots: seq<Lot>, asOf: int, seenIds: set<string>, seenSequences: set<nat>)
      returns (total: Option<int>, ids: set<string>, sequences: set<nat>, sorted: seq<Lot>)
    ensures total.Some? <==> LotsOk(lots, asOf, seenIds, seenSequences)
    ensures total.Some? ==>
              && total.value == TotalPv(lots)
              && ids == seenIds + IdsOf(lots) && sequences == seenSequences + SequencesOf(lots)
              && sorted == Sort(lots)
  {
    hide LotsOk, IdsOf, SequencesOf, TotalPv, Sort;
    ids, sequences, sorted := seenIds, seenSequences, lots;
    var sum := 0;
    var i := 0;
    NoneSeen(lots, asOf, seenIds, seenSequences);
    while i < |lots|
      invariant 0 <= i <= |lots|
      invariant LotsOk(lots[..i], asOf, seenIds, seenSequences)
      invariant sum == TotalPv(lots[..i])
      invariant ids == seenIds + IdsOf(lots[..i]) && sequences == seenSequences + SequencesOf(lots[..i])
    {
      var lot := lots[i];
      var s := lot.source;
      PrefixOkStep(lots, i, asOf, seenIds, seenSequences);
      TotalPvStep(lots, i);
      if !s.valid || s.effectiveAt > asOf || lot.sequence == 0 || s.id in ids || lot.sequence in sequences
         || s.pv > MAX_INT64 - sum {
        if LotsOk(lots, asOf, seenIds, seenSequences) {
          PrefixOfOk(lots, i + 1, asOf, seenIds, seenSequences);
          assert false;
        }
        total := None;
        return;
      }
      ids, sequences := ids + {s.id}, sequences + {lot.sequence};
      sum := sum + s.pv;
      i := i + 1;
    }
    assert lots[..i] == lots;
    total, sorted := Some(sum), Sort(lots);
  }

  lemma {:induction false} NoneSeen(lots: seq<Lot>, asOf: int, ids: set<string>, sequences: set<nat>)
    ensures LotsOk(lots[..0], asOf, ids, sequences) && TotalPv(lots[..0]) == 0
    ensures ids == ids + IdsOf(lots[..0]) && sequences == sequences + SequencesOf(lots[..0])
  {
  }

  /* ----- The digest of everything already claimed ----- */

  // One hashed line: a slice together with every reviewed fact of its source.
  datatype Record = Record(segment: Segment, source: Source)

  // An injective stand-in for the hash of the line sequence.
  datatype PrefixDigest = PrefixDigest(pv: int, records: seq<Record>)

  datatype ClaimHash = NoHash | Malformed | Hash(digest: PrefixDigest)

  function RecordsOf(side: Side, slices: seq<Slice>): seq<Record> {
    if slices == [] then []
    else [Record(SegmentOf(side, 0, slices[0]), slices[0].lot.source)] + RecordsOf(side, slices[1..])
  }

  lemma {:induction false} RecordsAt(side: Side, slices: seq<Slice>)
    ensures |RecordsOf(side, slices)| == |slices|
    ensures forall i :: 0 <= i < |slices| ==>
              RecordsOf(side, slices)[i] == Record(SegmentOf(side, 0, slices[i]), slices[i].lot.source)
  {
    if slices != [] { RecordsAt(side, slices[1..]); }
  }

  function DigestOf(left: seq<Lot>, right: seq<Lot>, pv: int): PrefixDigest {
    PrefixDigest(pv, RecordsOf(L, Slices(left, 0, pv)) + RecordsOf(R, Slices(right, 0, pv)))
  }

  method LegRecords(lots: seq<Lot>, side: Side, pv: int) returns (records: seq<Record>)
    requires AllPositive(lots) && DistinctIds(lots)
    ensures records == RecordsOf(side, Slices(lots, 0, pv))
  {
    var sources: map<string, Source> := map[];
    var i := 0;
    while i < |lots|
      invariant 0 <= i <= |lots|
      invariant forall k :: 0 <= k < i ==> lots[k].source.id in sources && sources[lots[k].source.id] == lots[k].source
    {
      sources := sources[lots[i].source.id := lots[i].source];
      i := i + 1;
    }
    var segments := Segments(lots, side, 0, pv);
    ghost var slices := Slices(lots, 0, pv);
    SlicesAreProper(lots, 0, pv);
    RenderAt(side, 0, slices);
    RecordsAt(side, slices);
    hide Slices, Render, RecordsOf;
    records := [];
    i := 0;
    while i < |segments|
      invariant 0 <= i <= |segments| == |slices| && |records| == i
      invariant forall k :: 0 <= k < i ==> records[k] == Record(SegmentOf(side, 0, slices[k]), slices[k].lot.source)
    {
      assert Within(lots, slices[i]);
      records := records + [Record(segments[i], sources[segments[i].sourceId])];
      i := i + 1;
    }
  }

  method PrefixHash(left: seq<Lot>, right: seq<Lot>, pv: int) returns (digest: PrefixDigest)
    requires AllPositive(left) && DistinctIds(left) && AllPositive(right) && DistinctIds(right)
    ensures digest == DigestOf(left, right, pv)
  {
    var l := LegRecords(left, L, pv);
    var r := LegRecords(right, R, pv);
    digest := PrefixDigest(pv, l + r);
  }

  lemma {:induction false} RecordsPinSlices(side: Side, a: seq<Slice>, b: seq<Slice>)
    requires RecordsOf(side, a) == RecordsOf(side, b)
    ensures a == b
  {
    RecordsAt(side, a);
    RecordsAt(side, b);
    forall i | 0 <= i < |a| ensures a[i] == b[i] {
      assert RecordsOf(side, a)[i] == RecordsOf(side, b)[i];
    }
  }

  // Equal digests mean that the claimed prefixes consist of the same slices of the same lots.
  lemma {:induction false} DigestPinsSlices(
      left: seq<Lot>, right: seq<Lot>, pv: int, left': seq<Lot>, right': seq<Lot>, pv': int)
    requires DigestOf(left, right, pv) == DigestOf(left', right', pv')
    ensures pv == pv'
    ensures Slices(left, 0, pv) == Slices(left', 0, pv)
    ensures Slices(right, 0, pv) == Slices(right', 0, pv)
  {
    hide Slices;
    var a, a' := Slices(left, 0, pv), Slices(left', 0, pv);
    var b, b' := Slices(right, 0, pv), Slices(right', 0, pv);
    SplitBySide(a, b, a', b');
    RecordsPinSlices(L, a, a');
    RecordsPinSlices(R, b, b');
  }

  function LeftRecords(records: seq<Record>): nat {
    if records == [] then 0
    else (if records[0].segment.side == L then 1 else 0) + LeftRecords(records[1..])
  }

  lemma {:induction false} CountLeft(a: seq<Slice>, rest: seq<Record>)
    ensures LeftRecords(RecordsOf(L, a) + rest) == |a| + LeftRecords(rest)
  {
    if a == [] {
      assert RecordsOf(L, a) + rest == rest;
    } else {
      assert (RecordsOf(L, a) + rest)[1..] == RecordsOf(L, a[1..]) + rest;
      CountLeft(a[1..], rest);
    }
  }

  lemma {:induction false} CountRight(b: seq<Slice>)
    ensures LeftRecords(RecordsOf(R, b)) == 0
  {
    if b != [] { CountRight(b[1..]); }
  }

  lemma {:induction false} SplitBySide(a: seq<Slice>, b: seq<Slice>, a': seq<Slice>, b': seq<Slice>)
    requires RecordsOf(L, a) + RecordsOf(R, b) == RecordsOf(L, a') + RecordsOf(R, b')
    ensures RecordsOf(L, a) == RecordsOf(L, a') && RecordsOf(R, b) == RecordsOf(R, b')
  {
    CountLeft(a, RecordsOf(R, b));
    CountLeft(a', RecordsOf(R, b'));
    CountRight(b);
    CountRight(b');
    RecordsAt(L, a);
    RecordsAt(L, a');
    hide RecordsOf, LeftRecords;
    var x, y := RecordsOf(L, a) + RecordsOf(R, b), RecordsOf(L, a') + RecordsOf(R, b');
    assert x[..|a|] == RecordsOf(L, a) && y[..|a'|] == RecordsOf(L, a');
    assert x[|a|..] == RecordsOf(R, b) && y[|a'|..] == RecordsOf(R, b');
  }

  /* ----- The preview ----- */

  datatype PreviewRequest = PreviewRequest(
    left: seq<Lot>, right: seq<Lot>, asOf: int, claimedBlocks: int, claimedHash: ClaimHash, founder: bool)

  // Exact amounts are in ten-millionths of a dollar: PV times a factor in basis points,
  // over the two 500-PV legs, times a whole-dollar unit. The entitlement is in cents.
  datatype BlockAllocation = BlockAllocation(
    index: int, nominalUsd: int, meanFactorE7: int, exactE7: int, segments: seq<Segment>)

  datatype Preview = Preview(
    matchedBlocks: int, newBlocks: int, carryLeft: int, carryRight: int,
    nominalUsd: int, exactE7: int, entitlementCents: int,
    segments: seq<Segment>, blocks: seq<BlockAllocation>, nextHash: ClaimHash)

  datatype PreviewError = InvalidPreview | ClaimHistoryDrift

  function UnitUsd(founder: bool): int { if founder then 50 else 10 }

  function Weighted(segments: seq<Segment>): int {
    if segments == [] then 0
    else
      var n := |segments| - 1;
      Weighted(segments[..n]) + segments[n].pv * segments[n].factorBps
  }

  // Block k of a pair of sorted legs: units 500(k-1) .. 500k-1 of both.
  function BlockSegmentsAt(left: seq<Lot>, right: seq<Lot>, k: int): seq<Segment> {
    Render(L, k, Slices(left, BLOCK_PV * (k - 1), BLOCK_PV * k))
    + Render(R, k, Slices(right, BLOCK_PV * (k - 1), BLOCK_PV * k))
  }

  function BlockOf(segments: seq<Segment>, k: int, unit: int): BlockAllocation {
    BlockAllocation(k, unit, Weighted(segments), unit * Weighted(segments), segments)
  }

  // Blocks from + 1 .. to.
  function Blocks(left: seq<Lot>, right: seq<Lot>, from: int, to: int, unit: int): (b: seq<BlockAllocation>)
    ensures |b| == Max(to - from, 0)
    decreases Max(to - from, 0)
  {
    if to <= from then []
    else Blocks(left, right, from, to - 1, unit) + [BlockOf(BlockSegmentsAt(left, right, to), to, unit)]
  }

  function ExactOf(blocks: seq<BlockAllocation>): int {
    if blocks == [] then 0 else ExactOf(blocks[..|blocks| - 1]) + blocks[|blocks| - 1].exactE7
  }

  function AllSegments(blocks: seq<BlockAllocation>): seq<Segment> {
    if blocks == [] then [] else AllSegments(blocks[..|blocks| - 1]) + blocks[|blocks| - 1].segments
  }

  ghost predicate WellFormed(req: PreviewRequest) {
    && ValidTime(req.asOf) && 0 <= req.claimedBlocks
    && |req.left| + |req.right| <= MAX_PREVIEW_LOTS
    && (if req.claimedBlocks == 0 then req.claimedHash == NoHash else req.claimedHash.Hash?)
    && LotsOk(req.left, req.asOf, {}, {})
    && LotsOk(req.right, req.asOf, IdsOf(req.left), SequencesOf(req.left))
  }

  function Matched(left: seq<Lot>, right: seq<Lot>): int {
    Min(TotalPv(left), TotalPv(right)) / BLOCK_PV
  }

  function HashAt(left: seq<Lot>, right: seq<Lot>, blocks: int): ClaimHash {
    if blocks == 0 then NoHash else Hash(DigestOf(left, right, BLOCK_PV * blocks))
  }

  function PreviewOf(left: seq<Lot>, right: seq<Lot>, claimed: int, founder: bool): Preview {
    var matched := Matched(left, right);
    var blocks := Blocks(left, right, claimed, matched, UnitUsd(founder));
    Preview(matched, matched - claimed, TotalPv(left) - BLOCK_PV * matched, TotalPv(right) - BLOCK_PV * matched,
            UnitUsd(founder) * (matched - claimed), ExactOf(blocks), ExactOf(blocks) / 100_000,
            AllSegments(blocks), blocks, HashAt(left, right, matched))
  }

  ghost function PreviewSpec(req: PreviewRequest): Result<Preview, PreviewError> {
    if !WellFormed(req) then Err(InvalidPreview)
    else
      var left, right := Sort(req.left), Sort(req.right);
      var matched := Matched(left, right);
      if req.claimedBlocks > matched || req.claimedHash != HashAt(left, right, req.claimedBlocks)
      then Err(ClaimHistoryDrift)
      else if matched - req.claimedBlocks > MAX_PREVIEW_BLOCKS then Err(InvalidPreview)
      else Ok(PreviewOf(left, right, req.claimedBlocks, req.founder))
  }

  ghost predicate GoodLeg(lots: seq<Lot>) {
    AllPositive(lots) && DistinctIds(lots) && Sorted(lots) && 0 <= TotalPv(lots) <= MAX_INT64
  }

  lemma {:induction false} RemoveAt(b: seq<Lot>, k: int)
    requires 0 <= k < |b|
    ensures multiset(b[..k] + b[k + 1..]) == multiset(b) - multiset{b[k]}
    ensures TotalPv(b[..k] + b[k + 1..]) == TotalPv(b) - b[k].source.pv
  {
    var tail := [b[k]] + b[k + 1..];
    assert b == b[..k] + tail;
    assert tail[1..] == b[k + 1..];
    TotalPvAppend(b[..k], tail);
    TotalPvAppend(b[..k], b[k + 1..]);
    assert multiset(b) == multiset(b[..k]) + multiset(tail);
    assert multiset(tail) == multiset{b[k]} + multiset(b[k + 1..]);
  }

  lemma {:induction false} TotalOfPermutation(a: seq<Lot>, b: seq<Lot>)
    requires multiset(a) == multiset(b)
    ensures TotalPv(a) == TotalPv(b)
    decreases |a|
  {
    if a == [] {
      assert b == [] by { assert |multiset(b)| == |b|; }
    } else {
      SameElements(a, b, a[0]);
      var k :| 0 <= k < |b| && b[k] == a[0];
      RemoveAt(b, k);
      WithoutFirst(a);
      TotalOfPermutation(a[1..], b[..k] + b[k + 1..]);
    }
  }

  lemma {:induction false} DistinctIdsOfPermutation(a: seq<Lot>, b: seq<Lot>)
    requires DistinctIds(a) && Sorted(b) && multiset(a) == multiset(b)
    ensures DistinctIds(b)
  {
    forall i, j | 0 <= i < j < |b| ensures b[i].source.id != b[j].source.id {
      SameElements(a, b, b[i]);
      SameElements(a, b, b[j]);
      var x :| 0 <= x < |a| && a[x] == b[i];
      var y :| 0 <= y < |a| && a[y] == b[j];
      assert x != y;
    }
  }

  lemma {:induction false} SortedLegIsGood(lots: seq<Lot>, asOf: int, ids: set<string>, sequences: set<nat>)
    requires LotsOk(lots, asOf, ids, sequences)
    ensures GoodLeg(Sort(lots)) && TotalPv(Sort(lots)) == TotalPv(lots)
  {
    var s := Sort(lots);
    SortSorts(lots);
    SortIsPermutation(lots);
    TotalOfPermutation(lots, s);
    DistinctIdsOfPermutation(lots, s);
    forall i | 0 <= i < |s| ensures 0 < s[i].source.pv {
      SameElements(lots, s, s[i]);
      var x :| 0 <= x < |lots| && lots[x] == s[i];
      assert LotOk(lots[x], asOf, ids, sequences);
    }
    TotalPvNonNegative(s);
  }

  method WeightedSum(segments: seq<Segment>) returns (weighted: int)
    ensures weighted == Weighted(segments)
  {
    weighted := 0;
    var i := 0;
    while i < |segments|
      invariant 0 <= i <= |segments| && weighted == Weighted(segments[..i])
    {
      assert segments[..i + 1][..i] == segments[..i];
      weighted := weighted + segments[i].pv * segments[i].factorBps;
      i := i + 1;
    }
    assert segments[..i] == segments;
  }

  lemma {:induction false} PriceStep(
      blocks: seq<BlockAllocation>, left: seq<Lot>, right: seq<Lot>, from: int, to: int, unit: int)
    requires from < to && blocks == Blocks(left, right, from, to - 1, unit)
    ensures var a := BlockOf(BlockSegmentsAt(left, right, to), to, unit);
            && blocks + [a] == Blocks(left, right, from, to, unit)
            && ExactOf(blocks + [a]) == ExactOf(blocks) + a.exactE7
            && AllSegments(blocks + [a]) == AllSegments(blocks) + a.segments
  {
    hide BlockOf, BlockSegmentsAt;
    var a := BlockOf(BlockSegmentsAt(left, right, to), to, unit);
    assert (blocks + [a])[..|blocks|] == blocks;
  }

  // Prices the new blocks one by one; the sum of the raw amounts is never rounded per block.
  method PriceBlocks(
      ghost left: seq<Lot>, ghost right: seq<Lot>, claimed: int, count: int, unit: int,
      leftSegments: seq<seq<Segment>>, rightSegments: seq<seq<Segment>>)
      returns (blocks: seq<BlockAllocation>, exact: int, segments: seq<Segment>)
    requires 0 <= count == |leftSegments| == |rightSegments|
    requires forall b :: 0 <= b < count ==>
               leftSegments[b] + rightSegments[b] == BlockSegmentsAt(left, right, claimed + b + 1)
    ensures blocks == Blocks(left, right, claimed, claimed + count, unit)
    ensures exact == ExactOf(blocks) && segments == AllSegments(blocks)
  {
    blocks, exact, segments := [], 0, [];
    var i := 0;
    NoBlocks(left, right, claimed, unit);
    hide BlockSegmentsAt, Weighted, Blocks, ExactOf, AllSegments;
    while i < count
      invariant 0 <= i <= count
      invariant blocks == Blocks(left, right, claimed, claimed + i, unit)
      invariant exact == ExactOf(blocks) && segments == AllSegments(blocks)
    {
      var piece := leftSegments[i] + rightSegments[i];
      var weighted := WeightedSum(piece);
      PriceStep(blocks, left, right, claimed, claimed + i + 1, unit);
      var allocation := BlockAllocation(claimed + i + 1, unit, weighted, unit * weighted, piece);
      exact := exact + allocation.exactE7;
      segments := segments + piece;
      blocks := blocks + [allocation];
      i := i + 1;
    }
  }

  // The request checks, and both legs in activation order.
  method OpenRequest(req: PreviewRequest) returns (ok: bool, left: seq<Lot>, right: seq<Lot>, leftPv: int, rightPv: int)
    ensures ok <==> WellFormed(req)
    ensures ok ==>
              && left == Sort(req.left) && right == Sort(req.right)
              && GoodLeg(left) && GoodLeg(right)
              && 0 <= leftPv == TotalPv(left) && 0 <= rightPv == TotalPv(right)
              && 0 <= req.claimedBlocks
  {
    ok, left, right, leftPv, rightPv := false, [], [], 0, 0;
    if !ValidTime(req.asOf) || req.claimedBlocks < 0 || |req.left| + |req.right| > MAX_PREVIEW_LOTS
       || (req.claimedBlocks == 0 && req.claimedHash != NoHash)
       || (req.claimedBlocks > 0 && !req.claimedHash.Hash?) {
      return;
    }
    hide LotsOk, IdsOf, SequencesOf, Sort, TotalPv;
    var l, ids, sequences, sortedLeft := ValidateLots(req.left, req.asOf, {}, {});
    if l.None? {
      return;
    }
    assert ids == IdsOf(req.left) && sequences == SequencesOf(req.left);
    var r, _, _, sortedRight := ValidateLots(req.right, req.asOf, ids, sequences);
    if r.None? {
      return;
    }
    SortedLegIsGood(req.left, req.asOf, {}, {});
    SortedLegIsGood(req.right, req.asOf, ids, sequences);
    ok, left, right, leftPv, rightPv := true, sortedLeft, sortedRight, l.value, r.value;
  }

  method NewBlocks(left: seq<Lot>, right: seq<Lot>, claimed: int, count: int, unit: int)
      returns (blocks: seq<BlockAllocation>, exact: int, segments: seq<Segment>)
    requires GoodLeg(left) && GoodLeg(right) && 0 <= claimed && 0 <= count
    requires BLOCK_PV * (claimed + count) <= TotalPv(left) && BLOCK_PV * (claimed + count) <= TotalPv(right)
    ensures blocks == Blocks(left, right, claimed, claimed + count, unit)
    ensures exact == ExactOf(blocks) && segments == AllSegments(blocks)
  {
    hide Blocks, ExactOf, AllSegments, Slices, TotalPv, Render;
    var leftSegments := BlockSegments(left, L, BLOCK_PV * claimed, claimed, count);
    var rightSegments := BlockSegments(right, R, BLOCK_PV * claimed, claimed, count);
    forall b | 0 <= b < count
      ensures leftSegments[b] + rightSegments[b] == BlockSegmentsAt(left, right, claimed + b + 1)
    {
      assert BLOCK_PV * claimed + BLOCK_PV * b == BLOCK_PV * (claimed + b + 1 - 1);
      assert BLOCK_PV * claimed + BLOCK_PV * (b + 1) == BLOCK_PV * (claimed + b + 1);
    }
    blocks, exact, segments := PriceBlocks(left, right, claimed, count, unit, leftSegments, rightSegments);
  }

  method HashOfPrefix(left: seq<Lot>, right: seq<Lot>, blocks: int) returns (hash: ClaimHash)
    requires GoodLeg(left) && GoodLeg(right) && 0 <= blocks
    ensures hash == HashAt(left, right, blocks)
  {
    if blocks > 0 {
      var digest := PrefixHash(left, right, BLOCK_PV * blocks);
      hash := Hash(digest);
    } else {
      hash := NoHash;
    }
  }

  // Existing claims are only skipped: their hash must still describe the oldest lots.
  method PreviewBinaryFIFO(req: PreviewRequest) returns (result: Result<Preview, PreviewError>)
    ensures result == PreviewSpec(req)
  {
    hide LotsOk, Sort, Blocks, ExactOf, AllSegments, HashAt, TotalPv, GoodLeg, WellFormed, IdsOf, SequencesOf;
    var ok, left, right, leftPv, rightPv := OpenRequest(req);
    if !ok {
      return Err(InvalidPreview);
    }
    var matched := Min(leftPv, rightPv) / BLOCK_PV;
    if req.claimedBlocks > matched {
      return Err(ClaimHistoryDrift);
    }
    var claimedHash := HashOfPrefix(left, right, req.claimedBlocks);
    if claimedHash != req.claimedHash {
      return Err(ClaimHistoryDrift);
    }
    var count := matched - req.claimedBlocks;
    if count > MAX_PREVIEW_BLOCKS {
      return Err(InvalidPreview);
    }
    var nextHash := HashOfPrefix(left, right, matched);
    var unit := if req.founder then 50 else 10;
    NoBlocks(left, right, matched, unit);
    var blocks, exact, segments := [], 0, [];
    if count > 0 {
      blocks, exact, segments := NewBlocks(left, right, req.claimedBlocks, count, unit);
    }
    return Ok(Preview(matched, count, leftPv - BLOCK_PV * matched, rightPv - BLOCK_PV * matched,
                      unit * count, exact, exact / 100_000, segments, blocks, nextHash));
  }

  lemma {:induction false} NoBlocks(left: seq<Lot>, right: seq<Lot>, matched: int, unit: int)
    ensures Blocks(left, right, matched, matched, unit) == []
    ensures ExactOf([]) == 0 && AllSegments([]) == []
  {
  }
}
