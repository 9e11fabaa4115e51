/**
 * The approved binary rule `source_fifo_pv_weighted_v1`: every new block consumes exactly
 * 500 PV per leg, oldest purchases first, and is priced by the factors of what it consumed.
 */
module FifoAllocation {
  import opened Prelude
  import opened FifoSlices

  const BLOCK_PV: int := 500
  const MAX_PREVIEW_LOTS: int := 10000
  const MAX_PREVIEW_BLOCKS: int := 10000

  // Instants are nanoseconds since 0001-01-01T00:00:00Z, the zero value of a timestamp.
  const DAY_NS: int := 86_400_000_000_000
  const YEAR_9999: int := 3_651_694 * DAY_NS

  predicate ValidTime(at: int) { 0 < at < YEAR_9999 }

  datatype Segment = Segment(
    blockIndex: int, side: Side, sourceId: string, kind: Kind, sequence: nat,
    offset: int, pv: int, factorBps: int)

  function SegmentOf(side: Side, blockIndex: int, s: Slice): Segment {
    Segment(blockIndex, side, s.lot.source.id, s.lot.source.kind, s.lot.sequence,
            s.offset, s.pv, s.lot.source.factorBps)
  }

  function Render(side: Side, blockIndex: int, slices: seq<Slice>): seq<Segment> {
    if slices == [] then []
    else [SegmentOf(side, blockIndex, slices[0])] + Render(side, blockIndex, slices[1..])
  }

  lemma {:induction false} RenderAt(side: Side, blockIndex: int, slices: seq<Slice>)
    ensures |Render(side, blockIndex, slices)| == |slices|
    ensures forall i :: 0 <= i < |slices| ==>
              Render(side, blockIndex, slices)[i] == SegmentOf(side, blockIndex, slices[i])
  {
    if slices != [] { RenderAt(side, blockIndex, slices[1..]); }
  }

  lemma {:induction false} RenderAppend(side: Side, blockIndex: int, slices: seq<Slice>, s: Slice)
    ensures Render(side, blockIndex, slices + [s]) ==
            Render(side, blockIndex, slices) + [SegmentOf(side, blockIndex, s)]
  {
    if slices == [] {
      assert slices + [s] == [s];
      assert [s][1..] == [];
    } else {
      assert (slices + [s])[1..] == slices[1..] + [s];
      RenderAppend(side, blockIndex, slices[1..], s);
    }
  }

  /* ----- The simple slicer ----- */

  function Append(slices: seq<Slice>, lot: Lot, position: int, start: int, end: int): seq<Slice> {
    var from, to := Max(start, position), Min(end, position + lot.source.pv);
    if to > from then slices + [Slice(lot, from - position, to - from)] else slices
  }

  lemma {:induction false} CutOfAppend(
      first: Lot, last: Lot, slices: seq<Slice>, position: int, start: int, end: int)
    ensures var pv := first.source.pv;
            Cut(first, start, end, Append(slices, last, position, start - pv, end - pv)) ==
            Append(Cut(first, start, end, slices), last, position + pv, start, end)
  {
    var pv := first.source.pv;
    var a, b := Max(start, 0), Min(end, pv);
    var from, to := Max(start, position + pv), Min(end, position + pv + last.source.pv);
    if b > a && to > from {
      AppendAssoc([Slice(first, a, b - a)], slices, [Slice(last, from - position - pv, to - from)]);
    }
  }

  lemma {:induction false} PrefixUnfolds(lots: seq<Lot>, i: int, start: int, end: int)
    requires 0 < i <= |lots|
    ensures var pv := lots[0].source.pv;
            && TotalPv(lots[..i]) == pv + TotalPv(lots[1..][..i - 1])
            && Slices(lots[..i], start, end) ==
               Cut(lots[0], start, end, Slices(lots[1..][..i - 1], start - pv, end - pv))
  {
    assert lots[..i][1..] == lots[1..][..i - 1];
    hide Cut;
  }

  lemma {:induction false} FirstLot(lot: Lot, start: int, end: int)
    ensures Cut(lot, start, end, []) == Append([], lot, 0, start, end)
  {
  }

  lemma {:induction false} SlicesLastLot(lots: seq<Lot>, i: int, start: int, end: int)
    requires 0 <= i < |lots|
    ensures Slices(lots[..i + 1], start, end) ==
            Append(Slices(lots[..i], start, end), lots[i], TotalPv(lots[..i]), start, end)
    decreases i
  {
    hide Cut, Append;
    PrefixUnfolds(lots, i + 1, start, end);
    if i == 0 {
      assert lots[1..][..0] == [] && lots[..0] == [];
      FirstLot(lots[0], start, end);
    } else {
      hide Slices, TotalPv;
      var pv := lots[0].source.pv;
      PrefixUnfolds(lots, i, start, end);
      SlicesLastLot(lots[1..], i - 1, start - pv, end - pv);
      CutOfAppend(lots[0], lots[i], Slices(lots[1..][..i - 1], start - pv, end - pv),
                  TotalPv(lots[1..][..i - 1]), start, end);
    }
  }

  lemma {:induction false} TotalPvStep(lots: seq<Lot>, i: int)
    requires 0 <= i < |lots|
    ensures TotalPv(lots[..i + 1]) == TotalPv(lots[..i]) + lots[i].source.pv
  {
    assert lots[..i + 1] == lots[..i] + [lots[i]];
    TotalPvAppend(lots[..i], [lots[i]]);
    assert [lots[i]][1..] == [];
  }

  lemma {:induction false} SegmentsStep(lots: seq<Lot>, i: int, side: Side, start: int, end: int)
    requires AllPositive(lots) && 0 <= i < |lots|
    ensures TotalPv(lots[..i + 1]) == TotalPv(lots[..i]) + lots[i].source.pv
    ensures var position := TotalPv(lots[..i]);
            var from, to := Max(start, position), Min(end, position + lots[i].source.pv);
            var done := Render(side, 0, Slices(lots[..i], start, end));
            Render(side, 0, Slices(lots[..i + 1], start, end)) ==
            if to > from then done + [SegmentOf(side, 0, Slice(lots[i], from - position, to - from))] else done
  {
    hide Slices, TotalPv, Render;
    var position := TotalPv(lots[..i]);
    SlicesLastLot(lots, i, start, end);
    TotalPvStep(lots, i);
    var from, to := Max(start, position), Min(end, position + lots[i].source.pv);
    RenderAppend(side, 0, Slices(lots[..i], start, end), Slice(lots[i], from - position, to - from));
  }

  lemma {:induction false} SegmentsEnd(lots: seq<Lot>, i: int, start: int, end: int)
    requires AllPositive(lots) && 0 <= i <= |lots|
    requires end <= TotalPv(lots[..i]) || i == |lots|
    ensures Slices(lots[..i], start, end) == Slices(lots, start, end)
  {
    hide Slices, TotalPv;
    if i == |lots| {
      assert lots[..i] == lots;
    } else {
      SlicesIgnoreLaterLots(lots[..i], lots[i..], start, end);
      assert lots[..i] + lots[i..] == lots;
    }
  }

  method Segments(lots: seq<Lot>, side: Side, start: int, end: int) returns (result: seq<Segment>)
    requires AllPositive(lots)
    ensures result == Render(side, 0, Slices(lots, start, end))
  {
    assert Render(side, 0, Slices(lots[..0], start, end)) == [];
    assert TotalPv(lots[..0]) == 0;
    hide Slices, TotalPv, Render, AllPositive, SegmentOf;
    result := [];
    var position := 0;
    var i := 0;
    while i < |lots|
      invariant 0 <= i <= |lots|
      invariant position == TotalPv(lots[..i])
      invariant result == Render(side, 0, Slices(lots[..i], start, end))
    {
      SegmentsStep(lots, i, side, start, end);
      var lot := lots[i];
      var next := position + lot.source.pv;
      var from, to := Max(start, position), Min(end, next);
      if to > from {
        result := result + [SegmentOf(side, 0, Slice(lot, from - position, to - from))];
      }
      position := next;
      i := i + 1;
      if position >= end {
        break;
      }
    }
    SegmentsEnd(lots, i, start, end);
  }

  /* ----- The fast slicer: one pass over the lots for all blocks ----- */

  function PositionOf(lots: seq<Lot>, index: int, offset: int): int
    requires 0 <= index <= |lots|
  {
    TotalPv(lots[..index]) + offset
  }

  lemma {:induction false} PositionStep(lots: seq<Lot>, index: int, offset: int)
    requires 0 < index <= |lots|
    ensures PositionOf(lots, index, offset) == lots[0].source.pv + PositionOf(lots[1..], index - 1, offset)
  {
    assert lots[..index][1..] == lots[1..][..index - 1];
  }

  lemma {:induction false} SliceStepHere(lots: seq<Lot>, offset: int, start: int, count: int)
    requires AllPositive(lots) && lots != []
    requires 0 <= offset && 0 < count && offset + count <= lots[0].source.pv
    requires start <= offset && (offset == 0 || start == offset)
    ensures Slices(lots, start, offset) == []
    ensures Slices(lots, start, offset + count) == [Slice(lots[0], offset, count)]
  {
    EmptyRange(lots, start, offset);
    EmptyRange(lots[1..], start - lots[0].source.pv, offset + count - lots[0].source.pv);
  }

  // Consuming `count` units at the cursor appends one slice to the current block.
  lemma {:induction false} SliceStep(lots: seq<Lot>, index: int, offset: int, start: int, count: int)
    requires AllPositive(lots) && 0 <= index < |lots|
    requires 0 <= offset && 0 < count && offset + count <= lots[index].source.pv
    requires start <= PositionOf(lots, index, offset)
    requires offset == 0 || start == PositionOf(lots, index, offset)
    ensures var p := PositionOf(lots, index, offset);
            Slices(lots, start, p + count) == Slices(lots, start, p) + [Slice(lots[index], offset, count)]
    decreases index
  {
    hide Slices, TotalPv, Cut, AllPositive;
    var p := PositionOf(lots, index, offset);
    if index == 0 {
      NoPosition(lots, offset);
      SliceStepHere(lots, offset, start, count);
    } else {
      var rest, pv := lots[1..], lots[0].source.pv;
      PositionPast(lots, index, offset);
      hide PositionOf;
      SliceStep(rest, index - 1, offset, start - pv, count);
      SlicesUnfold(lots, start, p);
      SlicesUnfold(lots, start, p + count);
      CutAppend(lots[0], start, p, p + count, Slices(rest, start - pv, p - pv), Slice(lots[index], offset, count));
    }
  }

  lemma {:induction false} NoPosition(lots: seq<Lot>, offset: int)
    ensures PositionOf(lots, 0, offset) == offset
  {
    assert lots[..0] == [];
  }

  lemma {:induction false} PositionPast(lots: seq<Lot>, index: int, offset: int)
    requires AllPositive(lots) && 0 < index <= |lots| && 0 <= offset
    ensures AllPositive(lots[1..]) && PositionOf(lots[1..], index - 1, offset) >= 0
    ensures PositionOf(lots, index, offset) == lots[0].source.pv + PositionOf(lots[1..], index - 1, offset)
    ensures lots[1..][index - 1..] == lots[index..]
  {
    PositionStep(lots, index, offset);
    TotalPvNonNegative(lots[1..][..index - 1]);
  }

  // Past the end of a lot, what is appended behind it does not matter to its own piece.
  lemma {:induction false} CutAppend(lot: Lot, start: int, end: int, end': int, tail: seq<Slice>, s: Slice)
    requires lot.source.pv <= end && lot.source.pv <= end'
    ensures Cut(lot, start, end', tail + [s]) == Cut(lot, start, end, tail) + [s]
  {
    var from := Max(start, 0);
    AppendAssoc([Slice(lot, from, lot.source.pv - from)], tail, [s]);
  }

  lemma {:induction false} CursorInside(lots: seq<Lot>, index: int, offset: int)
    requires AllPositive(lots) && 0 <= index <= |lots|
    requires PositionOf(lots, index, offset) < TotalPv(lots) && 0 <= offset
    ensures index < |lots|
  {
    assert lots[..|lots|] == lots;
  }

  // The cursor stands on a unit of the leg, or behind its last one.
  ghost predicate Cursor(lots: seq<Lot>, index: int, offset: int) {
    && 0 <= index <= |lots|
    && 0 <= offset
    && (offset == 0 || (index < |lots| && offset < lots[index].source.pv))
  }

  method SkipClaimed(lots: seq<Lot>, skip: int) returns (index: int, offset: int)
    requires AllPositive(lots) && 0 <= skip <= TotalPv(lots)
    ensures Cursor(lots, index, offset) && PositionOf(lots, index, offset) == skip
  {
    index, offset := 0, 0;
    var left := skip;
    while left > 0
      invariant 0 <= left && 0 <= index <= |lots|
      invariant PositionOf(lots, index, 0) + left == skip
    {
      CursorInside(lots, index, 0);
      var available := lots[index].source.pv;
      if left < available {
        offset := left;
        return;
      }
      TotalPvStep(lots, index);
      left := left - available;
      index := index + 1;
    }
  }

  lemma {:induction false} FillStep(
      lots: seq<Lot>, side: Side, blockIndex: int, index: int, offset: int, start: int, count: int)
    requires AllPositive(lots) && 0 <= index < |lots|
    requires 0 <= offset && 0 < count && offset + count <= lots[index].source.pv
    requires start <= PositionOf(lots, index, offset)
    requires offset == 0 || start == PositionOf(lots, index, offset)
    ensures var p := PositionOf(lots, index, offset);
            Render(side, blockIndex, Slices(lots, start, p + count)) ==
            Render(side, blockIndex, Slices(lots, start, p))
            + [SegmentOf(side, blockIndex, Slice(lots[index], offset, count))]
    ensures PositionOf(lots, index + 1, 0) == PositionOf(lots, index, lots[index].source.pv)
  {
    hide Slices, TotalPv, Render;
    SliceStep(lots, index, offset, start, count);
    RenderAppend(side, blockIndex, Slices(lots, start, PositionOf(lots, index, offset)),
                 Slice(lots[index], offset, count));
    TotalPvStep(lots, index);
  }

  // The inner loop: consume exactly 500 PV from the cursor on.
  method FillBlock(lots: seq<Lot>, side: Side, blockIndex: int, index0: int, offset0: int)
      returns (segments: seq<Segment>, index: int, offset: int)
    requires AllPositive(lots) && Cursor(lots, index0, offset0)
    requires PositionOf(lots, index0, offset0) + BLOCK_PV <= TotalPv(lots)
    ensures Cursor(lots, index, offset)
    ensures PositionOf(lots, index, offset) == PositionOf(lots, index0, offset0) + BLOCK_PV
    ensures var start := PositionOf(lots, index0, offset0);
            segments == Render(side, blockIndex, Slices(lots, start, start + BLOCK_PV))
  {
    hide Slices, TotalPv;
    index, offset, segments := index0, offset0, [];
    ghost var start := PositionOf(lots, index0, offset0);
    EmptyRange(lots, start, start);
    var remaining := BLOCK_PV;
    while remaining > 0
      invariant 0 <= remaining <= BLOCK_PV && Cursor(lots, index, offset)
      invariant PositionOf(lots, index, offset) == start + BLOCK_PV - remaining
      invariant offset == 0 || remaining == 0 || remaining == BLOCK_PV
      invariant segments == Render(side, blockIndex, Slices(lots, start, PositionOf(lots, index, offset)))
    {
      CursorInside(lots, index, offset);
      var lot := lots[index];
      var s := lot.source;
      var consumed := Min(s.pv - offset, remaining);
      FillStep(lots, side, blockIndex, index, offset, start, consumed);
      segments := segments + [Segment(blockIndex, side, s.id, s.kind, lot.sequence, offset, consumed, s.factorBps)];
      offset := offset + consumed;
      remaining := remaining - consumed;
      if offset == s.pv {
        index := index + 1;
        offset := 0;
      }
    }
  }

  method BlockSegments(lots: seq<Lot>, side: Side, skip: int, claimed: int, count: int)
      returns (result: seq<seq<Segment>>)
    requires AllPositive(lots)
    requires 0 <= skip && 0 <= count && skip + BLOCK_PV * count <= TotalPv(lots)
    ensures |result| == count
    ensures forall b :: 0 <= b < count ==>
              result[b] == Render(side, claimed + b + 1,
                                  Slices(lots, skip + BLOCK_PV * b, skip + BLOCK_PV * (b + 1)))
  {
    hide Slices, TotalPv, Render;
    result := [];
    var index, offset := SkipClaimed(lots, skip);
    var block := 0;
    while block < count
      invariant 0 <= block <= count && |result| == block
      invariant Cursor(lots, index, offset)
      invariant PositionOf(lots, index, offset) == skip + BLOCK_PV * block
      invariant forall b :: 0 <= b < block ==>
                  result[b] == Render(side, claimed + b + 1,
                                      Slices(lots, skip + BLOCK_PV * b, skip + BLOCK_PV * (b + 1)))
    {
      var segments;
      segments, index, offset := FillBlock(lots, side, claimed + block + 1, index, offset);
      result := result + [segments];
      block := block + 1;
    }
  }
}
