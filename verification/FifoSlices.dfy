/**
 * First-in-first-out slicing of purchase lots.
 *
 * A leg is a sequence of lots in activation order. Its PV units are numbered from 0:
 * lot 0 owns the first `pv` numbers, lot 1 the next ones, and so on. `Slices` cuts the
 * half-open range [start, end) of that numbering into one slice per touched lot;
 * `Units` says which unit of which lot stands at every number, independently of any cut.
 */
module FifoSlices {
  import opened Prelude

  datatype Kind = NOWPayments | Manual

  // Money is kept in ten-thousandths of a dollar, the finest unit a source may carry.
  datatype RawSource = RawSource(
    id: string, kind: Kind, gross: int, fee: int, net: int, pv: int,
    effectiveAt: int, factorBps: int, valid: bool)

  function FeeBps(kind: Kind): int {
    match kind case NOWPayments => 100 case Manual => 300
  }

  const MAX_INT64: int := 0x7FFF_FFFF_FFFF_FFFF

  // The fields are private to the package: a valid source can only come from NewSource.
  ghost predicate Genuine(s: RawSource) {
    s.valid ==>
      && 0 < s.pv <= MAX_INT64
      && s.factorBps == 10000 - FeeBps(s.kind)
      && s.fee * 100 == (match s.kind case NOWPayments => s.gross case Manual => 3 * s.gross)
      && s.net == s.gross - s.fee
      && 0 < s.net
  }

  type Source = s: RawSource | Genuine(s)
    witness RawSource("", NOWPayments, 0, 0, 0, 0, 0, 0, false)

  datatype Lot = Lot(source: Source, sequence: nat)

  // A contiguous piece of one lot: its units offset, offset + 1, ..., offset + pv - 1.
  datatype Slice = Slice(lot: Lot, offset: int, pv: int)

  datatype Unit = Unit(lot: Lot, position: int)

  ghost predicate AllPositive(lots: seq<Lot>) {
    forall i :: 0 <= i < |lots| ==> 0 < lots[i].source.pv
  }

  ghost predicate DistinctIds(lots: seq<Lot>) {
    forall i, j :: 0 <= i < j < |lots| ==> lots[i].source.id != lots[j].source.id
  }

  function TotalPv(lots: seq<Lot>): int {
    if lots == [] then 0 else lots[0].source.pv + TotalPv(lots[1..])
  }

  // Puts the piece of one lot that lies in [start, end), if any, before the slices behind it.
  function Cut(lot: Lot, start: int, end: int, tail: seq<Slice>): seq<Slice> {
    var from, to := Max(start, 0), Min(end, lot.source.pv);
    if to > from then [Slice(lot, from, to - from)] + tail else tail
  }

  function Slices(lots: seq<Lot>, start: int, end: int): seq<Slice> {
    if lots == [] then []
    else
      var pv := lots[0].source.pv;
      Cut(lots[0], start, end, Slices(lots[1..], start - pv, end - pv))
  }

  function LotUnits(lot: Lot, from: int, to: int): (u: seq<Unit>)
    requires from <= to
    ensures |u| == to - from
  {
    seq(to - from, k requires 0 <= k < to - from => Unit(lot, from + k))
  }

  function Units(lots: seq<Lot>): seq<Unit>
    requires AllPositive(lots)
  {
    if lots == [] then [] else LotUnits(lots[0], 0, lots[0].source.pv) + Units(lots[1..])
  }

  ghost predicate Proper(slices: seq<Slice>) {
    forall i :: 0 <= i < |slices| ==> 0 < slices[i].pv
  }

  function Expand(slices: seq<Slice>): seq<Unit>
    requires Proper(slices)
  {
    if slices == [] then []
    else LotUnits(slices[0].lot, slices[0].offset, slices[0].offset + slices[0].pv) + Expand(slices[1..])
  }

  function SlicesPv(slices: seq<Slice>): int {
    if slices == [] then 0 else slices[0].pv + SlicesPv(slices[1..])
  }

  /* ----- Basic facts about legs ----- */

  lemma {:induction false} TotalPvNonNegative(lots: seq<Lot>)
    requires AllPositive(lots)
    ensures 0 <= TotalPv(lots)
    ensures lots != [] ==> 0 < TotalPv(lots)
  {
    if lots != [] { TotalPvNonNegative(lots[1..]); }
  }

  lemma {:induction false} TotalPvAppend(a: seq<Lot>, b: seq<Lot>)
    ensures TotalPv(a + b) == TotalPv(a) + TotalPv(b)
  {
    if a == [] {
      assert a + b == b;
    } else {
      assert (a + b)[1..] == a[1..] + b;
      TotalPvAppend(a[1..], b);
    }
  }

  lemma {:induction false} EmptyRange(lots: seq<Lot>, start: int, end: int)
    requires AllPositive(lots)
    requires end <= start || end <= 0
    ensures Slices(lots, start, end) == []
    decreases |lots|
  {
    if lots != [] {
      var pv := lots[0].source.pv;
      EmptyRange(lots[1..], start - pv, end - pv);
    }
  }

  ghost predicate Within(lots: seq<Lot>, s: Slice) {
    s.lot in lots && 0 <= s.offset && 0 < s.pv && s.offset + s.pv <= s.lot.source.pv
  }

  lemma {:induction false} CutIsProper(lots: seq<Lot>, start: int, end: int, tail: seq<Slice>)
    requires lots != [] && 0 < lots[0].source.pv
    requires forall i :: 0 <= i < |tail| ==> Within(lots[1..], tail[i])
    ensures var c := Cut(lots[0], start, end, tail);
            Proper(c) && forall i :: 0 <= i < |c| ==> Within(lots, c[i])
  {
    var c := Cut(lots[0], start, end, tail);
    forall i | 0 <= i < |c| ensures Within(lots, c[i]) {
      if |c| == |tail| {
        assert Within(lots[1..], tail[i]);
      } else if i > 0 {
        assert c[i] == tail[i - 1];
        assert Within(lots[1..], tail[i - 1]);
      }
    }
  }

  // Every slice is a non-empty piece of a lot of the leg.
  lemma {:induction false} SlicesAreProper(lots: seq<Lot>, start: int, end: int)
    requires AllPositive(lots)
    ensures Proper(Slices(lots, start, end))
    ensures forall i :: 0 <= i < |Slices(lots, start, end)| ==> Within(lots, Slices(lots, start, end)[i])
    decreases |lots|
  {
    if lots != [] {
      var pv := lots[0].source.pv;
      SlicesAreProper(lots[1..], start - pv, end - pv);
      CutIsProper(lots, start, end, Slices(lots[1..], start - pv, end - pv));
    }
  }

  lemma {:induction false} ExpandCons(s: Slice, rest: seq<Slice>)
    requires 0 < s.pv && Proper(rest)
    ensures Proper([s] + rest)
    ensures Expand([s] + rest) == LotUnits(s.lot, s.offset, s.offset + s.pv) + Expand(rest)
  {
    assert ([s] + rest)[1..] == rest;
  }

  lemma {:induction false} SlicesPvCons(s: Slice, rest: seq<Slice>)
    ensures SlicesPv([s] + rest) == s.pv + SlicesPv(rest)
  {
    assert ([s] + rest)[1..] == rest;
  }

  /* ----- What a slicing means ----- */

  lemma {:induction false} UnitsLength(lots: seq<Lot>)
    requires AllPositive(lots)
    ensures |Units(lots)| == TotalPv(lots)
  {
    if lots != [] { UnitsLength(lots[1..]); }
  }

  lemma {:induction false} SliceOfConcat<T>(a: seq<T>, b: seq<T>, start: int, end: int)
    requires 0 <= start <= end <= |a| + |b|
    ensures (a + b)[start..end] ==
            if |a| <= start then b[start - |a|..end - |a|]
            else if end <= |a| then a[start..end]
            else a[start..] + b[..end - |a|]
  {
  }

  lemma {:induction false} PartOfLot(lot: Lot, from: int, to: int)
    requires 0 <= from <= to <= lot.source.pv
    ensures LotUnits(lot, 0, lot.source.pv)[from..to] == LotUnits(lot, from, to)
  {
  }

  lemma {:induction false} UnitsStep(lot: Lot, tail: seq<Slice>, units: seq<Unit>, start: int, end: int)
    requires 0 < lot.source.pv && Proper(tail)
    requires 0 <= start <= end <= lot.source.pv + |units|
    requires Expand(tail) == units[Max(start - lot.source.pv, 0)..Max(end - lot.source.pv, 0)]
    ensures Proper(Cut(lot, start, end, tail))
    ensures Expand(Cut(lot, start, end, tail)) == (LotUnits(lot, 0, lot.source.pv) + units)[start..end]
  {
    var pv := lot.source.pv;
    SliceOfConcat(LotUnits(lot, 0, pv), units, start, end);
    if start < end && start < pv {
      ExpandCons(Slice(lot, start, Min(end, pv) - start), tail);
      PartOfLot(lot, start, Min(end, pv));
    }
  }

  // The slices of [start, end) are exactly the units numbered start .. end - 1, in order.
  lemma {:induction false} SlicesAreUnits(lots: seq<Lot>, start: int, end: int)
    requires AllPositive(lots)
    requires 0 <= start <= end <= TotalPv(lots)
    ensures |Units(lots)| == TotalPv(lots)
    ensures Proper(Slices(lots, start, end))
    ensures Expand(Slices(lots, start, end)) == Units(lots)[start..end]
    decreases |lots|
  {
    UnitsLength(lots);
    if lots != [] {
      var rest, pv := lots[1..], lots[0].source.pv;
      var from, to := Max(start - pv, 0), Max(end - pv, 0);
      TotalPvNonNegative(rest);
      SlicesAreUnits(rest, from, to);
      SameRange(rest, start - pv, end - pv, from, to);
      UnitsStep(lots[0], Slices(rest, from, to), Units(rest), start, end);
    }
  }

  // Clamping a range to the leg changes nothing.
  lemma {:induction false} SameRange(lots: seq<Lot>, a: int, b: int, a': int, b': int)
    requires AllPositive(lots)
    requires Max(a, 0) == Max(a', 0) && Max(b, 0) == Max(b', 0)
    ensures Slices(lots, a, b) == Slices(lots, a', b')
    decreases |lots|
  {
    if lots != [] {
      var pv := lots[0].source.pv;
      SameRange(lots[1..], a - pv, b - pv, a' - pv, b' - pv);
    }
  }

  lemma {:induction false} SlicesTotal(lots: seq<Lot>, start: int, end: int)
    requires AllPositive(lots)
    requires 0 <= start <= end <= TotalPv(lots)
    ensures SlicesPv(Slices(lots, start, end)) == end - start
    decreases |lots|
  {
    if lots != [] {
      var rest, pv := lots[1..], lots[0].source.pv;
      var from, to := Max(start - pv, 0), Max(end - pv, 0);
      TotalPvNonNegative(rest);
      SlicesTotal(rest, from, to);
      SameRange(rest, start - pv, end - pv, from, to);
      if start < end && start < pv {
        SlicesPvCons(Slice(lots[0], start, Min(end, pv) - start), Slices(rest, from, to));
      }
    }
  }

  // Lots appended behind a range do not change it.
  lemma {:induction false} SlicesIgnoreLaterLots(lots: seq<Lot>, later: seq<Lot>, start: int, end: int)
    requires AllPositive(lots) && AllPositive(later)
    requires end <= TotalPv(lots)
    ensures Slices(lots + later, start, end) == Slices(lots, start, end)
    decreases |lots|
  {
    if lots == [] {
      EmptyRange(later, start, end);
      assert lots + later == later;
    } else {
      var pv := lots[0].source.pv;
      assert (lots + later)[1..] == lots[1..] + later;
      SlicesIgnoreLaterLots(lots[1..], later, start - pv, end - pv);
    }
  }

  /* ----- Cutting an already sliced prefix again ----- */

  function Recut(s: Slice, start: int, end: int, tail: seq<Slice>): seq<Slice> {
    var from, to := Max(start, 0), Min(end, s.pv);
    if to > from then [Slice(s.lot, s.offset + from, to - from)] + tail else tail
  }

  function Reslice(slices: seq<Slice>, start: int, end: int): seq<Slice> {
    if slices == [] then []
    else
      var s := slices[0];
      Recut(s, start, end, Reslice(slices[1..], start - s.pv, end - s.pv))
  }

  lemma {:induction false} ResliceCons(s: Slice, rest: seq<Slice>, start: int, end: int)
    ensures Reslice([s] + rest, start, end) == Recut(s, start, end, Reslice(rest, start - s.pv, end - s.pv))
  {
    assert ([s] + rest)[1..] == rest;
  }

  lemma {:induction false} ResliceStep(
      lot: Lot, tail: seq<Slice>, part: seq<Slice>, low: int, bound: int, start: int, end: int)
    requires 0 < lot.source.pv
    requires low <= 0 < bound && end <= bound
    requires if bound < lot.source.pv then tail == part == []
             else part == Reslice(tail, start - lot.source.pv, end - lot.source.pv)
    ensures Cut(lot, start, end, part) == Reslice(Cut(lot, low, bound, tail), start, end)
  {
    ResliceCons(Slice(lot, 0, Min(bound, lot.source.pv)), tail, start, end);
  }

  lemma {:induction false} SlicesUnfold(lots: seq<Lot>, start: int, end: int)
    requires lots != []
    ensures Slices(lots, start, end) ==
            Cut(lots[0], start, end,
                Slices(lots[1..], start - lots[0].source.pv, end - lots[0].source.pv))
  {
  }

  // Slicing any part of a prefix needs only the slices of that prefix.
  lemma {:induction false} SlicesFromPrefix(lots: seq<Lot>, low: int, bound: int, start: int, end: int)
    requires AllPositive(lots)
    requires low <= 0 && end <= bound
    ensures Slices(lots, start, end) == Reslice(Slices(lots, low, bound), start, end)
    decreases |lots|
  {
    if lots == [] {
    } else if bound <= 0 {
      EmptyRange(lots, start, end);
      EmptyRange(lots, low, bound);
    } else {
      hide Slices, Cut, Reslice;
      SlicesUnfold(lots, start, end);
      SlicesUnfold(lots, low, bound);
      var rest, pv := lots[1..], lots[0].source.pv;
      if bound < pv {
        EmptyRange(rest, low - pv, bound - pv);
        EmptyRange(rest, start - pv, end - pv);
      } else {
        SlicesFromPrefix(rest, low - pv, bound - pv, start - pv, end - pv);
      }
      ResliceStep(lots[0], Slices(rest, low - pv, bound - pv), Slices(rest, start - pv, end - pv),
                  low, bound, start, end);
    }
  }

  /* ----- Merging adjacent slices ----- */

  predicate Joins(a: Slice, b: Slice) {
    a.lot == b.lot && a.offset + a.pv == b.offset
  }

  ghost predicate Maximal(slices: seq<Slice>) {
    forall i :: 0 <= i < |slices| - 1 ==> !Joins(slices[i], slices[i + 1])
  }

  function Glue(s: Slice, rest: seq<Slice>): seq<Slice> {
    if rest != [] && Joins(s, rest[0]) then [Slice(s.lot, s.offset, s.pv + rest[0].pv)] + rest[1..]
    else [s] + rest
  }

  function Merge(slices: seq<Slice>): seq<Slice> {
    if slices == [] then [] else Glue(slices[0], Merge(slices[1..]))
  }

  lemma {:induction false} ConsIsMaximal(s: Slice, rest: seq<Slice>)
    requires 0 < s.pv && Proper(rest) && Maximal(rest)
    requires rest != [] ==> !Joins(s, rest[0])
    ensures Proper([s] + rest) && Maximal([s] + rest)
  {
    var all := [s] + rest;
    forall i | 0 <= i < |all| - 1 ensures !Joins(all[i], all[i + 1]) {
      assert all[i + 1] == rest[i];
      if i > 0 { assert all[i] == rest[i - 1]; }
    }
  }

  lemma {:induction false} LotUnitsJoin(lot: Lot, a: int, b: int, c: int)
    requires a <= b <= c
    ensures LotUnits(lot, a, b) + LotUnits(lot, b, c) == LotUnits(lot, a, c)
  {
  }

  lemma {:induction false} GlueKeepsUnits(s: Slice, rest: seq<Slice>)
    requires 0 < s.pv && Proper(rest) && Maximal(rest)
    ensures Proper(Glue(s, rest)) && Maximal(Glue(s, rest))
    ensures Expand(Glue(s, rest)) == LotUnits(s.lot, s.offset, s.offset + s.pv) + Expand(rest)
  {
    if rest != [] && Joins(s, rest[0]) {
      var n, tail := rest[0], rest[1..];
      var joined := Slice(s.lot, s.offset, s.pv + n.pv);
      assert Maximal(tail) && Proper(tail) by {
        assert forall i :: 0 <= i < |tail| ==> tail[i] == rest[i + 1];
      }
      assert tail != [] ==> !Joins(n, tail[0]) by { if tail != [] { assert rest[1] == tail[0]; } }
      ConsIsMaximal(joined, tail);
      ExpandCons(joined, tail);
      LotUnitsJoin(s.lot, s.offset, n.offset, n.offset + n.pv);
      AppendAssoc(LotUnits(s.lot, s.offset, n.offset), LotUnits(n.lot, n.offset, n.offset + n.pv), Expand(tail));
    } else {
      ConsIsMaximal(s, rest);
      ExpandCons(s, rest);
    }
  }

  // Merging changes no unit and leaves nothing to merge.
  lemma {:induction false} MergeKeepsUnits(slices: seq<Slice>)
    requires Proper(slices)
    ensures Proper(Merge(slices)) && Maximal(Merge(slices))
    ensures Expand(Merge(slices)) == Expand(slices)
  {
    if slices != [] {
      MergeKeepsUnits(slices[1..]);
      GlueKeepsUnits(slices[0], Merge(slices[1..]));
    }
  }

  lemma {:induction false} CutIsMaximal(first: Lot, start: int, end: int, rest: seq<Slice>)
    requires Proper(rest) && Maximal(rest) && (rest != [] ==> rest[0].lot != first)
    ensures Proper(Cut(first, start, end, rest)) && Maximal(Cut(first, start, end, rest))
  {
    hide Proper, Maximal;
    var from, to := Max(start, 0), Min(end, first.source.pv);
    if to > from { ConsIsMaximal(Slice(first, from, to - from), rest); }
  }

  lemma {:induction false} FirstIsOther(lots: seq<Lot>, start: int, end: int)
    requires lots != [] && AllPositive(lots) && DistinctIds(lots)
    ensures var rest := Slices(lots[1..], start, end); rest != [] ==> rest[0].lot != lots[0]
  {
    var others, rest := lots[1..], Slices(lots[1..], start, end);
    SlicesAreProper(others, start, end);
    hide Slices, Proper;
    if rest != [] {
      assert Within(others, rest[0]);
      var i :| 0 <= i < |others| && others[i] == rest[0].lot;
      assert lots[i + 1] == others[i];
    }
  }

  lemma {:induction false} OthersAreGood(lots: seq<Lot>)
    requires lots != [] && AllPositive(lots) && DistinctIds(lots)
    ensures AllPositive(lots[1..]) && DistinctIds(lots[1..])
  {
  }

  // The slices of one cut belong to pairwise different lots, so they are already merged.
  lemma {:induction false} SlicesAreMaximal(lots: seq<Lot>, start: int, end: int)
    requires AllPositive(lots) && DistinctIds(lots)
    ensures Proper(Slices(lots, start, end)) && Maximal(Slices(lots, start, end))
    decreases |lots|
  {
    hide Proper, Maximal, AllPositive, DistinctIds, Cut;
    if lots == [] {
      NothingIsMaximal();
    } else {
      var pv := lots[0].source.pv;
      OthersAreGood(lots);
      SlicesAreMaximal(lots[1..], start - pv, end - pv);
      FirstIsOther(lots, start - pv, end - pv);
      CutIsMaximal(lots[0], start, end, Slices(lots[1..], start - pv, end - pv));
    }
  }

  lemma {:induction false} NothingIsMaximal()
    ensures Proper([]) && Maximal([])
  {
  }

  lemma {:induction false} FirstUnits(a: seq<Slice>)
    requires Proper(a) && a != []
    ensures |Expand(a)| >= a[0].pv
    ensures forall k :: 0 <= k < a[0].pv ==> Expand(a)[k] == Unit(a[0].lot, a[0].offset + k)
    ensures Expand(a)[a[0].pv..] == Expand(a[1..])
  {
  }

  lemma {:induction false} ShorterHeadJoins(a: seq<Slice>, b: seq<Slice>)
    requires Proper(a) && a != [] && Proper(b) && b != []
    requires Expand(a) == Expand(b)
    requires a[0].lot == b[0].lot && a[0].offset == b[0].offset && a[0].pv < b[0].pv
    ensures |a| > 1 ==> Joins(a[0], a[1])
    ensures |a| > 1
  {
    FirstUnits(a);
    FirstUnits(b);
    var n := a[0].pv;
    assert Expand(b)[n] == Unit(b[0].lot, b[0].offset + n);
    if |a| > 1 {
      FirstUnits(a[1..]);
      assert Expand(a)[n] == Expand(a)[n..][0];
    }
  }

  // A list of slices that cannot be merged further is determined by its units.
  lemma {:induction false} MaximalIsUnique(a: seq<Slice>, b: seq<Slice>)
    requires Proper(a) && Maximal(a) && Proper(b) && Maximal(b)
    requires Expand(a) == Expand(b)
    ensures a == b
  {
    if a != [] && b != [] {
      FirstUnits(a);
      FirstUnits(b);
      assert Expand(a)[0] == Expand(b)[0];
      if a[0].pv < b[0].pv {
        ShorterHeadJoins(a, b);
      } else if b[0].pv < a[0].pv {
        ShorterHeadJoins(b, a);
      }
      MaximalIsUnique(a[1..], b[1..]);
      assert a == [a[0]] + a[1..] && b == [b[0]] + b[1..];
    } else if a != [] {
      FirstUnits(a);
    } else if b != [] {
      FirstUnits(b);
    }
  }
}
