/**
 * Where the lots of the weekly binary pay come from: every sale climbs the genealogy and joins
 * one leg of each of up to ten ancestors. With a fixed genealogy no week ever finds its claims
 * drifted; a claimed sale that hangs elsewhere later stops every following week.
 */
module NowVolumes {
  import opened Prelude
  import opened FifoSlices
  import opened FifoAllocation
  import opened LotOrder
  import opened BinaryPreview
  import opened ClaimHistory
  import opened MembershipSource

  const DEPTH := 10
  const MAX_SALES := 5000

  // Parent 0 is none. A stored position that is neither L nor R has no side.
  datatype Node = Node(parent: int, side: Option<Side>)

  type Members = map<int, Node>

  // Sales in order of activation.
  datatype Sale = Sale(affiliate: int, activated: int, input: SourceInput)

  datatype Volume = Volume(left: seq<Lot>, right: seq<Lot>)

  datatype VolumeError = BadSource(error: SourceError) | UnknownSide

  type Volumes = map<int, Volume>

  function SourceOf(s: Sale): Result<Source, SourceError> { NewSource(s.input.(effectiveAt := s.activated)) }

  function VolumeAt(vs: Volumes, a: int): Volume { if a in vs then vs[a] else Volume([], []) }

  function Added(v: Volume, side: Side, lot: Lot): Volume {
    if side == L then v.(left := v.left + [lot]) else v.(right := v.right + [lot])
  }

  // From the buyer up, at most `depth` ancestors.
  function Climb(vs: Volumes, members: Members, child: int, lot: Lot, depth: nat): Result<Volumes, VolumeError>
    decreases depth
  {
    if depth == 0 || child !in members || members[child].parent == 0 then Ok(vs)
    else
      var n := members[child];
      if n.side.None? then Err(UnknownSide)
      else Climb(vs[n.parent := Added(VolumeAt(vs, n.parent), n.side.value, lot)], members, n.parent, lot, depth - 1)
  }

  function Collect(members: Members, sales: seq<Sale>, end: int): Result<Volumes, VolumeError> {
    if sales == [] then Ok(map[])
    else
      var before, sale := Collect(members, sales[..|sales| - 1], end), sales[|sales| - 1];
      if before.Err? || sale.activated >= end then before
      else
        var source := SourceOf(sale);
        if source.Err? then Err(BadSource(source.error))
        else Climb(before.value, members, sale.affiliate, Lot(source.value, |sales|), DEPTH)
  }

  // The inner loop: one lot, level by level.
  method ClimbUp(volumes: Volumes, members: Members, buyer: int, lot: Lot) returns (r: Result<Volumes, VolumeError>)
    ensures r == Climb(volumes, members, buyer, lot, DEPTH)
  {
    var filled, child, depth := volumes, buyer, 0;
    while depth < DEPTH && child in members && members[child].parent != 0
      invariant depth <= DEPTH
      invariant Climb(filled, members, child, lot, DEPTH - depth) == Climb(volumes, members, buyer, lot, DEPTH)
    {
      var node := members[child];
      var v := if node.parent in filled then filled[node.parent] else Volume([], []);
      if node.side == Some(L) {
        v := v.(left := v.left + [lot]);
      } else if node.side == Some(R) {
        v := v.(right := v.right + [lot]);
      } else {
        return Err(UnknownSide);
      }
      filled := filled[node.parent := v];
      child := node.parent;
      depth := depth + 1;
    }
    return Ok(filled);
  }

  /** The loop that fills the volumes, sale by sale. */
  method CollectVolumes(members: Members, sales: seq<Sale>, end: int) returns (r: Result<Volumes, VolumeError>)
    ensures r == Collect(members, sales, end)
  {
    hide NewSource, Climb;
    var volumes: Volumes := map[];
    for index := 0 to |sales|
      invariant Collect(members, sales[..index], end) == Ok(volumes)
    {
      var sale := sales[index];
      assert sales[..index + 1][..index] == sales[..index] && sales[..index + 1][index] == sale;
      if sale.activated >= end { continue; }
      var source := NewSource(sale.input.(effectiveAt := sale.activated));
      if source.Err? {
        FailureStays(members, sales, index + 1, end);
        return Err(BadSource(source.error));
      }
      var climbed := ClimbUp(volumes, members, sale.affiliate, Lot(source.value, index + 1));
      if climbed.Err? {
        FailureStays(members, sales, index + 1, end);
        return climbed;
      }
      volumes := climbed.value;
    }
    assert sales[..|sales|] == sales;
    return Ok(volumes);
  }

  lemma {:induction false} FailureStays(members: Members, sales: seq<Sale>, n: nat, end: int)
    requires n <= |sales| && Collect(members, sales[..n], end).Err?
    ensures Collect(members, sales, end) == Collect(members, sales[..n], end)
    decreases |sales|
  {
    hide SourceOf, Climb;
    if n < |sales| {
      assert sales[..|sales| - 1][..n] == sales[..n];
      FailureStays(members, sales[..|sales| - 1], n, end);
    } else {
      assert sales[..n] == sales;
    }
  }

  /* ----- The legs they fill ----- */

  // Within `depth` levels above the child stands a, and the child hangs on that side of it.
  predicate Hangs(members: Members, child: int, a: int, side: Side, depth: nat)
    decreases depth
  {
    && depth > 0 && child in members && members[child].parent != 0
    && ((members[child].parent == a && members[child].side == Some(side))
        || Hangs(members, members[child].parent, a, side, depth - 1))
  }

  // Ranks that fall along every parent link rule out cycles.
  ghost predicate Acyclic(members: Members, rank: map<int, int>) {
    forall c :: c in members ==>
      c in rank && (members[c].parent in members ==> members[c].parent in rank && rank[members[c].parent] < rank[c])
  }

  lemma {:induction false} HangsBelow(members: Members, rank: map<int, int>, c: int, a: int, side: Side, depth: nat)
    requires Acyclic(members, rank) && Hangs(members, c, a, side, depth)
    ensures c in members && c in rank && (a in members ==> a in rank && rank[a] < rank[c])
    decreases depth
  {
    if !(members[c].parent == a && members[c].side == Some(side)) {
      HangsBelow(members, rank, members[c].parent, a, side, depth - 1);
    }
  }

  lemma {:induction false} NotBelowItself(members: Members, rank: map<int, int>, a: int, side: Side, depth: nat)
    requires Acyclic(members, rank)
    ensures !Hangs(members, a, a, side, depth)
  {
    if Hangs(members, a, a, side, depth) {
      HangsBelow(members, rank, a, a, side, depth);
    }
  }

  // A buyer hangs in at most one leg of an ancestor.
  lemma {:induction false} OneLeg(members: Members, rank: map<int, int>, c: int, a: int, depth: nat)
    requires Acyclic(members, rank) && Hangs(members, c, a, L, depth)
    ensures !Hangs(members, c, a, R, depth)
    decreases depth
  {
    var p := members[c].parent;
    if p == a {
      NotBelowItself(members, rank, a, L, depth - 1);
      NotBelowItself(members, rank, a, R, depth - 1);
    } else {
      OneLeg(members, rank, p, a, depth - 1);
    }
  }

  function Joins(lots: seq<Lot>, lot: Lot, joins: bool): seq<Lot> { if joins then lots + [lot] else lots }

  // One sale joins exactly the legs its buyer hangs in.
  lemma {:induction false} ClimbJoins(
      vs: Volumes, members: Members, rank: map<int, int>, child: int, lot: Lot, depth: nat, a: int)
    requires Acyclic(members, rank) && Climb(vs, members, child, lot, depth).Ok?
    ensures VolumeAt(Climb(vs, members, child, lot, depth).value, a) ==
            Volume(Joins(VolumeAt(vs, a).left, lot, Hangs(members, child, a, L, depth)),
                   Joins(VolumeAt(vs, a).right, lot, Hangs(members, child, a, R, depth)))
    decreases depth
  {
    if depth > 0 && child in members && members[child].parent != 0 {
      var n := members[child];
      var vs' := vs[n.parent := Added(VolumeAt(vs, n.parent), n.side.value, lot)];
      ClimbJoins(vs', members, rank, n.parent, lot, depth - 1, a);
      if n.parent == a {
        NotBelowItself(members, rank, a, L, depth - 1);
        NotBelowItself(members, rank, a, R, depth - 1);
      }
      hide Acyclic;
    }
  }

  predicate Counts(members: Members, s: Sale, end: int, a: int, side: Side) {
    s.activated < end && SourceOf(s).Ok? && Hangs(members, s.affiliate, a, side, DEPTH)
  }

  // One leg on its own: the sales before the end whose buyers hang in it.
  function LegLots(members: Members, sales: seq<Sale>, end: int, a: int, side: Side): seq<Lot> {
    if sales == [] then []
    else
      var before, s := LegLots(members, sales[..|sales| - 1], end, a, side), sales[|sales| - 1];
      if Counts(members, s, end, a, side) then before + [Lot(SourceOf(s).value, |sales|)] else before
  }

  /** The loops give every ancestor exactly its two legs. */
  lemma {:induction false} CollectIsLegs(members: Members, rank: map<int, int>, sales: seq<Sale>, end: int, a: int)
    requires Acyclic(members, rank) && Collect(members, sales, end).Ok?
    ensures VolumeAt(Collect(members, sales, end).value, a) ==
            Volume(LegLots(members, sales, end, a, L), LegLots(members, sales, end, a, R))
    decreases |sales|
  {
    hide NewSource, Hangs, Acyclic, Climb;
    if sales != [] {
      var before, sale := Collect(members, sales[..|sales| - 1], end), sales[|sales| - 1];
      CollectIsLegs(members, rank, sales[..|sales| - 1], end, a);
      if sale.activated < end && SourceOf(sale).Ok? {
        ClimbJoins(before.value, members, rank, sale.affiliate, Lot(SourceOf(sale).value, |sales|), DEPTH, a);
      }
    }
  }

  // A lot of a leg is a counted sale under its own number.
  predicate FromSale(members: Members, sales: seq<Sale>, end: int, a: int, side: Side, lot: Lot) {
    && 1 <= lot.sequence <= |sales|
    && Counts(members, sales[lot.sequence - 1], end, a, side)
    && SourceOf(sales[lot.sequence - 1]) == Ok(lot.source)
  }

  lemma {:induction false} LegLotsAre(members: Members, sales: seq<Sale>, end: int, a: int, side: Side)
    ensures var lots := LegLots(members, sales, end, a, side);
            && |lots| <= |sales| && Sorted(lots)
            && forall i :: 0 <= i < |lots| ==> FromSale(members, sales, end, a, side, lots[i])
    decreases |sales|
  {
    hide Hangs, NewSource;
    if sales != [] {
      var shorter := sales[..|sales| - 1];
      LegLotsAre(members, shorter, end, a, side);
      var before, lots := LegLots(members, shorter, end, a, side), LegLots(members, sales, end, a, side);
      forall i | 0 <= i < |lots| ensures FromSale(members, sales, end, a, side, lots[i]) {
        if i < |before| {
          assert FromSale(members, shorter, end, a, side, lots[i]);
          assert shorter[lots[i].sequence - 1] == sales[lots[i].sequence - 1];
        }
      }
      forall i, j | 0 <= i < j < |lots| ensures lots[i].sequence < lots[j].sequence {
        assert i < |before| && lots[i] == before[i] && FromSale(members, shorter, end, a, side, before[i]);
        if j < |before| { assert before[i].sequence < before[j].sequence; }
      }
    }
  }

  /* ----- Every week's request is well formed ----- */

  ghost predicate ValidSales(sales: seq<Sale>) {
    && |sales| <= MAX_SALES
    && (forall i, j :: 0 <= i < j < |sales| ==>
          sales[i].input.id != sales[j].input.id && sales[i].activated <= sales[j].activated)
  }

  function Request(
      members: Members, sales: seq<Sale>, end: int, a: int, claimed: int, hash: ClaimHash,
      founder: bool): PreviewRequest {
    PreviewRequest(LegLots(members, sales, end, a, L), LegLots(members, sales, end, a, R), end, claimed, hash, founder)
  }

  lemma {:induction false} SourceKeeps(s: Sale)
    requires SourceOf(s).Ok?
    ensures var source := SourceOf(s).value;
            source.valid && source.id == s.input.id && source.effectiveAt == s.activated && 0 < source.pv
  {
    hide Money, CanonicalId, KindOf;
  }

  // Facts about two lots of the legs of one ancestor.
  lemma {:induction false} LotFacts(
      members: Members, rank: map<int, int>, sales: seq<Sale>, end: int, a: int, side: Side, side': Side, x: Lot,
      y: Lot)
    requires Acyclic(members, rank) && ValidSales(sales)
    requires FromSale(members, sales, end, a, side, x) && FromSale(members, sales, end, a, side', y)
    ensures x.source.valid && x.source.effectiveAt <= end && x.sequence != 0
    ensures x.sequence != y.sequence || side != side' ==>
              x.source.id != y.source.id && x.sequence != y.sequence
  {
    var s, t := sales[x.sequence - 1], sales[y.sequence - 1];
    SourceKeeps(s);
    SourceKeeps(t);
    if side != side' && x.sequence == y.sequence {
      OneLeg(members, rank, if side == L then s.affiliate else t.affiliate, a, DEPTH);
    }
    hide SourceOf, Acyclic, Hangs;
  }

  lemma {:induction false} LegIsOk(
      members: Members, rank: map<int, int>, sales: seq<Sale>, end: int, a: int, side: Side, ids: set<string>,
      sequences: set<nat>)
    requires Acyclic(members, rank) && ValidSales(sales)
    requires TotalPv(LegLots(members, sales, end, a, side)) <= MAX_INT64
    requires forall x :: FromSale(members, sales, end, a, side, x) ==> x.source.id !in ids && x.sequence !in sequences
    ensures LotsOk(LegLots(members, sales, end, a, side), end, ids, sequences)
  {
    LegLotsAre(members, sales, end, a, side);
    hide FromSale, Acyclic, ValidSales, LegLots, TotalPv;
    var lots := LegLots(members, sales, end, a, side);
    forall i | 0 <= i < |lots| ensures LotOk(lots[i], end, ids, sequences) {
      LotFacts(members, rank, sales, end, a, side, side, lots[i], lots[i]);
    }
    forall i, j | 0 <= i < j < |lots| ensures lots[i].source.id != lots[j].source.id {
      LotFacts(members, rank, sales, end, a, side, side, lots[i], lots[j]);
    }
  }

  ghost predicate FitsPv(members: Members, sales: seq<Sale>, end: int, a: int) {
    && TotalPv(LegLots(members, sales, end, a, L)) <= MAX_INT64
    && TotalPv(LegLots(members, sales, end, a, R)) <= MAX_INT64
  }

  /** The allocator never turns a week's legs down as malformed. */
  lemma {:induction false} RequestIsWellFormed(
      members: Members, rank: map<int, int>, sales: seq<Sale>, end: int, a: int, claimed: int, hash: ClaimHash,
      founder: bool)
    requires Acyclic(members, rank) && ValidSales(sales) && ValidTime(end) && FitsPv(members, sales, end, a)
    requires if claimed == 0 then hash == NoHash else 0 < claimed && hash.Hash?
    ensures WellFormed(Request(members, sales, end, a, claimed, hash, founder))
  {
    hide LegLots, TotalPv, Acyclic, FromSale, LotsOk;
    var left, right := LegLots(members, sales, end, a, L), LegLots(members, sales, end, a, R);
    LegIsOk(members, rank, sales, end, a, L, {}, {});
    LegLotsAre(members, sales, end, a, L);
    LegLotsAre(members, sales, end, a, R);
    forall x | FromSale(members, sales, end, a, R, x)
      ensures x.source.id !in IdsOf(left) && x.sequence !in SequencesOf(left)
    {
      forall i | 0 <= i < |left| ensures left[i].source.id != x.source.id && left[i].sequence != x.sequence {
        LotFacts(members, rank, sales, end, a, L, R, left[i], x);
      }
    }
    LegIsOk(members, rank, sales, end, a, R, IdsOf(left), SequencesOf(left));
  }

  /* ----- Legs only grow at their end ----- */

  // How many sales were activated before an instant.
  function Before(sales: seq<Sale>, end: int): (k: nat)
    ensures k <= |sales|
  {
    if sales == [] then 0
    else if sales[|sales| - 1].activated < end then |sales| else Before(sales[..|sales| - 1], end)
  }

  lemma {:induction false} BeforeCuts(sales: seq<Sale>, end: int)
    requires ValidSales(sales)
    ensures forall i :: 0 <= i < |sales| ==> (sales[i].activated < end <==> i < Before(sales, end))
    decreases |sales|
  {
    if sales != [] && sales[|sales| - 1].activated >= end {
      var shorter := sales[..|sales| - 1];
      BeforeCuts(shorter, end);
      forall i | 0 <= i < |sales| ensures sales[i].activated < end <==> i < Before(sales, end) {
        if i < |shorter| { assert shorter[i] == sales[i]; }
      }
    }
  }

  // A leg at a later end is the lots of the first k sales followed by others.
  lemma {:induction false} LegSplits(members: Members, sales: seq<Sale>, end: int, a: int, side: Side, k: nat)
      returns (added: seq<Lot>)
    requires k <= |sales|
    ensures LegLots(members, sales, end, a, side) == LegLots(members, sales[..k], end, a, side) + added
    ensures forall y :: y in added ==> k < y.sequence
    decreases |sales|
  {
    hide NewSource, Hangs;
    if k == |sales| {
      assert sales[..k] == sales;
      added := [];
    } else {
      var shorter := sales[..|sales| - 1];
      assert shorter[..k] == sales[..k];
      added := LegSplits(members, shorter, end, a, side, k);
      var s := sales[|sales| - 1];
      if Counts(members, s, end, a, side) { added := added + [Lot(SourceOf(s).value, |sales|)]; }
    }
  }

  // Sales that all count either way give the same leg at both ends.
  lemma {:induction false} SameLeg(members: Members, sales: seq<Sale>, end: int, end': int, a: int, side: Side)
    requires forall i :: 0 <= i < |sales| ==> sales[i].activated < end && sales[i].activated < end'
    ensures LegLots(members, sales, end, a, side) == LegLots(members, sales, end', a, side)
    decreases |sales|
  {
    hide SourceOf, Hangs;
    if sales != [] { SameLeg(members, sales[..|sales| - 1], end, end', a, side); }
  }

  lemma {:induction false} NothingAfter(members: Members, sales: seq<Sale>, end: int, a: int, side: Side, k: nat)
    requires k <= |sales| && forall i :: k <= i < |sales| ==> end <= sales[i].activated
    ensures LegLots(members, sales, end, a, side) == LegLots(members, sales[..k], end, a, side)
    decreases |sales|
  {
    hide SourceOf, Hangs;
    if k == |sales| {
      assert sales[..k] == sales;
    } else {
      assert sales[..|sales| - 1][..k] == sales[..k];
      NothingAfter(members, sales[..|sales| - 1], end, a, side, k);
    }
  }

  lemma {:induction false} LegGrows(
      members: Members, sales: seq<Sale>, more: seq<Sale>, end: int, end': int, a: int, side: Side)
    requires ValidSales(sales + more) && end <= end'
    ensures Grows(LegLots(members, sales, end, a, side), LegLots(members, sales + more, end', a, side))
  {
    var all := sales + more;
    var k := Before(sales, end);
    assert ValidSales(sales) by { forall i | 0 <= i < |sales| ensures all[i] == sales[i] { } }
    BeforeCuts(sales, end);
    assert all[..k] == sales[..k];
    NothingAfter(members, sales, end, a, side, k);
    SameLeg(members, sales[..k], end, end', a, side);
    LegLotsAre(members, sales[..k], end, a, side);
    var added := LegSplits(members, all, end', a, side, k);
    var before := LegLots(members, sales, end, a, side);
    hide LegLots, ValidSales, Counts;
    forall x, y | x in before && y in added ensures x.sequence < y.sequence {
      var i :| 0 <= i < |before| && before[i] == x;
      assert FromSale(members, sales[..k], end, a, side, before[i]);
    }
    assert multiset(LegLots(members, all, end', a, side)) == multiset(before) + multiset(added);
  }

  /**
   * With a fixed genealogy and sales only being appended, a week that presents the previous
   * claim is never rejected as drift or as malformed; it fails only on more than 10000 new
   * blocks for one affiliate.
   */
  lemma {:induction false} WeeksNeverDrift(
      members: Members, rank: map<int, int>, sales: seq<Sale>, more: seq<Sale>, end: int, end': int, a: int,
      claimed: int, hash: ClaimHash, founder: bool, founder': bool)
    requires Acyclic(members, rank) && ValidSales(sales + more) && end <= end' && ValidTime(end')
    requires FitsPv(members, sales + more, end', a)
    requires PreviewSpec(Request(members, sales, end, a, claimed, hash, founder)).Ok?
    ensures var prev := PreviewSpec(Request(members, sales, end, a, claimed, hash, founder)).value;
            var next := Request(members, sales + more, end', a, prev.matchedBlocks, prev.nextHash, founder');
            && WellFormed(next) && PreviewSpec(next) != Err(ClaimHistoryDrift)
            && (PreviewSpec(next).Ok? <==>
                  Matched(Sort(next.left), Sort(next.right)) - next.claimedBlocks <= MAX_PREVIEW_BLOCKS)
  {
    var first := Request(members, sales, end, a, claimed, hash, founder);
    AcceptedIsGood(first);
    var prev := PreviewSpec(first).value;
    var next := Request(members, sales + more, end', a, prev.matchedBlocks, prev.nextHash, founder');
    MatchedNonNegative(Sort(first.left), Sort(first.right));
    hide LegLots, PreviewSpec, WellFormed, Acyclic, ValidSales, FitsPv, GoodLeg, Matched;
    RequestIsWellFormed(members, rank, sales + more, end', a, prev.matchedBlocks, prev.nextHash, founder');
    LegGrows(members, sales, more, end, end', a, L);
    LegGrows(members, sales, more, end, end', a, R);
    hide Grows, Request, HashAt;
    assert next.left == LegLots(members, sales + more, end', a, L)
           && next.right == LegLots(members, sales + more, end', a, R);
    GrowingLegsNeverDrift(first, next);
  }

  lemma {:induction false} MatchedNonNegative(left: seq<Lot>, right: seq<Lot>)
    requires GoodLeg(left) && GoodLeg(right)
    ensures 0 <= Matched(left, right)
  {
    hide TotalPv;
  }
}
