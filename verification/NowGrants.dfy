/**
 * The weekly binary pay with what it stores: how much every affiliate has claimed, and which
 * purchases every paid block consumed. Over all weeks each block is paid once.
 */
module NowGrants {
  import opened Prelude
  import opened FifoSlices
  import opened FifoAllocation
  import opened LotOrder
  import opened BinaryPreview
  import opened BlockPricing
  import opened ClaimHistory
  import opened NowVolumes
  import NowWeek

  datatype Claim = Claim(blocks: int, hash: ClaimHash)

  const NO_CLAIM := Claim(0, NoHash)

  // What a block has consumed.
  datatype Row = Row(affiliate: int, segment: Segment)

  datatype State = State(claims: map<int, Claim>, rows: seq<Row>)

  const NOTHING := State(map[], [])

  // An affiliate with volume who is active, qualified and has a membership at the week's end.
  datatype Candidate = Candidate(affiliate: int, volume: Volume, pkg: int, limit: int, founder: bool)

  datatype Week = Week(end: int, candidates: seq<Candidate>)

  function ClaimOf(s: State, a: int): Claim { if a in s.claims then s.claims[a] else NO_CLAIM }

  function RequestOf(s: State, end: int, c: Candidate): PreviewRequest {
    var claim := ClaimOf(s, c.affiliate);
    PreviewRequest(c.volume.left, c.volume.right, end, claim.blocks, claim.hash, c.founder)
  }

  function RowsFor(a: int, segments: seq<Segment>): seq<Row> {
    seq(|segments|, i requires 0 <= i < |segments| => Row(a, segments[i]))
  }

  // One affiliate, given what the allocator answered.
  function Granted(s: State, c: Candidate, p: Preview): (State, seq<NowWeek.Allocation>) {
    var seen := s.(claims := s.claims[c.affiliate := ClaimOf(s, c.affiliate)]);
    if p.newBlocks <= 0 then (seen, [])
    else
      (State(seen.claims[c.affiliate := Claim(p.matchedBlocks, p.nextHash)],
             if p.entitlementCents > 0 then s.rows + RowsFor(c.affiliate, p.segments) else s.rows),
       [NowWeek.Allocation(c.affiliate, c.pkg, p.entitlementCents, c.limit)])
  }

  ghost function GrantAll(
      s: State, end: int, cs: seq<Candidate>): Result<(State, seq<NowWeek.Allocation>), PreviewError> {
    if cs == [] then Ok((s, []))
    else
      var before := GrantAll(s, end, cs[..|cs| - 1]);
      if before.Err? then before
      else
        var (s', grants) := before.value;
        var p := PreviewSpec(RequestOf(s', end, cs[|cs| - 1]));
        if p.Err? then Err(p.error)
        else
          var (s'', grant) := Granted(s', cs[|cs| - 1], p.value);
          Ok((s'', grants + grant))
  }

  class BinaryState {
    var claims: map<int, Claim>
    var rows: seq<Row>

    ghost function Contents(): State
      reads this
    {
      State(claims, rows)
    }

    // The loop over the affiliates of a week; a week that fails is rolled back.
    method Grant(end: int, candidates: seq<Candidate>) returns (r: Result<seq<NowWeek.Allocation>, PreviewError>)
      modifies this
      ensures var spec := GrantAll(old(Contents()), end, candidates);
              if spec.Ok? then r == Ok(spec.value.1) && Contents() == spec.value.0
              else r == Err(spec.error) && Contents() == old(Contents())
    {
      hide PreviewSpec, RowsFor;
      ghost var was := Contents();
      var claimsNow, rowsNow, grants := claims, rows, [];
      for i := 0 to |candidates|
        invariant GrantAll(was, end, candidates[..i]) == Ok((State(claimsNow, rowsNow), grants))
        invariant Contents() == was
      {
        var c := candidates[i];
        assert candidates[..i + 1][..i] == candidates[..i] && candidates[..i + 1][i] == c;
        var claim := if c.affiliate in claimsNow then claimsNow[c.affiliate] else NO_CLAIM;
        claimsNow := claimsNow[c.affiliate := claim];
        var preview := PreviewBinaryFIFO(
          PreviewRequest(c.volume.left, c.volume.right, end, claim.blocks, claim.hash, c.founder));
        if preview.Err? {
          FailureStops(was, end, candidates, i + 1);
          return Err(preview.error);
        }
        var p := preview.value;
        if p.newBlocks <= 0 {
          assert grants + [] == grants;
          continue;
        }
        if p.entitlementCents > 0 { rowsNow := rowsNow + RowsFor(c.affiliate, p.segments); }
        grants := grants + [NowWeek.Allocation(c.affiliate, c.pkg, p.entitlementCents, c.limit)];
        claimsNow := claimsNow[c.affiliate := Claim(p.matchedBlocks, p.nextHash)];
      }
      assert candidates[..|candidates|] == candidates;
      claims, rows := claimsNow, rowsNow;
      return Ok(grants);
    }
  }

  lemma {:induction false} FailureStops(s: State, end: int, cs: seq<Candidate>, n: nat)
    requires n <= |cs| && GrantAll(s, end, cs[..n]).Err?
    ensures GrantAll(s, end, cs) == GrantAll(s, end, cs[..n])
    decreases |cs|
  {
    hide PreviewSpec, Granted;
    if n < |cs| {
      assert cs[..|cs| - 1][..n] == cs[..n];
      FailureStops(s, end, cs[..|cs| - 1], n);
    } else {
      assert cs[..n] == cs;
    }
  }

  /* ----- Every block is paid once ----- */

  // What the blocks of one affiliate have consumed so far, in order.
  function ConsumedBy(rows: seq<Row>, a: int): seq<Segment> {
    if rows == [] then []
    else if rows[|rows| - 1].affiliate == a then ConsumedBy(rows[..|rows| - 1], a) + [rows[|rows| - 1].segment]
    else ConsumedBy(rows[..|rows| - 1], a)
  }

  // All blocks of a pair of legs, cut in one go.
  ghost function Once(v: Volume): seq<Segment> {
    AllSegments(Blocks(Sort(v.left), Sort(v.right), 0, Matched(Sort(v.left), Sort(v.right)), UnitUsd(false)))
  }

  // The claim is what some accepted call produced, and all its legs' blocks are written down.
  ghost predicate PaidUp(s: State, a: int, req: PreviewRequest) {
    && PreviewSpec(req).Ok?
    && ClaimOf(s, a) == Claim(PreviewSpec(req).value.matchedBlocks, PreviewSpec(req).value.nextHash)
    && ConsumedBy(s.rows, a) == AllSegments(FromScratch(req))
  }

  ghost predicate Settled(s: State, a: int) {
    || (ClaimOf(s, a) == NO_CLAIM && ConsumedBy(s.rows, a) == [])
    || exists req :: PaidUp(s, a, req)
  }

  ghost predicate AllSettled(s: State) { forall a :: Settled(s, a) }

  lemma {:induction false} ConsumedAppend(rows: seq<Row>, a: int, b: int, segments: seq<Segment>)
    ensures ConsumedBy(rows + RowsFor(b, segments), a) ==
            if a == b then ConsumedBy(rows, a) + segments else ConsumedBy(rows, a)
    decreases |segments|
  {
    if segments == [] {
      assert rows + RowsFor(b, segments) == rows;
      assert ConsumedBy(rows, a) + segments == ConsumedBy(rows, a);
    } else {
      var init, all := segments[..|segments| - 1], rows + RowsFor(b, segments);
      ConsumedAppend(rows, a, b, init);
      assert all[..|all| - 1] == rows + RowsFor(b, init);
      assert segments == init + [segments[|segments| - 1]];
    }
  }

  lemma {:induction false} SegmentsAppend(x: seq<BlockAllocation>, y: seq<BlockAllocation>)
    ensures AllSegments(x + y) == AllSegments(x) + AllSegments(y)
    decreases |y|
  {
    if y == [] {
      assert x + y == x && AllSegments(x) + [] == AllSegments(x);
    } else {
      assert (x + y)[..|x + y| - 1] == x + y[..|y| - 1];
      SegmentsAppend(x, y[..|y| - 1]);
    }
  }

  lemma {:induction false} RepricingKeepsSegments(x: seq<BlockAllocation>, units: seq<int>, y: seq<BlockAllocation>)
    requires PaidAs(x, units, y)
    ensures AllSegments(x) == AllSegments(y)
    decreases |x|
  {
    if x != [] {
      var n := |x| - 1;
      assert x[n] == Repriced(y[n], units[n]);
      RepricingKeepsSegments(x[..n], units[..n], y[..n]);
    }
  }

  // A claim over the same legs consumes the same, whatever the unit price.
  lemma {:induction false} OnceIsFromScratch(req: PreviewRequest)
    ensures AllSegments(FromScratch(req)) == Once(Volume(req.left, req.right))
  {
    hide Sort, Blocks, AllSegments, Matched, PaidAs, Repeat;
    var l, r := Sort(req.left), Sort(req.right);
    RepricedBlocks(l, r, 0, Matched(l, r), UnitUsd(req.founder), UnitUsd(false));
    RepricingKeepsSegments(FromScratch(req), Repeat(UnitUsd(req.founder), Max(Matched(l, r), 0)),
                           Blocks(l, r, 0, Matched(l, r), UnitUsd(false)));
  }

  // New blocks are never worth nothing.
  lemma {:induction false} NewBlocksPay(req: PreviewRequest)
    requires PreviewSpec(req).Ok?
    ensures var p := PreviewSpec(req).value;
            && 0 <= p.newBlocks && (p.newBlocks > 0 ==> p.entitlementCents > 0)
            && p.segments == AllSegments(p.blocks)
            && (p.newBlocks == 0 ==>
               p.blocks == [] && p.matchedBlocks == req.claimedBlocks && p.nextHash == req.claimedHash)
  {
    PreviewConserves(req);
    AcceptedIsGood(req);
    hide Sort, LotsOk, ExactOf, Matched, Conserves, ProviderOnly;
  }

  // After an accepted call the affiliate is paid up to it.
  lemma {:induction false} CallSettles(s: State, a: int, req: PreviewRequest) returns (paid: seq<Segment>)
    requires Settled(s, a) && PreviewSpec(req).Ok?
    requires ClaimOf(s, a) == Claim(req.claimedBlocks, req.claimedHash)
    ensures paid == ConsumedBy(s.rows, a) + AllSegments(PreviewSpec(req).value.blocks)
    ensures paid == AllSegments(FromScratch(req))
  {
    var p := PreviewSpec(req).value;
    paid := ConsumedBy(s.rows, a) + AllSegments(p.blocks);
    if prev :| PaidUp(s, a, prev) {
      hide PreviewSpec, Blocks, AllSegments, ConsumedBy, Sort, PaidAs, Repeat;
      var once := FromScratch(prev);
      SelfPaid(prev);
      var units := Repeat(UnitUsd(prev.founder), |once|);
      hide FromScratch;
      AcceptedStep(prev, req, once, units);
      RepricingKeepsSegments(once + p.blocks, units + Repeat(UnitUsd(req.founder), |p.blocks|), FromScratch(req));
      SegmentsAppend(once, p.blocks);
    } else {
      FirstClaim(req);
      hide PreviewSpec, FromScratch;
      NothingInFront(AllSegments(p.blocks));
    }
  }

  lemma {:induction false} SelfPaid(req: PreviewRequest)
    ensures PaidAs(FromScratch(req), Repeat(UnitUsd(req.founder), |FromScratch(req)|), FromScratch(req))
  {
    hide Sort, Blocks, Matched, PaidAs, Repeat;
    var l, r, unit := Sort(req.left), Sort(req.right), UnitUsd(req.founder);
    RepricedBlocks(l, r, 0, Matched(l, r), unit, unit);
  }

  lemma {:induction false} GrantedSettles(s: State, end: int, c: Candidate)
    requires Settled(s, c.affiliate) && PreviewSpec(RequestOf(s, end, c)).Ok?
    ensures PaidUp(Granted(s, c, PreviewSpec(RequestOf(s, end, c)).value).0, c.affiliate, RequestOf(s, end, c))
  {
    var a, req := c.affiliate, RequestOf(s, end, c);
    var p := PreviewSpec(req).value;
    NewBlocksPay(req);
    ConsumedAppend(s.rows, a, a, p.segments);
    var paid := CallSettles(s, a, req);
    hide PreviewSpec, ConsumedBy, FromScratch, RowsFor, Settled;
    if p.newBlocks == 0 { assert ConsumedBy(s.rows, a) + AllSegments([]) == ConsumedBy(s.rows, a); }
    hide AllSegments;
  }

  // Nothing is written for anyone else.
  ghost predicate SameFor(s: State, s': State, a: int) {
    ClaimOf(s', a) == ClaimOf(s, a) && ConsumedBy(s'.rows, a) == ConsumedBy(s.rows, a)
  }

  lemma {:induction false} GrantedLeavesOthers(s: State, c: Candidate, p: Preview, a: int)
    requires a != c.affiliate
    ensures SameFor(s, Granted(s, c, p).0, a)
  {
    hide ConsumedBy, RowsFor;
    ConsumedAppend(s.rows, a, c.affiliate, p.segments);
  }

  lemma {:induction false} SameStaysSettled(s: State, s': State, a: int)
    requires Settled(s, a) && SameFor(s, s', a)
    ensures Settled(s', a)
  {
    hide PreviewSpec, FromScratch, ConsumedBy;
    if prev :| PaidUp(s, a, prev) { assert PaidUp(s', a, prev); }
  }

  ghost predicate Among(cs: seq<Candidate>, a: int) { exists k :: 0 <= k < |cs| && cs[k].affiliate == a }

  ghost predicate Ascends(cs: seq<Candidate>) {
    forall i, j :: 0 <= i < j < |cs| ==> cs[i].affiliate < cs[j].affiliate
  }

  // A week pays every candidate up to its legs of this week, and touches nobody else.
  ghost predicate WeekPaid(s: State, s': State, cs: seq<Candidate>) {
    && (forall k :: 0 <= k < |cs| ==> PaidFor(s', cs[k]))
    && (forall a :: !Among(cs, a) ==> SameFor(s, s', a))
  }

  ghost predicate PaidFor(s: State, c: Candidate) {
    && ConsumedBy(s.rows, c.affiliate) == Once(c.volume)
    && ClaimOf(s, c.affiliate).blocks == Matched(Sort(c.volume.left), Sort(c.volume.right))
  }

  lemma {:induction false} PaidUpIsPaidFor(s: State, c: Candidate, req: PreviewRequest)
    requires PaidUp(s, c.affiliate, req) && req.left == c.volume.left && req.right == c.volume.right
    ensures PaidFor(s, c)
  {
    AcceptedIsGood(req);
    OnceIsFromScratch(req);
    hide FromScratch, Once, Sort, Matched, AllSegments, ConsumedBy, LotsOk, Blocks;
  }

  lemma {:induction false} WeekSettles(s: State, end: int, cs: seq<Candidate>)
    requires AllSettled(s) && Ascends(cs) && GrantAll(s, end, cs).Ok?
    ensures AllSettled(GrantAll(s, end, cs).value.0) && WeekPaid(s, GrantAll(s, end, cs).value.0, cs)
  {
    hide PreviewSpec, Granted, RequestOf, Settled, PaidUp, PaidFor, SameFor;
    if cs == [] {
      forall a ensures SameFor(s, s, a) { SameAsBefore(s, a); }
    } else {
      var init, c := cs[..|cs| - 1], cs[|cs| - 1];
      WeekSettles(s, end, init);
      var s1 := GrantAll(s, end, init).value.0;
      var req := RequestOf(s1, end, c);
      var s2 := Granted(s1, c, PreviewSpec(req).value).0;
      assert GrantAll(s, end, cs).value.0 == s2;
      hide GrantAll;
      GrantedSettles(s1, end, c);
      LegsOfRequest(s1, end, c);
      PaidUpIsPaidFor(s2, c, req);
      assert Settled(s2, c.affiliate) by { ItSettles(s2, c.affiliate, req); }
      forall a | a != c.affiliate ensures Settled(s2, a) && SameFor(s1, s2, a) {
        GrantedLeavesOthers(s1, c, PreviewSpec(req).value, a);
        SameStaysSettled(s1, s2, a);
      }
      OneMorePaid(s, s1, s2, cs);
    }
  }

  lemma {:induction false} LegsOfRequest(s: State, end: int, c: Candidate)
    ensures RequestOf(s, end, c).left == c.volume.left && RequestOf(s, end, c).right == c.volume.right
  {
  }

  lemma {:induction false} ItSettles(s: State, a: int, req: PreviewRequest)
    requires PaidUp(s, a, req)
    ensures Settled(s, a)
  {
    hide PaidUp;
  }

  lemma {:induction false} SameAsBefore(s: State, a: int)
    ensures SameFor(s, s, a)
  {
  }

  lemma {:induction false} StillPaidFor(s: State, s': State, c: Candidate)
    requires PaidFor(s, c) && SameFor(s, s', c.affiliate)
    ensures PaidFor(s', c)
  {
    hide Once, Matched, ConsumedBy;
  }

  lemma {:induction false} SameThrough(s: State, s': State, s'': State, a: int)
    requires SameFor(s, s', a) && SameFor(s', s'', a)
    ensures SameFor(s, s'', a)
  {
    hide ConsumedBy;
  }

  lemma {:induction false} OneMorePaid(s: State, s': State, s'': State, cs: seq<Candidate>)
    requires cs != [] && Ascends(cs) && WeekPaid(s, s', cs[..|cs| - 1])
    requires PaidFor(s'', cs[|cs| - 1])
    requires forall a :: a != cs[|cs| - 1].affiliate ==> SameFor(s', s'', a)
    ensures WeekPaid(s, s'', cs)
  {
    hide PaidFor, SameFor;
    var init, c := cs[..|cs| - 1], cs[|cs| - 1];
    forall k | 0 <= k < |init| ensures PaidFor(s'', cs[k]) {
      assert init[k] == cs[k] && PaidFor(s', init[k]);
      StillPaidFor(s', s'', cs[k]);
    }
    forall a | !Among(cs, a) ensures SameFor(s, s'', a) {
      assert cs[|cs| - 1].affiliate != a;
      assert !Among(init, a) by {
        forall k | 0 <= k < |init| ensures init[k].affiliate != a { assert init[k] == cs[k]; }
      }
      SameThrough(s, s', s'', a);
    }
  }

  // Weeks that were all paid, from nothing.
  ghost predicate IsRun(weeks: seq<Week>, states: seq<State>) {
    && |states| == |weeks| + 1 && states[0] == NOTHING
    && forall i :: 0 <= i < |weeks| ==> Pays(weeks[i], states[i], states[i + 1])
  }

  ghost predicate Pays(w: Week, s: State, s': State) {
    && Ascends(w.candidates)
    && GrantAll(s, w.end, w.candidates).Ok? && GrantAll(s, w.end, w.candidates).value.0 == s'
  }

  lemma {:induction false} RunIsSettled(weeks: seq<Week>, states: seq<State>, i: nat)
    requires IsRun(weeks, states) && i <= |weeks|
    ensures AllSettled(states[i])
  {
    hide Settled, GrantAll;
    if i == 0 {
      forall a ensures Settled(NOTHING, a) { NothingSettled(a); }
    } else {
      RunIsSettled(weeks, states, i - 1);
      assert Pays(weeks[i - 1], states[i - 1], states[i - 1 + 1]);
      WeekSettles(states[i - 1], weeks[i - 1].end, weeks[i - 1].candidates);
    }
  }

  lemma {:induction false} NothingSettled(a: int)
    ensures Settled(NOTHING, a)
  {
  }

  /**
   * Over any weeks that were paid, with the genealogy, the sales and the founders changing in
   * any way in between: whatever a week pays, it leaves every affiliate it considered with
   * exactly the pieces that one claim over this week's legs consumes, and every other affiliate
   * with what it had. No block is ever paid twice, and none is skipped.
   */
  lemma {:induction false} EveryBlockIsPaidOnce(weeks: seq<Week>, states: seq<State>, i: nat)
    requires IsRun(weeks, states) && i < |weeks|
    ensures WeekPaid(states[i], states[i + 1], weeks[i].candidates)
  {
    hide AllSettled, GrantAll, WeekPaid;
    RunIsSettled(weeks, states, i);
    assert Pays(weeks[i], states[i], states[i + 1]);
    WeekSettles(states[i], weeks[i].end, weeks[i].candidates);
  }

  // What a week hands on: one positive grant per affiliate at most, in ascending order.
  lemma {:induction false} GrantsFit(s: State, end: int, cs: seq<Candidate>)
    requires Ascends(cs) && GrantAll(s, end, cs).Ok?
    ensures var grants := GrantAll(s, end, cs).value.1;
            && (forall i :: 0 <= i < |grants| ==> grants[i].entitlement > 0 && GrantFor(grants[i], cs))
            && (forall i, j :: 0 <= i < j < |grants| ==> grants[i].affiliate < grants[j].affiliate)
  {
    hide PreviewSpec, RequestOf, RowsFor;
    if cs != [] {
      var init, c := cs[..|cs| - 1], cs[|cs| - 1];
      GrantsFit(s, end, init);
      var (s1, before) := GrantAll(s, end, init).value;
      var req := RequestOf(s1, end, c);
      NewBlocksPay(req);
      var grants := GrantAll(s, end, cs).value.1;
      var grant := Granted(s1, c, PreviewSpec(req).value).1;
      assert grants == before + grant && |grant| <= 1;
      hide GrantAll, Granted;
      forall i | 0 <= i < |grants| ensures grants[i].entitlement > 0 && GrantFor(grants[i], cs) {
        if i < |before| {
          assert GrantFor(before[i], init);
          var k :| 0 <= k < |init| && Fits(before[i], init[k]);
          assert cs[k] == init[k];
        } else {
          assert Fits(grants[i], cs[|cs| - 1]);
        }
      }
      forall i, j | 0 <= i < j < |grants| ensures grants[i].affiliate < grants[j].affiliate {
        if j == |before| {
          assert GrantFor(before[i], init);
          var k :| 0 <= k < |init| && Fits(before[i], init[k]);
          assert cs[k] == init[k];
        }
      }
    }
  }

  predicate Fits(g: NowWeek.Allocation, c: Candidate) {
    g.affiliate == c.affiliate && g.pkg == c.pkg && g.limit == c.limit
  }

  ghost predicate GrantFor(g: NowWeek.Allocation, cs: seq<Candidate>) {
    exists k :: 0 <= k < |cs| && Fits(g, cs[k])
  }

  /* ----- A fixed genealogy never drifts ----- */

  ghost predicate BackedBy(
      members: Members, sales: seq<Sale>, end: int, a: int, blocks: int, hash: ClaimHash, founder: bool, claim: Claim) {
    var p := PreviewSpec(Request(members, sales, end, a, blocks, hash, founder));
    p.Ok? && claim == Claim(p.value.matchedBlocks, p.value.nextHash)
  }

  // The claim was accepted over the legs of no more than the first n sales.
  ghost predicate Backed(members: Members, sales: seq<Sale>, n: nat, end: int, a: int, claim: Claim)
    requires n <= |sales|
  {
    || claim == NO_CLAIM
    || exists m, e, blocks, hash, founder ::
         0 <= m <= n && e <= end && BackedBy(members, sales[..m], e, a, blocks, hash, founder, claim)
  }

  lemma {:induction false} BackedLater(
      members: Members, sales: seq<Sale>, n: nat, n': nat, end: int, end': int, a: int, claim: Claim)
    requires n <= n' <= |sales| && end <= end' && Backed(members, sales, n, end, a, claim)
    ensures Backed(members, sales, n', end', a, claim)
  {
    hide BackedBy;
  }

  lemma {:induction false} FirstIsAccepted(
      members: Members, rank: map<int, int>, sales: seq<Sale>, end: int, a: int, founder: bool)
    requires Acyclic(members, rank) && ValidSales(sales) && ValidTime(end) && FitsPv(members, sales, end, a)
    ensures var req := Request(members, sales, end, a, 0, NoHash, founder);
            && PreviewSpec(req) != Err(ClaimHistoryDrift)
            && (PreviewSpec(req).Ok? <==> Matched(Sort(req.left), Sort(req.right)) <= MAX_PREVIEW_BLOCKS)
  {
    var req := Request(members, sales, end, a, 0, NoHash, founder);
    RequestIsWellFormed(members, rank, sales, end, a, 0, NoHash, founder);
    SortedLegIsGood(req.left, req.asOf, {}, {});
    SortedLegIsGood(req.right, req.asOf, IdsOf(req.left), SequencesOf(req.left));
    MatchedNonNegative(Sort(req.left), Sort(req.right));
    hide LegLots, Sort, WellFormed, Matched, LotsOk, Blocks, TotalPv, Acyclic, ValidSales, FitsPv, GoodLeg;
  }

  // Presented with a claim, a request over a leg is accepted unless it asks for too much at once.
  ghost predicate OnlyTooMany(req: PreviewRequest) {
    && PreviewSpec(req) != Err(ClaimHistoryDrift)
    && (PreviewSpec(req).Ok? <==>
          Matched(Sort(req.left), Sort(req.right)) - req.claimedBlocks <= MAX_PREVIEW_BLOCKS)
  }

  lemma {:induction false} BackedByIsAccepted(
      members: Members, rank: map<int, int>, sales: seq<Sale>, more: seq<Sale>, e: int, end: int, a: int,
      blocks: int, hash: ClaimHash, was: bool, claim: Claim, founder: bool)
    requires Acyclic(members, rank) && ValidSales(sales + more) && e <= end && ValidTime(end)
    requires FitsPv(members, sales + more, end, a) && BackedBy(members, sales, e, a, blocks, hash, was, claim)
    ensures OnlyTooMany(Request(members, sales + more, end, a, claim.blocks, claim.hash, founder))
  {
    hide PreviewSpec, Matched, Sort, ValidSales, FitsPv, Acyclic, LegLots;
    WeeksNeverDrift(members, rank, sales, more, e, end, a, blocks, hash, was, founder);
  }

  lemma {:induction false} Backing(members: Members, sales: seq<Sale>, n: nat, end: int, a: int, claim: Claim)
      returns (m: nat, e: int, blocks: int, hash: ClaimHash, was: bool)
    requires n <= |sales| && Backed(members, sales, n, end, a, claim) && claim != NO_CLAIM
    ensures m <= n && e <= end && BackedBy(members, sales[..m], e, a, blocks, hash, was, claim)
  {
    hide BackedBy;
    m, e, blocks, hash, was :|
      0 <= m <= n && e <= end && BackedBy(members, sales[..m], e, a, blocks, hash, was, claim);
  }

  lemma {:induction false} BackedIsAccepted(
      members: Members, rank: map<int, int>, sales: seq<Sale>, n: nat, end: int, a: int, claim: Claim, founder: bool)
    requires Acyclic(members, rank) && ValidSales(sales) && n <= |sales| && ValidTime(end)
    requires FitsPv(members, sales[..n], end, a) && Backed(members, sales, n, end, a, claim)
    ensures OnlyTooMany(Request(members, sales[..n], end, a, claim.blocks, claim.hash, founder))
  {
    hide *;
    FewerSales(sales, n);
    if claim == NO_CLAIM {
      NoClaimIsAccepted(members, rank, sales[..n], end, a, founder);
    } else {
      var m, e, blocks, hash, was := Backing(members, sales, n, end, a, claim);
      TakeDrop(sales, m, n);
      BackedByIsAccepted(members, rank, sales[..m], sales[m..n], e, end, a, blocks, hash, was, claim, founder);
    }
  }

  lemma {:induction false} TakeDrop<T>(s: seq<T>, m: nat, n: nat)
    requires m <= n <= |s|
    ensures s[..m] + s[m..n] == s[..n]
  {
  }

  lemma {:induction false} NoClaimIsAccepted(
      members: Members, rank: map<int, int>, sales: seq<Sale>, end: int, a: int, founder: bool)
    requires Acyclic(members, rank) && ValidSales(sales) && ValidTime(end) && FitsPv(members, sales, end, a)
    ensures OnlyTooMany(Request(members, sales, end, a, NO_CLAIM.blocks, NO_CLAIM.hash, founder))
  {
    FirstIsAccepted(members, rank, sales, end, a, founder);
    hide PreviewSpec, Matched, Sort, ValidSales, FitsPv, Acyclic, LegLots;
  }

  lemma {:induction false} FewerSales(sales: seq<Sale>, n: nat)
    requires ValidSales(sales) && n <= |sales|
    ensures ValidSales(sales[..n])
  {
  }

  // The candidate's legs are those of the first n sales at the week's end, within 64 bits.
  ghost predicate FromTree(members: Members, sales: seq<Sale>, n: nat, end: int, c: Candidate)
    requires n <= |sales|
  {
    && c.volume == Volume(LegLots(members, sales[..n], end, c.affiliate, L),
       LegLots(members, sales[..n], end, c.affiliate, R))
    && FitsPv(members, sales[..n], end, c.affiliate)
  }

  ghost predicate AllBacked(members: Members, sales: seq<Sale>, n: nat, end: int, s: State)
    requires n <= |sales|
  {
    forall a :: Backed(members, sales, n, end, a, ClaimOf(s, a))
  }

  lemma {:induction false} RequestFromTree(
      members: Members, sales: seq<Sale>, n: nat, end: int, s: State, c: Candidate)
    requires n <= |sales| && FromTree(members, sales, n, end, c)
    ensures var claim := ClaimOf(s, c.affiliate);
            RequestOf(s, end, c) == Request(members, sales[..n], end, c.affiliate, claim.blocks, claim.hash, c.founder)
  {
    hide LegLots, FitsPv;
  }

  lemma {:induction false} GrantedIsBacked(
      members: Members, sales: seq<Sale>, n: nat, end: int, s: State, c: Candidate)
    requires n <= |sales| && FromTree(members, sales, n, end, c) && AllBacked(members, sales, n, end, s)
    requires PreviewSpec(RequestOf(s, end, c)).Ok?
    ensures AllBacked(members, sales, n, end, Granted(s, c, PreviewSpec(RequestOf(s, end, c)).value).0)
  {
    var p := PreviewSpec(RequestOf(s, end, c)).value;
    var s' := Granted(s, c, p).0;
    var claim := ClaimOf(s, c.affiliate);
    RequestFromTree(members, sales, n, end, s, c);
    hide PreviewSpec, RequestOf, Request, FromTree, RowsFor;
    forall a ensures Backed(members, sales, n, end, a, ClaimOf(s', a)) {
      assert Backed(members, sales, n, end, a, ClaimOf(s, a));
      if a == c.affiliate && p.newBlocks > 0 {
        assert BackedBy(members, sales[..n], end, a, claim.blocks, claim.hash, c.founder, ClaimOf(s', a));
        hide BackedBy;
      }
    }
  }

  // The blocks a candidate has not been paid for.
  ghost function NewFor(s: State, c: Candidate): int {
    Matched(Sort(c.volume.left), Sort(c.volume.right)) - ClaimOf(s, c.affiliate).blocks
  }

  lemma {:induction false} TreeWeek(
      members: Members, rank: map<int, int>, sales: seq<Sale>, n: nat, end: int, s: State, cs: seq<Candidate>)
    requires Acyclic(members, rank) && ValidSales(sales) && n <= |sales| && ValidTime(end)
    requires Ascends(cs) && forall k :: 0 <= k < |cs| ==> FromTree(members, sales, n, end, cs[k])
    requires AllBacked(members, sales, n, end, s)
    ensures var r := GrantAll(s, end, cs);
            && r != Err(ClaimHistoryDrift)
            && (r.Ok? <==> forall k :: 0 <= k < |cs| ==> NewFor(s, cs[k]) <= MAX_PREVIEW_BLOCKS)
            && (r.Ok? ==> AllBacked(members, sales, n, end, r.value.0))
            && (r.Ok? ==> forall a :: !Among(cs, a) ==> ClaimOf(r.value.0, a) == ClaimOf(s, a))
  {
    hide Acyclic, ValidSales, FromTree, AllBacked, PreviewSpec, RequestOf, Granted, Matched, Sort;
    if cs != [] {
      var init, c := cs[..|cs| - 1], cs[|cs| - 1];
      assert forall k :: 0 <= k < |init| ==> init[k] == cs[k];
      TreeWeek(members, rank, sales, n, end, s, init);
      var before := GrantAll(s, end, init);
      if before.Ok? {
        var s1 := before.value.0;
        assert !Among(init, c.affiliate);
        OneInTree(members, rank, sales, n, end, s1, c);
        var r := GrantAll(s, end, cs);
        if r.Ok? {
          forall a | !Among(cs, a) ensures ClaimOf(r.value.0, a) == ClaimOf(s, a) {
            assert cs[|cs| - 1].affiliate != a;
            assert !Among(init, a) by {
              forall k | 0 <= k < |init| ensures init[k].affiliate != a { assert init[k] == cs[k]; }
            }
            GrantedLeavesOthers(s1, c, PreviewSpec(RequestOf(s1, end, c)).value, a);
          }
        }
        hide GrantAll, Among;
        assert NewFor(s1, c) == NewFor(s, c);
      }
    }
  }

  lemma {:induction false} OneInTree(
      members: Members, rank: map<int, int>, sales: seq<Sale>, n: nat, end: int, s: State, c: Candidate)
    requires Acyclic(members, rank) && ValidSales(sales) && n <= |sales| && ValidTime(end)
    requires FromTree(members, sales, n, end, c) && AllBacked(members, sales, n, end, s)
    ensures var p := PreviewSpec(RequestOf(s, end, c));
            && p != Err(ClaimHistoryDrift)
            && (p.Ok? <==> NewFor(s, c) <= MAX_PREVIEW_BLOCKS)
            && (p.Ok? ==> AllBacked(members, sales, n, end, Granted(s, c, p.value).0))
  {
    var claim := ClaimOf(s, c.affiliate);
    assert FitsPv(members, sales[..n], end, c.affiliate) && Backed(members, sales, n, end, c.affiliate, claim);
    if PreviewSpec(RequestOf(s, end, c)).Ok? { GrantedIsBacked(members, sales, n, end, s, c); }
    RequestFromTree(members, sales, n, end, s, c);
    LegsOfRequest(s, end, c);
    hide FitsPv, Backed, AllBacked, PreviewSpec, Granted, FromTree, LegLots, Acyclic, ValidSales, Matched, Sort;
    BackedIsAccepted(members, rank, sales, n, end, c.affiliate, claim, c.founder);
    hide RequestOf;
  }

  // A run over one genealogy: every week sees the sales recorded by then, and no week comes
  // before an earlier one.
  ghost predicate OneTree(members: Members, sales: seq<Sale>, weeks: seq<Week>, counts: seq<nat>) {
    && |counts| == |weeks|
    && (forall i :: 0 <= i < |weeks| ==> counts[i] <= |sales| && ValidTime(weeks[i].end))
    && (forall i, j :: 0 <= i < j < |weeks| ==> counts[i] <= counts[j] && weeks[i].end <= weeks[j].end)
    && (forall i :: 0 <= i < |weeks| ==> WeekFromTree(members, sales, counts[i], weeks[i]))
  }

  ghost predicate WeekFromTree(members: Members, sales: seq<Sale>, n: nat, w: Week)
    requires n <= |sales|
  {
    Ascends(w.candidates)
    && forall k :: 0 <= k < |w.candidates| ==> FromTree(members, sales, n, w.end, w.candidates[k])
  }

  lemma {:induction false} BackedUpTo(
      members: Members, rank: map<int, int>, sales: seq<Sale>, weeks: seq<Week>, counts: seq<nat>,
      states: seq<State>, i: nat)
    requires Acyclic(members, rank) && ValidSales(sales) && OneTree(members, sales, weeks, counts)
    requires i < |weeks| < |states| && states[0] == NOTHING
    requires forall j :: 0 <= j < i ==> Pays(weeks[j], states[j], states[j + 1])
    ensures AllBacked(members, sales, counts[i], weeks[i].end, states[i])
  {
    hide Acyclic, ValidSales, GrantAll, FromTree;
    if i == 0 {
      assert forall a :: ClaimOf(NOTHING, a) == NO_CLAIM;
    } else {
      var h := i - 1;
      BackedUpTo(members, rank, sales, weeks, counts, states, h);
      assert Pays(weeks[h], states[h], states[h + 1]) && WeekFromTree(members, sales, counts[h], weeks[h]);
      TreeWeek(members, rank, sales, counts[h], weeks[h].end, states[h], weeks[h].candidates);
      hide WeekFromTree, Pays;
      forall a ensures Backed(members, sales, counts[i], weeks[i].end, a, ClaimOf(states[i], a)) {
        BackedLater(members, sales, counts[h], counts[i], weeks[h].end, weeks[i].end, a, ClaimOf(states[i], a));
      }
    }
  }

  /**
   * Over a genealogy that stays fixed while sales are recorded, week after week, no affiliate's
   * claim ever drifts: a week is refused only if some affiliate is owed more than 10000 blocks
   * at once. Affiliates may come and go between the weeks, and founders change.
   */
  lemma {:induction false} FixedTreeNeverDrifts(
      members: Members, rank: map<int, int>, sales: seq<Sale>, weeks: seq<Week>, counts: seq<nat>,
      states: seq<State>, i: nat)
    requires Acyclic(members, rank) && ValidSales(sales) && OneTree(members, sales, weeks, counts)
    requires i < |weeks| < |states| && states[0] == NOTHING
    requires forall j :: 0 <= j < i ==> Pays(weeks[j], states[j], states[j + 1])
    ensures var cs := weeks[i].candidates;
            var r := GrantAll(states[i], weeks[i].end, cs);
            && r != Err(ClaimHistoryDrift)
            && (r.Ok? <==> forall k :: 0 <= k < |cs| ==> NewFor(states[i], cs[k]) <= MAX_PREVIEW_BLOCKS)
  {
    BackedUpTo(members, rank, sales, weeks, counts, states, i);
    hide Acyclic, ValidSales, GrantAll, FromTree, AllBacked, Pays, NewFor;
    assert WeekFromTree(members, sales, counts[i], weeks[i]);
    TreeWeek(members, rank, sales, counts[i], weeks[i].end, states[i], weeks[i].candidates);
  }
}
