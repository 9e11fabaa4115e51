/** Deciding where a subtree may go, and the integrity checks that run after the move. */
module TreeRelocation {
  import opened Prelude
  import opened TreeModel
  import opened TreeTables
  import opened TreeMove
  import opened TreeTotals

  datatype RelocationError =
    | TargetNotFound | CannotMoveRoot | TargetNotActive
    | SponsorNotFound | SponsorIsTarget | SponsorNotActive | SponsorInsideSubtree
    | TargetParentNotFound | TargetParentNotActive | TargetParentInsideSubtree | TargetParentNotUnderSponsor
    | InvalidTargetSlot | TargetSlotTaken | NoChange
    | SelfClosureDrift | CycleDetected | NegativeAggregate | PvDrift | CountDrift | ClosureMissing

  // Names are already resolved to ids; None is a name nobody has. Without a target parent the
  // slot is chosen automatically.
  datatype Request = Request(
    target: Option<Id>, sponsor: Option<Id>, targetParent: Option<Id>, position: Option<Side>, dryRun: bool)

  datatype Plan = Plan(target: Id, sponsor: Id, slot: Slot, structureChanged: bool, sponsorChanged: bool)

  /* ----- The weak-leg walk ----- */

  const MAX_WALK: nat := 512

  function WeakSide(t: Totals): Side {
    if t.leftCurrent < t.rightCurrent then L
    else if t.rightCurrent < t.leftCurrent then R
    else if t.leftCount < t.rightCount then L
    else if t.rightCount < t.leftCount then R
    else L
  }

  // A preferred side is followed at every level; without one the weaker leg is.
  function WalkSide(t: Totals, preferred: Option<Side>): Side {
    if preferred.Some? then preferred.value else WeakSide(t)
  }

  ghost predicate Occupies(rows: map<Id, Row>, c: Id, slot: Slot) {
    c in rows && rows[c].link == Some(Link(slot.parent, slot.side))
  }

  ghost function Occupant(rows: map<Id, Row>, slot: Slot): Option<Id> {
    if exists c :: Occupies(rows, c, slot) then
      var c :| Occupies(rows, c, slot);
      Some(c)
    else None
  }

  ghost function Walk(rows: map<Id, Row>, node: Id, preferred: Option<Side>, steps: nat): Slot
    requires node in rows
    decreases steps
  {
    var slot := Slot(node, WalkSide(rows[node].totals, preferred));
    var child := Occupant(rows, slot);
    if steps == 0 || child.None? then slot else Walk(rows, child.value, preferred, steps - 1)
  }

  /**
   * The walk ends inside the subtree it started from, on a free slot unless it used up all
   * its steps.
   */
  lemma {:induction false} WalkFindsSlot(rows: map<Id, Row>, node: Id, preferred: Option<Side>, steps: nat)
    requires Shaped(rows) && node in rows
    ensures var slot := Walk(rows, node, preferred, steps);
            && slot.parent in rows && Below(LinksOf(rows), node, slot.parent)
            && (Occupant(rows, slot).None? || rows[slot.parent].depth == rows[node].depth + steps)
    decreases steps
  {
    var links := LinksOf(rows);
    var slot := Slot(node, WalkSide(rows[node].totals, preferred));
    var child := Occupant(rows, slot);
    if steps == 0 || child.None? {
      assert Anc(links, node, 0) == Some(node);
    } else {
      var c := child.value;
      WalkFindsSlot(rows, c, preferred, steps - 1);
      assert Anc(links, c, 1) == Some(node) by { assert Anc(links, node, 0) == Some(node); }
      BelowIsTransitive(links, node, c, Walk(rows, node, preferred, steps).parent);
      assert rows[c].depth == rows[node].depth + 1 by {
        assert links[c].Some? && DepthOf(rows)[c] == DepthOf(rows)[node] + 1;
      }
    }
  }

  /**
   * The way the walk goes, affiliate by affiliate: with a preference it always takes that side.
   * Without one it never takes the side with more current PV, with equal PV never the one with
   * more affiliates, and the left one where both are equal. It stops at the first free slot, or
   * after as many levels as it may go down.
   */
  lemma {:induction false} WalkTakesWeaker(rows: map<Id, Row>, node: Id, preferred: Option<Side>, steps: nat)
      returns (way: seq<Id>, sides: seq<Side>)
    requires Shaped(rows) && node in rows
    ensures var slot := Walk(rows, node, preferred, steps);
            && 0 < |way| == |sides| <= steps + 1
            && way[0] == node && way[|way| - 1] == slot.parent && sides[|way| - 1] == slot.side
            && (|way| == steps + 1 || forall c :: c in rows ==> rows[c].link != Some(Link(slot.parent, slot.side)))
    ensures forall i :: 0 <= i < |way| ==> way[i] in rows
    ensures forall i :: 0 <= i < |way| - 1 ==> rows[way[i + 1]].link == Some(Link(way[i], sides[i]))
    ensures forall i :: 0 <= i < |way| ==>
              var t := rows[way[i]].totals;
              if preferred.Some? then sides[i] == preferred.value
              else if sides[i] == L then
                t.leftCurrent < t.rightCurrent || (t.leftCurrent == t.rightCurrent && t.leftCount <= t.rightCount)
              else
                t.rightCurrent < t.leftCurrent || (t.leftCurrent == t.rightCurrent && t.rightCount < t.leftCount)
    decreases steps
  {
    var side := WalkSide(rows[node].totals, preferred);
    var child := Occupant(rows, Slot(node, side));
    if steps == 0 || child.None? {
      way, sides := [node], [side];
      if child.None? {
        forall c | c in rows ensures rows[c].link != Some(Link(node, side)) {
          assert !Occupies(rows, c, Slot(node, side));
        }
      }
    } else {
      assert Occupies(rows, child.value, Slot(node, side));
      var w, s := WalkTakesWeaker(rows, child.value, preferred, steps - 1);
      way, sides := [node] + w, [side] + s;
    }
  }

  /* ----- The decision ----- */

  ghost function ChooseSlot(db: Db, t: Id, s: Id, req: Request): Result<Slot, RelocationError>
    requires t in db.rows && db.rows[t].link.Some? && s in db.rows
  {
    if req.targetParent.Some? then
      var p := req.targetParent.value;
      if p !in db.rows then Err(TargetParentNotFound)
      else if !db.rows[p].active then Err(TargetParentNotActive)
      else if p in Moved(db, t) then Err(TargetParentInsideSubtree)
      else if (s, p) !in db.closure then Err(TargetParentNotUnderSponsor)
      else if req.position.None? then Err(InvalidTargetSlot)
      else Ok(Slot(p, req.position.value))
    else if (s, t) in db.closure && db.closure[(s, t)] > 0 then
      var l := db.rows[t].link.value;
      Ok(Slot(l.parent, l.side))
    else Ok(Walk(db.rows, s, None, MAX_WALK))
  }

  ghost function Decide(db: Db, req: Request): Result<Plan, RelocationError> {
    if req.target.None? || req.target.value !in db.rows then Err(TargetNotFound)
    else
      var t := req.target.value;
      if db.rows[t].link.None? then Err(CannotMoveRoot)
      else if !db.rows[t].active then Err(TargetNotActive)
      else if req.sponsor.None? || req.sponsor.value !in db.rows then Err(SponsorNotFound)
      else
        var s := req.sponsor.value;
        if s == t then Err(SponsorIsTarget)
        else if !db.rows[s].active then Err(SponsorNotActive)
        else if Moved(db, t) == {} then Err(TargetNotFound)
        else if s in Moved(db, t) then Err(SponsorInsideSubtree)
        else if ChooseSlot(db, t, s, req).Err? then Err(ChooseSlot(db, t, s, req).error)
        else
          var slot := ChooseSlot(db, t, s, req).value;
          if slot.parent <= 0 then Err(InvalidTargetSlot)
          else if Occupant(db.rows, slot).Some? && Occupant(db.rows, slot).value != t then Err(TargetSlotTaken)
          else
            var plan := Plan(t, s, slot, db.rows[t].link != Some(Link(slot.parent, slot.side)),
                             db.rows[t].sponsor != Some(s));
            if !plan.structureChanged && !plan.sponsorChanged && !req.dryRun then Err(NoChange) else Ok(plan)
  }

  lemma {:induction false} ChosenSlot(db: Db, t: Id, s: Id, req: Request)
    requires Consistent(db) && t in db.rows && db.rows[t].link.Some? && s in db.rows
    requires s !in Moved(db, t) && ChooseSlot(db, t, s, req).Ok?
    ensures var slot := ChooseSlot(db, t, s, req).value;
            && slot.parent in db.rows && slot.parent !in Moved(db, t)
            && Below(LinksOf(db.rows), s, slot.parent)
  {
    hide Walk, PathsExact, ClosureExact, TotalsExact, Moved;
    var links := LinksOf(db.rows);
    MovedIsSubtree(db, t);
    if req.targetParent.Some? {
      ClosureMeansBelow(db, s, req.targetParent.value);
    } else if (s, t) in db.closure && db.closure[(s, t)] > 0 {
      OwnSlot(db, t, s);
    } else {
      WalkFindsSlot(db.rows, s, None, MAX_WALK);
      WalkLeavesSubtreeOut(db, t, s, Walk(db.rows, s, None, MAX_WALK).parent);
    }
  }

  // Already below the sponsor: its own parent is too, and is not moved.
  lemma {:induction false} OwnSlot(db: Db, t: Id, s: Id)
    requires Consistent(db) && t in db.rows && db.rows[t].link.Some?
    requires (s, t) in db.closure && db.closure[(s, t)] > 0
    ensures var p := db.rows[t].link.value.parent;
            p in db.rows && p !in Moved(db, t) && Below(LinksOf(db.rows), s, p)
  {
    hide PathsExact, ClosureExact, TotalsExact, Moved;
    var links := LinksOf(db.rows);
    var p := links[t].value.parent;
    EntriesAreBelow(db, s, t);
    assert DepthOf(db.rows)[t] == DepthOf(db.rows)[p] + 1;
    assert Anc(links, p, db.closure[(s, t)] - 1) == Some(s);
    if p in Moved(db, t) { MovedDepth(db, t, p); }
  }

  // A walk from a sponsor that is neither above nor below the target stays clear of it.
  lemma {:induction false} WalkLeavesSubtreeOut(db: Db, t: Id, s: Id, d: Id)
    requires Consistent(db) && t in db.rows && s in db.rows && d in db.rows
    requires s !in Moved(db, t) && !((s, t) in db.closure && db.closure[(s, t)] > 0)
    requires Below(LinksOf(db.rows), s, d)
    ensures d !in Moved(db, t)
  {
    hide Shaped, PathsExact, ClosureExact, TotalsExact, Moved;
    var links := LinksOf(db.rows);
    MovedIsSubtree(db, t);
    if d in Moved(db, t) {
      AncestorsAreComparable(links, s, t, d);
      ClosureMeansBelow(db, s, t);
      if (s, t) in db.closure {
        EntriesAreBelow(db, s, t);
      }
    }
  }

  // An accepted plan satisfies everything the move itself relies on.
  lemma {:induction false} AcceptedPlanIsMovable(db: Db, req: Request)
    requires Consistent(db) && Decide(db, req).Ok?
    ensures var p := Decide(db, req).value;
            && Movable(db, p.target, p.slot) && p.sponsor in db.rows
            && Below(LinksOf(db.rows), p.sponsor, p.slot.parent)
            && p.sponsor !in Moved(db, p.target)
  {
    hide Consistent, Moved, Occupant, ChooseSlot;
    var p := Decide(db, req).value;
    ChosenSlot(db, p.target, p.sponsor, req);
    OnlyTargetInSlot(db, p.target, p.slot);
  }

  lemma {:induction false} OnlyTargetInSlot(db: Db, t: Id, slot: Slot)
    requires Consistent(db)
    requires Occupant(db.rows, slot).None? || Occupant(db.rows, slot).value == t
    ensures forall c :: c in db.rows && db.rows[c].link == Some(Link(slot.parent, slot.side)) ==> c == t
  {
    hide PathsExact, ClosureExact, TotalsExact, Ranked;
    var links := LinksOf(db.rows);
    forall c | c in db.rows && db.rows[c].link == Some(Link(slot.parent, slot.side)) ensures c == t {
      assert Occupies(db.rows, c, slot);
      assert links[c] == links[Occupant(db.rows, slot).value];
    }
  }

  /**
   * A relocation that goes through leaves the target below its new sponsor, whichever way the
   * slot was chosen.
   */
  lemma {:induction false} RelocatedUnderSponsor(db: Db, req: Request)
    requires Consistent(db) && Decide(db, req).Ok?
    ensures var p := Decide(db, req).value;
            Below(Relink(LinksOf(db.rows), p.target, p.slot.parent, p.slot.side), p.sponsor, p.target)
  {
    hide Decide, Consistent, Moved;
    AcceptedPlanIsMovable(db, req);
    var p := Decide(db, req).value;
    var links := LinksOf(db.rows);
    MovedIsSubtree(db, p.target);
    DepthsAreRanked(db);
    var i: nat :| Anc(links, p.slot.parent, i) == Some(p.sponsor);
    RelinkAbove(links, DepthOf(db.rows), p.target, p.slot.parent, p.slot.side, p.target, 0, i);
  }

  /* ----- The integrity checks ----- */

  // Descendants whose path names the leg.
  function PathLeg(db: Db, a: Id, side: Side): set<Id>
    requires a in db.rows
  {
    set d | d in db.rows && (a, d) in db.closure && db.closure[(a, d)] > 0
            && db.rows[a].depth + 1 < |db.rows[d].path| && 0 <= db.rows[a].depth + 1
            && db.rows[d].path[db.rows[a].depth + 1].SideLabel?
            && db.rows[d].path[db.rows[a].depth + 1].side == side
  }

  predicate NonNegative(t: Totals) {
    && 0 <= t.leftCount && 0 <= t.rightCount && 0 <= t.leftPv && 0 <= t.rightPv
    && 0 <= t.leftCurrent && 0 <= t.rightCurrent
  }

  ghost function Integrity(db: Db, moved: set<Id>, affected: set<Id>, t: Id): Option<RelocationError> {
    if exists m :: m in moved && ((m, m) !in db.closure || db.closure[(m, m)] != 0) then Some(SelfClosureDrift)
    else if exists m :: m in moved && (m, m) in db.closure && db.closure[(m, m)] != 0 then Some(CycleDetected)
    else if exists a :: a in affected && a in db.rows && !NonNegative(db.rows[a].totals) then Some(NegativeAggregate)
    else if exists a :: a in affected && a in db.rows &&
              (db.rows[a].totals.leftPv != SumPv(db.pv, PathLeg(db, a, L))
               || db.rows[a].totals.rightPv != SumPv(db.pv, PathLeg(db, a, R))) then Some(PvDrift)
    else if exists a :: a in affected && a in db.rows &&
              (db.rows[a].totals.leftCount != |PathLeg(db, a, L)|
               || db.rows[a].totals.rightCount != |PathLeg(db, a, R)|) then Some(CountDrift)
    else if !exists a :: a in db.rows && (a, t) in db.closure then Some(ClosureMissing)
    else None
  }

  lemma {:induction false} PathLegIsLeg(db: Db, a: Id, s: Side)
    requires Consistent(db) && a in db.rows
    ensures PathLeg(db, a, s) == Leg(LinksOf(db.rows), a, s)
  {
    hide Shaped, PathsExact, ClosureExact, TotalsExact;
    var links := LinksOf(db.rows);
    DepthsAreRanked(db);
    forall d | d in db.rows ensures d in PathLeg(db, a, s) <==> InLeg(links, a, s, d) {
      if InLeg(links, a, s, d) {
        LegIsPathLeg(db, a, s, d);
      } else if d in PathLeg(db, a, s) {
        EntriesAreBelow(db, a, d);
        LegsPartition(links, DepthOf(db.rows), a, d);
        var other := if s == L then R else L;
        LegIsPathLeg(db, a, other, d);
      }
    }
  }

  lemma {:induction false} LegIsPathLeg(db: Db, a: Id, s: Side, d: Id)
    requires Consistent(db) && a in db.rows && d in db.rows && InLeg(LinksOf(db.rows), a, s, d)
    ensures d in PathLeg(db, a, s)
    ensures var level := db.rows[a].depth + 1;
            0 <= level < |db.rows[d].path| && db.rows[d].path[level] == SideLabel(s, db.rows[d].path[level].id)
  {
    hide Shaped, PathsExact, ClosureExact, TotalsExact, InLeg, LinksOf;
    PathNamesLeg(db.rows, a, d, s);
    DepthBounds(db, a);
    OldLegListed(db, d, a, s);
    hide Consistent;
  }

  // On a consistent database only a negative total can trip the checks.
  lemma {:induction false} OnlyNegativesTrip(db: Db, moved: set<Id>, affected: set<Id>, t: Id)
    requires Consistent(db) && t in db.rows && moved <= db.rows.Keys
    ensures Integrity(db, moved, affected, t) ==
            if exists a :: a in affected && a in db.rows && !NonNegative(db.rows[a].totals)
            then Some(NegativeAggregate) else None
  {
    hide Shaped, PathsExact, ClosureExact, TotalsExact, PathLeg, NonNegative;
    forall m | m in moved ensures (m, m) in db.closure && db.closure[(m, m)] == 0 {
      assert Anc(LinksOf(db.rows), m, 0) == Some(m);
      DistanceIsEntry(db, m, m, 0);
    }
    forall a | a in db.rows
      ensures db.rows[a].totals.leftPv == SumPv(db.pv, PathLeg(db, a, L))
      ensures db.rows[a].totals.rightPv == SumPv(db.pv, PathLeg(db, a, R))
      ensures db.rows[a].totals.leftCount == |PathLeg(db, a, L)|
      ensures db.rows[a].totals.rightCount == |PathLeg(db, a, R)|
    {
      TotalsOf(db, a);
      PathLegIsLeg(db, a, L);
      PathLegIsLeg(db, a, R);
    }
    assert Anc(LinksOf(db.rows), t, 0) == Some(t);
    DistanceIsEntry(db, t, t, 0);
  }

  function CurrentOf(t: Totals, side: Side): int { if side == L then t.leftCurrent else t.rightCurrent }

  ghost predicate EventsNonNegative(db: Db) { forall d :: d in db.pv ==> 0 <= db.pv[d] }

  ghost predicate CurrentNonNegative(db: Db) {
    forall a :: a in db.rows ==> 0 <= db.rows[a].totals.leftCurrent && 0 <= db.rows[a].totals.rightCurrent
  }

  // Every ancestor that loses the subtree from a leg still holds its PV in the current cycle.
  ghost predicate CoveredByCurrent(db: Db, t: Id, slot: Slot)
    requires t in db.rows && slot.parent in db.rows
  {
    var oldLegs, newLegs := OldLegs(db, t), NewLegs(db, slot.parent, NewPath(db, t, slot));
    forall a :: a in oldLegs && !(a in newLegs && newLegs[a] == oldLegs[a]) ==>
      SumPv(db.pv, Moved(db, t)) <= CurrentOf(db.rows[a].totals, oldLegs[a])
  }

  ghost function Affected(db: Db, t: Id, slot: Slot): set<Id>
    requires t in db.rows && slot.parent in db.rows
  {
    OldLegs(db, t).Keys + NewLegs(db, slot.parent, NewPath(db, t, slot)).Keys
  }

  lemma {:induction false} CurrentAfterMove(db: Db, t: Id, sponsor: Id, slot: Slot, a: Id, s: Side)
    requires t in db.rows && slot.parent in db.rows && a in db.rows
    ensures a in Move(db, t, sponsor, slot).rows
    ensures var oldLegs, newLegs := OldLegs(db, t), NewLegs(db, slot.parent, NewPath(db, t, slot));
            CurrentOf(Move(db, t, sponsor, slot).rows[a].totals, s) ==
            CurrentOf(db.rows[a].totals, s)
            - If(a in oldLegs && oldLegs[a] == s, SumPv(db.pv, Moved(db, t)))
            + If(a in newLegs && newLegs[a] == s, SumPv(db.pv, Moved(db, t)))
  {
    hide Move, OldLegs, NewLegs, Moved, NewPath, SumPv;
    MovedTotals(db, t, sponsor, slot, a);
  }

  lemma {:induction false} TrueTotalsNonNegative(db: Db, a: Id)
    requires Consistent(db) && a in db.rows && EventsNonNegative(db)
    ensures var t := db.rows[a].totals; 0 <= t.leftCount && 0 <= t.rightCount && 0 <= t.leftPv && 0 <= t.rightPv
  {
    hide Consistent;
    TotalsOf(db, a);
    SumPvNonNegative(db.pv, Leg(LinksOf(db.rows), a, L));
    SumPvNonNegative(db.pv, Leg(LinksOf(db.rows), a, R));
  }

  /**
   * From a consistent database the checks after a move never report drift, a cycle or missing
   * closure rows. They can only report a negative total, and they do exactly when some
   * ancestor losing the subtree holds less current-cycle PV on that leg than the subtree has.
   */
  lemma {:induction false} MovePassesChecksIff(db: Db, t: Id, sponsor: Id, slot: Slot)
    requires Movable(db, t, slot) && EventsNonNegative(db) && CurrentNonNegative(db)
    ensures Integrity(Move(db, t, sponsor, slot), Moved(db, t), Affected(db, t, slot), t) ==
            if CoveredByCurrent(db, t, slot) then None else Some(NegativeAggregate)
  {
    hide Move, OldLegs, NewLegs, NewPath, Consistent, Moved;
    var after := Move(db, t, sponsor, slot);
    var oldLegs, newLegs := OldLegs(db, t), NewLegs(db, slot.parent, NewPath(db, t, slot));
    MoveKeepsConsistent(db, t, sponsor, slot);
    MoveRelinks(db, t, sponsor, slot);
    MovedAreRows(db, t);
    LegsAreOfRows(db, t, slot);
    OnlyNegativesTrip(after, Moved(db, t), Affected(db, t, slot), t);
    SumPvNonNegative(db.pv, Moved(db, t));
    forall a | a in db.rows
      ensures NonNegative(after.rows[a].totals) <==>
              (a in oldLegs && !(a in newLegs && newLegs[a] == oldLegs[a]) ==>
                 SumPv(db.pv, Moved(db, t)) <= CurrentOf(db.rows[a].totals, oldLegs[a]))
    {
      TrueTotalsNonNegative(after, a);
      CurrentAfterMove(db, t, sponsor, slot, a, L);
      CurrentAfterMove(db, t, sponsor, slot, a, R);
    }
  }

  lemma {:induction false} MovedAreRows(db: Db, t: Id)
    ensures Moved(db, t) <= db.rows.Keys
  {
  }

  lemma {:induction false} LegsAreOfRows(db: Db, t: Id, slot: Slot)
    requires t in db.rows && slot.parent in db.rows
    ensures OldLegs(db, t).Keys <= db.rows.Keys
    ensures NewLegs(db, slot.parent, NewPath(db, t, slot)).Keys <= db.rows.Keys
  {
    hide SideAt, NewPath;
  }

  /* ----- Current-cycle PV in step with lifetime PV ----- */

  // No cycle has been closed: the current columns still equal the lifetime ones.
  ghost predicate InStep(db: Db) {
    forall a :: a in db.rows ==>
      && db.rows[a].totals.leftCurrent == db.rows[a].totals.leftPv
      && db.rows[a].totals.rightCurrent == db.rows[a].totals.rightPv
  }

  // As long as the current columns are in step, every move passes its checks.
  lemma {:induction false} InStepMovePasses(db: Db, t: Id, sponsor: Id, slot: Slot)
    requires Movable(db, t, slot) && EventsNonNegative(db) && InStep(db)
    ensures InStep(Move(db, t, sponsor, slot))
    ensures Integrity(Move(db, t, sponsor, slot), Moved(db, t), Affected(db, t, slot), t).None?
  {
    hide Move, OldLegs, NewLegs, NewPath, Consistent, Moved, Integrity;
    var after := Move(db, t, sponsor, slot);
    MoveRelinks(db, t, sponsor, slot);
    MoveKeepsConsistent(db, t, sponsor, slot);
    forall a | a in db.rows
      ensures after.rows[a].totals.leftCurrent == after.rows[a].totals.leftPv
      ensures after.rows[a].totals.rightCurrent == after.rows[a].totals.rightPv
      ensures 0 <= db.rows[a].totals.leftPv && 0 <= db.rows[a].totals.rightPv
    {
      MovedTotals(db, t, sponsor, slot, a);
      TrueTotalsNonNegative(db, a);
    }
    MovePassesChecksIff(db, t, sponsor, slot);
    LegsAreOfRows(db, t, slot);
    forall a | a in OldLegs(db, t)
      ensures SumPv(db.pv, Moved(db, t)) <= CurrentOf(db.rows[a].totals, OldLegs(db, t)[a])
    {
      SubtreeFitsLeg(db, t, a);
    }
  }

  lemma {:induction false} SubtreeFitsLeg(db: Db, t: Id, a: Id)
    requires Consistent(db) && EventsNonNegative(db) && t in db.rows && a in OldLegs(db, t) && a in db.rows
    ensures var s := OldLegs(db, t)[a];
            SumPv(db.pv, Moved(db, t)) <= (if s == L then db.rows[a].totals.leftPv else db.rows[a].totals.rightPv)
  {
    hide Shaped, PathsExact, ClosureExact, TotalsExact, OldLegs, Moved, Leg, SumPv, InLeg;
    var links := LinksOf(db.rows);
    var s := OldLegs(db, t)[a];
    OldLegsAreTrue(db, t, a, s);
    MovedInLeg(db, t, a, s);
    TotalsOf(db, a);
    var leg, m := Leg(links, a, s), Moved(db, t);
    assert leg == (leg - m) + m;
    SumPvUnion(db.pv, leg - m, m);
    SumPvNonNegative(db.pv, leg - m);
  }

  lemma {:induction false} MovedInLeg(db: Db, t: Id, a: Id, s: Side)
    requires Consistent(db) && t in db.rows && a in db.rows && InLeg(LinksOf(db.rows), a, s, t)
    ensures Moved(db, t) <= Leg(LinksOf(db.rows), a, s)
  {
    hide Shaped, PathsExact, ClosureExact, TotalsExact, Moved;
    var links := LinksOf(db.rows);
    MovedIsSubtree(db, t);
    forall d | d in Moved(db, t) ensures InLeg(links, a, s, d) {
      var j: nat :| Anc(links, d, j) == Some(t);
      var k: nat :| InLegAt(links, a, s, t, k);
      AncCompose(links, d, j, k);
      assert InLegAt(links, a, s, d, j + k);
    }
  }
}
