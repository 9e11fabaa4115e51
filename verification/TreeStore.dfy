/**
 * The genealogy as the service runs it: one object whose tables every transaction rewrites in
 * place, step by step. `Consistent` survives every transaction, so it holds over every run.
 */
module TreeStore {
  import opened Prelude
  import opened TreeModel
  import opened TreeTables
  import opened TreeMove
  import opened TreeTotals
  import opened TreeGrowth
  import opened TreeRelocation

  /* ----- What one relocation does ----- */

  // Same place, new sponsor.
  function Responsor(db: Db, t: Id, sponsor: Id): Db
    requires t in db.rows
  {
    Db(db.rows[t := db.rows[t].(sponsor := Some(sponsor))], db.closure, db.pv)
  }

  // The checks that also run when only the sponsor changes.
  ghost function ClosureCheck(closure: map<(Id, Id), int>, moved: set<Id>): Option<RelocationError> {
    if exists m :: m in moved && ((m, m) !in closure || closure[(m, m)] != 0) then Some(SelfClosureDrift)
    else if exists m :: m in moved && (m, m) in closure && closure[(m, m)] != 0 then Some(CycleDetected)
    else None
  }

  ghost function Applied(db: Db, p: Plan): Db
    requires p.target in db.rows && p.slot.parent in db.rows
  {
    if p.structureChanged then Move(db, p.target, p.sponsor, p.slot) else Responsor(db, p.target, p.sponsor)
  }

  ghost function Check(db: Db, p: Plan): Option<RelocationError>
    requires p.target in db.rows && p.slot.parent in db.rows
  {
    if p.structureChanged
    then Integrity(Applied(db, p), Moved(db, p.target), Affected(db, p.target, p.slot), p.target)
    else ClosureCheck(Applied(db, p).closure, Moved(db, p.target))
  }

  // A refused or merely previewed relocation leaves the database as it was.
  ghost predicate RelocationResult(db: Db, req: Request, r: Result<Plan, RelocationError>, after: Db) {
    match Decide(db, req)
    case Err(e) => r == Err(e) && after == db
    case Ok(p) =>
      && p.target in db.rows && p.slot.parent in db.rows
      && if req.dryRun then r == Ok(p) && after == db
         else if Check(db, p).Some? then r == Err(Check(db, p).value) && after == db
         else r == Ok(p) && after == Applied(db, p)
  }

  lemma {:induction false} ResponsorRow(db: Db, t: Id, sponsor: Id, a: Id)
    requires t in db.rows && a in db.rows
    ensures var after := Responsor(db, t, sponsor);
            && after.rows.Keys == db.rows.Keys && after.closure == db.closure && after.pv == db.pv
            && LinksOf(after.rows) == LinksOf(db.rows) && DepthOf(after.rows) == DepthOf(db.rows)
            && after.rows[a] == db.rows[a].(sponsor := after.rows[a].sponsor)
  {
  }

  lemma {:induction false} ResponsorKeepsConsistent(db: Db, t: Id, sponsor: Id)
    requires Consistent(db) && t in db.rows
    ensures Consistent(Responsor(db, t, sponsor)) && Responsor(db, t, sponsor).pv == db.pv
    ensures LinksOf(Responsor(db, t, sponsor).rows) == LinksOf(db.rows)
  {
    hide Responsor, Shaped, PathsExact, ClosureExact, TotalsExact, TotalsExactFor;
    var after := Responsor(db, t, sponsor);
    ResponsorRow(db, t, sponsor, t);
    forall a | a in db.rows
      ensures after.rows[a].link == db.rows[a].link
      ensures after.rows[a].path == db.rows[a].path && after.rows[a].depth == db.rows[a].depth
      ensures TotalsExactFor(LinksOf(after.rows), after.pv, a, after.rows[a].totals)
    {
      ResponsorRow(db, t, sponsor, a);
      TotalsOf(db, a);
    }
    SameStructure(db.rows, after.rows);
    ConsistentFromParts(after, LinksOf(db.rows));
  }

  lemma {:induction false} ClosureCheckPasses(db: Db, moved: set<Id>)
    requires Consistent(db) && moved <= db.rows.Keys
    ensures ClosureCheck(db.closure, moved).None?
  {
    hide Consistent;
    forall m | m in moved ensures (m, m) in db.closure && db.closure[(m, m)] == 0 {
      assert Anc(LinksOf(db.rows), m, 0) == Some(m);
      DistanceIsEntry(db, m, m, 0);
    }
  }

  lemma {:induction false} UnchangedSlot(db: Db, req: Request)
    requires Decide(db, req).Ok? && !Decide(db, req).value.structureChanged
    ensures var p := Decide(db, req).value;
            p.target in db.rows && db.rows[p.target].link == Some(Link(p.slot.parent, p.slot.side))
  {
    hide ChooseSlot, Moved, Occupant;
  }

  lemma {:induction false} RelinkInPlace(rows: map<Id, Row>, t: Id, slot: Slot)
    requires t in rows && rows[t].link == Some(Link(slot.parent, slot.side))
    ensures Relink(LinksOf(rows), t, slot.parent, slot.side) == LinksOf(rows)
  {
  }

  // Whichever way a plan changes the database, the derived columns stay exact.
  lemma {:induction false} AppliedIsConsistent(db: Db, req: Request)
    requires Consistent(db) && Decide(db, req).Ok?
    ensures var p := Decide(db, req).value;
            && Movable(db, p.target, p.slot)
            && Consistent(Applied(db, p)) && Applied(db, p).pv == db.pv
            && LinksOf(Applied(db, p).rows) == Relink(LinksOf(db.rows), p.target, p.slot.parent, p.slot.side)
  {
    hide Decide, Move, Consistent, Responsor, Relink, Moved;
    AcceptedPlanIsMovable(db, req);
    var p := Decide(db, req).value;
    if p.structureChanged {
      MoveKeepsConsistent(db, p.target, p.sponsor, p.slot);
    } else {
      UnchangedSlot(db, req);
      RelinkInPlace(db.rows, p.target, p.slot);
      ResponsorKeepsConsistent(db, p.target, p.sponsor);
    }
  }

  /**
   * Every relocation, accepted or not, keeps the derived columns exact; an applied one leaves
   * the target below its new sponsor. While the current-cycle columns are in step with the
   * lifetime ones, the checks after the move never turn an accepted relocation down.
   */
  lemma {:induction false} RelocationIsSafe(db: Db, req: Request, r: Result<Plan, RelocationError>, after: Db)
    requires Consistent(db) && RelocationResult(db, req, r, after)
    ensures Consistent(after) && after.pv == db.pv
    ensures r.Ok? && !req.dryRun ==> Below(LinksOf(after.rows), r.value.sponsor, r.value.target)
    ensures InStep(db) && EventsNonNegative(db) ==> r == Decide(db, req) && InStep(after)
  {
    hide Decide, Consistent, Applied, Check, InStep, EventsNonNegative;
    if Decide(db, req).Ok? {
      AppliedIsConsistent(db, req);
      RelocatedUnderSponsor(db, req);
      if InStep(db) && EventsNonNegative(db) { InStepPlanPasses(db, req); }
    }
  }

  lemma {:induction false} InStepPlanPasses(db: Db, req: Request)
    requires Consistent(db) && Decide(db, req).Ok? && InStep(db) && EventsNonNegative(db)
    ensures var p := Decide(db, req).value;
            p.target in db.rows && p.slot.parent in db.rows && Check(db, p).None? && InStep(Applied(db, p))
  {
    hide Decide, Consistent, Move, Moved, Integrity, ClosureCheck, EventsNonNegative;
    AcceptedPlanIsMovable(db, req);
    var p := Decide(db, req).value;
    if p.structureChanged {
      InStepMovePasses(db, p.target, p.sponsor, p.slot);
    } else {
      MovedAreRows(db, p.target);
      ClosureCheckPasses(db, Moved(db, p.target));
    }
  }

  /* ----- Queries ----- */

  method OwnTotal(pv: map<Id, int>, s: set<Id>) returns (total: int)
    ensures total == SumPv(pv, s)
  {
    var rest := s;
    total := 0;
    while exists d :: d in rest
      invariant total + SumPv(pv, rest) == SumPv(pv, s)
      decreases |rest|
    {
      var d :| d in rest;
      SumPvRemove(pv, rest, d);
      total := total + OwnPv(pv, d);
      rest := rest - {d};
    }
  }

  method FindOccupant(rows: map<Id, Row>, slot: Slot) returns (occupant: Option<Id>)
    requires OneChildPerSlot(LinksOf(rows))
    ensures occupant == Occupant(rows, slot)
  {
    occupant := None;
    var rest := rows.Keys;
    while exists c :: c in rest
      invariant rest <= rows.Keys
      invariant forall c :: Occupies(rows, c, slot) ==> c in rest
      decreases |rest|
    {
      var c :| c in rest;
      if rows[c].link == Some(Link(slot.parent, slot.side)) {
        SameOccupant(rows, slot, c);
        return Some(c);
      }
      rest := rest - {c};
    }
  }

  lemma {:induction false} SameOccupant(rows: map<Id, Row>, slot: Slot, c: Id)
    requires OneChildPerSlot(LinksOf(rows)) && Occupies(rows, c, slot)
    ensures Occupant(rows, slot) == Some(c)
  {
    var links := LinksOf(rows);
    assert links[c] == links[Occupant(rows, slot).value];
  }

  // The descent to a slot, level by level: at most 512 of them, and at the end, too, the side
  // that was asked for or the weaker one.
  method FindSlot(rows: map<Id, Row>, node: Id, preferred: Option<Side>) returns (slot: Slot)
    requires Shaped(rows) && node in rows
    ensures slot == Walk(rows, node, preferred, 512)
    ensures slot.parent in rows && (preferred.Some? ==> slot.side == preferred.value)
    ensures var t := rows[slot.parent].totals;
            preferred.None? ==>
              if slot.side == L then
                t.leftCurrent < t.rightCurrent || (t.leftCurrent == t.rightCurrent && t.leftCount <= t.rightCount)
              else
                t.rightCurrent < t.leftCurrent || (t.leftCurrent == t.rightCurrent && t.rightCount < t.leftCount)
  {
    var level, current := 0, node;
    slot := Slot(node, WalkSide(rows[node].totals, preferred));
    var child := FindOccupant(rows, slot);
    while level < MAX_WALK && child.Some?
      invariant level <= MAX_WALK && current in rows
      invariant slot == Slot(current, WalkSide(rows[current].totals, preferred))
      invariant child == Occupant(rows, slot)
      invariant Walk(rows, node, preferred, MAX_WALK) == Walk(rows, current, preferred, MAX_WALK - level)
    {
      current, level := child.value, level + 1;
      slot := Slot(current, WalkSide(rows[current].totals, preferred));
      child := FindOccupant(rows, slot);
    }
  }

  ghost predicate PvTrue(db: Db, a: Id)
    requires a in db.rows
  {
    && db.rows[a].totals.leftPv == SumPv(db.pv, PathLeg(db, a, L))
    && db.rows[a].totals.rightPv == SumPv(db.pv, PathLeg(db, a, R))
  }

  // The reconciliation view, one affected ancestor after the other.
  method FindPvDrift(db: Db, affected: set<Id>) returns (drift: bool)
    ensures drift <==> exists a :: a in affected && a in db.rows && !PvTrue(db, a)
  {
    var rest := affected;
    while exists a :: a in rest
      invariant rest <= affected
      invariant forall a :: a in affected - rest && a in db.rows ==> PvTrue(db, a)
      decreases |rest|
    {
      var a :| a in rest;
      if a in db.rows {
        var left := OwnTotal(db.pv, PathLeg(db, a, L));
        var right := OwnTotal(db.pv, PathLeg(db, a, R));
        if db.rows[a].totals.leftPv != left || db.rows[a].totals.rightPv != right { return true; }
      }
      rest := rest - {a};
    }
    return false;
  }

  method CheckIntegrity(db: Db, moved: set<Id>, affected: set<Id>, t: Id) returns (e: Option<RelocationError>)
    ensures e == Integrity(db, moved, affected, t)
  {
    hide PathLeg, SumPv, NonNegative;
    if exists m :: m in moved && ((m, m) !in db.closure || db.closure[(m, m)] != 0) { return Some(SelfClosureDrift); }
    if exists m :: m in moved && (m, m) in db.closure && db.closure[(m, m)] != 0 { return Some(CycleDetected); }
    if exists a :: a in affected && a in db.rows && !NonNegative(db.rows[a].totals) { return Some(NegativeAggregate); }
    var drift := FindPvDrift(db, affected);
    if drift { return Some(PvDrift); }
    if exists a :: a in affected && a in db.rows &&
         (db.rows[a].totals.leftCount != |PathLeg(db, a, L)| || db.rows[a].totals.rightCount != |PathLeg(db, a, R)|)
    {
      return Some(CountDrift);
    }
    if !exists a :: a in db.rows && (a, t) in db.closure { return Some(ClosureMissing); }
    return None;
  }

  method CheckClosure(closure: map<(Id, Id), int>, moved: set<Id>) returns (e: Option<RelocationError>)
    ensures e == ClosureCheck(closure, moved)
  {
    if exists m :: m in moved && ((m, m) !in closure || closure[(m, m)] != 0) { return Some(SelfClosureDrift); }
    if exists m :: m in moved && (m, m) in closure && closure[(m, m)] != 0 { return Some(CycleDetected); }
    return None;
  }

  method PickSlot(db: Db, t: Id, s: Id, req: Request) returns (r: Result<Slot, RelocationError>)
    requires Shaped(db.rows) && t in db.rows && db.rows[t].link.Some? && s in db.rows
    ensures r == ChooseSlot(db, t, s, req)
  {
    hide Shaped, Walk, Moved;
    if req.targetParent.Some? {
      var p := req.targetParent.value;
      if p !in db.rows { return Err(TargetParentNotFound); }
      if !db.rows[p].active { return Err(TargetParentNotActive); }
      if p in Moved(db, t) { return Err(TargetParentInsideSubtree); }
      if (s, p) !in db.closure { return Err(TargetParentNotUnderSponsor); }
      if req.position.None? { return Err(InvalidTargetSlot); }
      return Ok(Slot(p, req.position.value));
    }
    if (s, t) in db.closure && db.closure[(s, t)] > 0 {
      var l := db.rows[t].link.value;
      return Ok(Slot(l.parent, l.side));
    }
    var slot := FindSlot(db.rows, s, None);
    return Ok(slot);
  }

  method PlanRelocation(db: Db, req: Request) returns (r: Result<Plan, RelocationError>)
    requires Shaped(db.rows)
    ensures r == Decide(db, req)
  {
    hide Moved, ChooseSlot, Ranked, OneChildPerSlot, Occupant;
    if req.target.None? || req.target.value !in db.rows { return Err(TargetNotFound); }
    var t := req.target.value;
    if db.rows[t].link.None? { return Err(CannotMoveRoot); }
    if !db.rows[t].active { return Err(TargetNotActive); }
    if req.sponsor.None? || req.sponsor.value !in db.rows { return Err(SponsorNotFound); }
    var s := req.sponsor.value;
    if s == t { return Err(SponsorIsTarget); }
    if !db.rows[s].active { return Err(SponsorNotActive); }
    if Moved(db, t) == {} { return Err(TargetNotFound); }
    if s in Moved(db, t) { return Err(SponsorInsideSubtree); }
    var choice := PickSlot(db, t, s, req);
    if choice.Err? { return Err(choice.error); }
    var slot := choice.value;
    if slot.parent <= 0 { return Err(InvalidTargetSlot); }
    var occupant := FindOccupant(db.rows, slot);
    if occupant.Some? && occupant.value != t { return Err(TargetSlotTaken); }
    var plan := Plan(t, s, slot, db.rows[t].link != Some(Link(slot.parent, slot.side)), db.rows[t].sponsor != Some(s));
    if !plan.structureChanged && !plan.sponsorChanged && !req.dryRun { return Err(NoChange); }
    return Ok(plan);
  }

  /* ----- Placement ----- */

  datatype PlacementError = NodeNotFound | RetriesExhausted

  lemma {:induction false} ShapeOf(db: Db)
    requires Consistent(db)
    ensures Shaped(db.rows) && OneChildPerSlot(LinksOf(db.rows))
  {
  }

  lemma {:induction false} FreeMeansNoOccupant(rows: map<Id, Row>, slot: Slot)
    ensures SlotFree(rows, slot) <==> Occupant(rows, slot).None?
  {
    if !SlotFree(rows, slot) {
      var c :| c in rows && rows[c].link == Some(Link(slot.parent, slot.side));
      assert Occupies(rows, c, slot);
    }
  }

  // One attempt at a place: the database the walk sees, and the one the insert finds. Others
  // commit before and in between.
  datatype Attempt = Attempt(walked: Db, found: Db)

  const MAX_ATTEMPTS := 16

  // Whatever others do, they keep the derived columns exact, remove nobody, and do not use n.
  ghost predicate Interferes(db: Db, db': Db, n: Id) {
    && Consistent(db') && n !in db'.rows && db.rows.Keys <= db'.rows.Keys
    && (InStep(db) ==> InStep(db')) && (EventsNonNegative(db) ==> EventsNonNegative(db'))
  }

  ghost predicate Races(db: Db, attempts: seq<Attempt>, n: Id) {
    && |attempts| == 16
    && Interferes(db, attempts[0].walked, n)
    && (forall k :: 0 <= k < 16 ==> Interferes(attempts[k].walked, attempts[k].found, n))
    && (forall k :: 1 <= k < 16 ==> Interferes(attempts[k - 1].found, attempts[k].walked, n))
  }

  // The slot the walk ended at is taken when the insert comes.
  ghost predicate Lost(a: Attempt, sponsor: Id, preferred: Option<Side>) {
    sponsor in a.walked.rows && !SlotFree(a.found.rows, Walk(a.walked.rows, sponsor, preferred, MAX_WALK))
  }

  ghost predicate Won(a: Attempt, n: Id, sponsor: Id, preferred: Option<Side>, slot: Slot, after: Db) {
    && sponsor in a.walked.rows && slot == Walk(a.walked.rows, sponsor, preferred, MAX_WALK)
    && slot.parent in a.found.rows && SlotFree(a.found.rows, slot)
    && after == Insert(a.found, n, sponsor, slot)
    && (Below(LinksOf(after.rows), sponsor, n) <==> Below(LinksOf(a.found.rows), sponsor, slot.parent))
  }

  // The first attempt that is not lost decides.
  ghost predicate PlacementResult(
      attempts: seq<Attempt>, n: Id, sponsor: Id, preferred: Option<Side>, r: Result<Slot, PlacementError>, after: Db)
    requires |attempts| == 16
  {
    match r
    case Ok(slot) =>
      exists k :: 0 <= k < 16 && LostBefore(attempts, k, sponsor, preferred)
                  && Won(attempts[k], n, sponsor, preferred, slot, after)
    case Err(NodeNotFound) => sponsor !in attempts[0].walked.rows && after == attempts[0].walked
    case Err(RetriesExhausted) =>
      LostBefore(attempts, 16, sponsor, preferred) && after == attempts[15].found
  }

  ghost predicate LostBefore(attempts: seq<Attempt>, k: nat, sponsor: Id, preferred: Option<Side>)
    requires k <= |attempts|
  {
    forall j :: 0 <= j < k ==> Lost(attempts[j], sponsor, preferred)
  }

  // A lost attempt lost its slot between the walk and the insert, or walked 512 levels down.
  lemma {:induction false} WhyLost(db: Db, attempts: seq<Attempt>, n: Id, sponsor: Id, preferred: Option<Side>, k: nat)
    requires Races(db, attempts, n) && k < MAX_ATTEMPTS && Lost(attempts[k], sponsor, preferred)
    ensures var slot := Walk(attempts[k].walked.rows, sponsor, preferred, MAX_WALK);
            && slot.parent in attempts[k].walked.rows
            && (SlotFree(attempts[k].walked.rows, slot)
                || attempts[k].walked.rows[slot.parent].depth ==
                   attempts[k].walked.rows[sponsor].depth + 512)
  {
    var a := attempts[k];
    var before := if k == 0 then db else attempts[k - 1].found;
    assert Interferes(before, a.walked, n);
    hide Walk, Occupant, SlotFree, Races, Consistent, InStep;
    ShapeOf(a.walked);
    WalkFindsSlot(a.walked.rows, sponsor, preferred, MAX_WALK);
    FreeMeansNoOccupant(a.walked.rows, Walk(a.walked.rows, sponsor, preferred, MAX_WALK));
  }

  // Legs of the ancestors of n, read off their children instead of off n's path.
  function ChildLegs(db: Db, n: Id): map<Id, Side> {
    map a | a in db.rows && (a, n) in db.closure && db.closure[(a, n)] > 0
      :: if exists l :: l in db.rows && db.rows[l].link == Some(Link(a, L)) && (l, n) in db.closure then L else R
  }

  lemma {:induction false} ChildTowards(db: Db, a: Id, s: Side, n: Id)
    requires ClosureExact(LinksOf(db.rows), db.closure) && n in db.rows
    ensures (exists l :: l in db.rows && db.rows[l].link == Some(Link(a, s)) && (l, n) in db.closure)
            <==> InLeg(LinksOf(db.rows), a, s, n)
  {
    var links := LinksOf(db.rows);
    if l :| l in db.rows && db.rows[l].link == Some(Link(a, s)) && (l, n) in db.closure {
      assert InLegAt(links, a, s, n, db.closure[(l, n)]);
    }
    if InLeg(links, a, s, n) {
      var k: nat :| InLegAt(links, a, s, n, k);
      assert (Anc(links, n, k).value, n) in db.closure;
    }
  }

  // In a consistent database both ways of finding the legs agree.
  lemma {:induction false} ChildLegsArePathLegs(db: Db, n: Id)
    requires Consistent(db) && n in db.rows
    ensures ChildLegs(db, n) == OldLegs(db, n)
  {
    hide Shaped, PathsExact, ClosureExact, TotalsExact, SideAt, InLeg;
    assert ClosureExact(LinksOf(db.rows), db.closure);
    forall a | a in db.rows && (a, n) in db.closure && db.closure[(a, n)] > 0
      ensures ChildLegs(db, n)[a] == OldLegs(db, n)[a]
    {
      ChildTowards(db, a, L, n);
      OldLegsAreTrue(db, n, a, L);
    }
  }

  // Legs depend on links, depths, closure and the leaf's own path, not on totals.
  lemma {:induction false} LegsIgnoreTotals(db: Db, db': Db, n: Id)
    requires n in db.rows && db.rows.Keys == db'.rows.Keys && db.closure == db'.closure
    requires forall a :: a in db.rows ==>
               db'.rows[a].link == db.rows[a].link && db'.rows[a].path == db.rows[a].path
               && db'.rows[a].depth == db.rows[a].depth
    ensures OldLegs(db, n) == OldLegs(db', n) && ChildLegs(db, n) == ChildLegs(db', n)
  {
    hide SideAt;
  }

  // The row and closure triggers have run, the counts are still to come.
  function Uncounted(db: Db, n: Id, sponsor: Id, slot: Slot): Db
    requires slot.parent in db.rows
  {
    Db(db.rows[n := LeafRow(db, n, sponsor, slot)], LeafClosure(db, n, slot.parent), db.pv)
  }

  lemma {:induction false} UncountedRow(db: Db, n: Id, sponsor: Id, slot: Slot, a: Id)
    requires slot.parent in db.rows && n !in db.rows && (a in db.rows || a == n)
    ensures var mid, after := Uncounted(db, n, sponsor, slot), Insert(db, n, sponsor, slot);
            && mid.rows.Keys == after.rows.Keys == db.rows.Keys + {n}
            && mid.closure == after.closure && mid.pv == after.pv
            && after.rows[a] == mid.rows[a].(totals := after.rows[a].totals)
  {
    hide NewLegs, NewPath, LeafClosure, AddToLeg;
  }

  lemma {:induction false} UncountedLegs(db: Db, n: Id, sponsor: Id, slot: Slot)
    requires Insertable(db, n, slot)
    ensures var mid := Uncounted(db, n, sponsor, slot);
            n in mid.rows && OldLegs(mid, n) == NewLegs(db, slot.parent, NewPath(db, n, slot))
  {
    hide LeafClosure, NewPath, SideAt, Shaped, PathsExact, ClosureExact, TotalsExact;
    var mid := Uncounted(db, n, sponsor, slot);
    forall a
      ensures a in OldLegs(mid, n) <==> a in NewLegs(db, slot.parent, NewPath(db, n, slot))
      ensures a in db.rows ==> a != n && mid.rows[a].depth == db.rows[a].depth
    {
      LeafEntry(db, n, slot.parent, a, n);
      if (a, slot.parent) in db.closure { EntriesAreBelow(db, a, slot.parent); }
    }
  }

  /**
   * The enrollment event counts along the leaf's path, the other variant along its ancestors'
   * children; both end in the same database.
   */
  lemma {:induction false} EnrollmentVariantsAgree(db: Db, n: Id, sponsor: Id, slot: Slot)
    requires Insertable(db, n, slot)
    ensures var mid := Uncounted(db, n, sponsor, slot);
            && n in mid.rows
            && ChildLegs(mid, n) == OldLegs(mid, n)
            && AdjustLegs(mid.rows, OldLegs(mid, n), 1, 0) == Insert(db, n, sponsor, slot).rows
  {
    hide Consistent, OldLegs, ChildLegs, LeafClosure, LeafRow, NewLegs, NewPath, SlotFree, AddToLeg;
    var mid, after := Uncounted(db, n, sponsor, slot), Insert(db, n, sponsor, slot);
    UncountedLegs(db, n, sponsor, slot);
    InsertKeepsConsistent(db, n, sponsor, slot);
    UncountedRow(db, n, sponsor, slot, n);
    forall a | a in mid.rows
      ensures after.rows[a] == mid.rows[a].(totals := after.rows[a].totals)
    {
      UncountedRow(db, n, sponsor, slot, a);
    }
    LegsIgnoreTotals(mid, after, n);
    ChildLegsArePathLegs(after, n);
    LeafNotListed(db, n, slot);
  }

  lemma {:induction false} InsertParts(db: Db, n: Id, sponsor: Id, slot: Slot)
    requires slot.parent in db.rows
    ensures Insert(db, n, sponsor, slot).closure == LeafClosure(db, n, slot.parent)
    ensures Insert(db, n, sponsor, slot).pv == db.pv
  {
  }

  lemma {:induction false} LeafNotListed(db: Db, n: Id, slot: Slot)
    requires Insertable(db, n, slot)
    ensures n !in NewLegs(db, slot.parent, NewPath(db, n, slot))
  {
  }

  // The new leaf is below whoever its parent is below.
  lemma {:induction false} InsertedBelow(db: Db, n: Id, sponsor: Id, slot: Slot)
    requires Insertable(db, n, slot) && n != sponsor
    ensures Below(LinksOf(Insert(db, n, sponsor, slot).rows), sponsor, n) <==>
            Below(LinksOf(db.rows), sponsor, slot.parent)
  {
    hide Consistent, Insert;
    InsertLinks(db, n, sponsor, slot);
    var links := LinksOf(Insert(db, n, sponsor, slot).rows);
    if Below(LinksOf(db.rows), sponsor, slot.parent) {
      var i: nat :| Anc(LinksOf(db.rows), slot.parent, i) == Some(sponsor);
      LeafAncestors(db, n, slot, i);
    }
    if Below(links, sponsor, n) {
      var i: nat :| Anc(links, n, i) == Some(sponsor);
      LeafAncestors(db, n, slot, i - 1);
    }
  }

  lemma {:induction false} InsertKeepsInStep(db: Db, n: Id, sponsor: Id, slot: Slot)
    requires slot.parent in db.rows && n !in db.rows
    ensures InStep(db) ==> InStep(Insert(db, n, sponsor, slot))
  {
    hide Insert, NewLegs, NewPath;
    InsertRow(db, n, sponsor, slot, n);
    forall a | a in db.rows && InStep(db)
      ensures var t := Insert(db, n, sponsor, slot).rows[a].totals;
              t.leftCurrent == t.leftPv && t.rightCurrent == t.rightPv
    {
      InsertRow(db, n, sponsor, slot, a);
    }
  }

  lemma {:induction false} CreditKeepsInStep(db: Db, d: Id, amount: int)
    requires d in db.rows
    ensures InStep(db) ==> InStep(Credit(db, d, amount))
  {
    hide Credit, OldLegs;
    CreditRow(db, d, amount, d);
    forall a | a in db.rows && InStep(db)
      ensures var t := Credit(db, d, amount).rows[a].totals;
              t.leftCurrent == t.leftPv && t.rightCurrent == t.rightPv
    {
      CreditRow(db, d, amount, a);
    }
  }

  /* ----- The store ----- */

  class Genealogy {
    var rows: map<Id, Row>
    var closure: map<(Id, Id), int>
    var pv: map<Id, int>

    function State(): Db
      reads this
    {
      Db(rows, closure, pv)
    }

    ghost predicate Valid()
      reads this
    {
      Consistent(State())
    }

    constructor (db: Db)
      requires Consistent(db)
      ensures State() == db && Valid()
    {
      rows, closure, pv := db.rows, db.closure, db.pv;
    }

    // The six updates of a structure move, from what was captured before the first one.
    method MoveStructure(db: Db, p: Plan)
      requires State() == db && Movable(db, p.target, p.slot)
      modifies this
      ensures State() == Move(db, p.target, p.sponsor, p.slot)
    {
      hide Moved, OldLegs, NewLegs, SumPv, NewPath, PlaceRoot, PlaceDescendants, AdjustLegs, Consistent;
      PlacedKeys(db, p.target, p.sponsor, p.slot);
      var moved, count := Moved(db, p.target), |Moved(db, p.target)|;
      var oldLegs := OldLegs(db, p.target);
      var newLegs := NewLegs(db, p.slot.parent, NewPath(db, p.target, p.slot));
      var total := OwnTotal(pv, moved);
      rows := PlaceRoot(db, p.target, p.sponsor, p.slot);
      rows := PlaceDescendants(db, rows, p.target, p.slot);
      closure := CutClosure(db, p.target);
      closure := GraftClosure(db, p.target, p.slot.parent);
      rows := AdjustLegs(rows, oldLegs, -count, -total);
      rows := AdjustLegs(rows, newLegs, count, total);
    }

    // Writes the plan and runs the checks on what was written.
    method Apply(db: Db, p: Plan) returns (failed: Option<RelocationError>)
      requires State() == db && Movable(db, p.target, p.slot)
      modifies this
      ensures State() == Applied(db, p) && failed == Check(db, p)
    {
      hide Consistent, Move, Moved, OldLegs, NewLegs, NewPath, Integrity, ClosureCheck, Responsor;
      if p.structureChanged {
        var affected := OldLegs(db, p.target).Keys + NewLegs(db, p.slot.parent, NewPath(db, p.target, p.slot)).Keys;
        MoveStructure(db, p);
        failed := CheckIntegrity(State(), Moved(db, p.target), affected, p.target);
      } else {
        ResponsorRow(db, p.target, p.sponsor, p.target);
        rows := Responsor(db, p.target, p.sponsor).rows;
        failed := CheckClosure(closure, Moved(db, p.target));
      }
    }

    /** One relocation transaction: preview, refusal, rollback or commit. */
    method Relocate(req: Request) returns (r: Result<Plan, RelocationError>)
      requires Valid()
      modifies this
      ensures Valid()
      ensures RelocationResult(old(State()), req, r, State())
      ensures r.Ok? && !req.dryRun ==> Below(LinksOf(rows), r.value.sponsor, r.value.target)
      ensures old(InStep(State()) && EventsNonNegative(State())) ==> r == Decide(old(State()), req) && InStep(State())
    {
      hide Consistent, Decide, Applied, Check, InStep, EventsNonNegative;
      var db := State();
      ShapeOf(db);
      r := PlanRelocation(db, req);
      if r.Ok? { AppliedIsConsistent(db, req); }
      if r.Ok? && !req.dryRun {
        var failed := Apply(db, r.value);
        if failed.Some? {
          r := Err(failed.value);
          rows, closure, pv := db.rows, db.closure, db.pv;
        }
      }
      RelocationIsSafe(db, req, r, State());
    }

    // A tree event: the affiliate's own total and one leg of each of its ancestors.
    method CreditPv(d: Id, amount: int) returns (ok: bool)
      requires Valid()
      modifies this
      ensures Valid() && ok == (d in old(rows))
      ensures State() == if ok then Credit(old(State()), d, amount) else old(State())
      ensures old(InStep(State())) ==> InStep(State())
    {
      hide Consistent, OldLegs;
      ok := d in rows;
      if ok {
        var db := State();
        CreditKeepsConsistent(db, d, amount);
        CreditKeepsInStep(db, d, amount);
        rows := AdjustLegs(rows, OldLegs(db, d), 0, amount);
        pv := pv[d := OwnPv(pv, d) + amount];
      }
    }

    // One guarded insert; a taken slot inserts nothing.
    method InsertIfFree(n: Id, sponsor: Id, slot: Slot, globalEnrollment: bool) returns (inserted: bool)
      requires Valid() && n !in rows && slot.parent in rows
      modifies this
      ensures Valid() && inserted == SlotFree(old(rows), slot)
      ensures State() == if inserted then Insert(old(State()), n, sponsor, slot) else old(State())
      ensures old(InStep(State())) ==> InStep(State())
    {
      hide Consistent, NewLegs, NewPath, Insert, LeafRow, LeafClosure, InStep, AdjustLegs, OldLegs, ChildLegs, SlotFree,
        Occupant;
      var db := State();
      ShapeOf(db);
      var occupant := FindOccupant(rows, slot);
      FreeMeansNoOccupant(rows, slot);
      inserted := occupant.None?;
      if inserted {
        InsertKeepsConsistent(db, n, sponsor, slot);
        InsertKeepsInStep(db, n, sponsor, slot);
        EnrollmentVariantsAgree(db, n, sponsor, slot);
        InsertParts(db, n, sponsor, slot);
        rows := rows[n := LeafRow(db, n, sponsor, slot)];
        closure := LeafClosure(db, n, slot.parent);
        var legs := if globalEnrollment then OldLegs(State(), n) else ChildLegs(State(), n);
        rows := AdjustLegs(rows, legs, 1, 0);
      }
    }

    // Other transactions commit.
    method Refresh(db: Db)
      requires Consistent(db)
      modifies this
      ensures Valid() && State() == db
    {
      hide Consistent;
      rows, closure, pv := db.rows, db.closure, db.pv;
    }

    /**
     * Placing a new affiliate: up to 16 attempts to walk to a slot below the sponsor and take
     * it, while others place, buy and move.
     */
    method AutoPlace(n: Id, sponsor: Id, preferred: Option<Side>, globalEnrollment: bool, attempts: seq<Attempt>)
      returns (r: Result<Slot, PlacementError>)
      requires Valid() && n !in rows && Races(State(), attempts, n)
      modifies this
      ensures Valid()
      ensures old(InStep(State())) ==> InStep(State())
      ensures PlacementResult(attempts, n, sponsor, preferred, r, State())
    {
      hide Consistent, Walk, Insert, Below, Occupant, SlotFree, InStep, EventsNonNegative;
      for attempt := 0 to MAX_ATTEMPTS
        invariant Valid() && n !in rows
        invariant State() == if attempt == 0 then old(State()) else attempts[attempt - 1].found
        invariant LostBefore(attempts, attempt, sponsor, preferred)
        invariant old(InStep(State())) ==> InStep(State())
        invariant attempt > 0 ==> sponsor in rows
      {
        var a := attempts[attempt];
        assert Interferes(State(), a.walked, n) && Interferes(a.walked, a.found, n);
        Refresh(a.walked);
        if sponsor !in rows { return Err(NodeNotFound); }
        ShapeOf(a.walked);
        WalkFindsSlot(rows, sponsor, preferred, MAX_WALK);
        var slot := FindSlot(rows, sponsor, preferred);
        Refresh(a.found);
        var inserted := InsertIfFree(n, sponsor, slot, globalEnrollment);
        if inserted {
          InsertedBelow(a.found, n, sponsor, slot);
          assert Won(a, n, sponsor, preferred, slot, State());
          return Ok(slot);
        }
      }
      return Err(RetriesExhausted);
    }
  }
}
