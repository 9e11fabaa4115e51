/**
 * What the writers of the genealogy do, in terms of the tree: which relocations are accepted,
 * and what every row looks like after a relocation, an enrolment and a purchase.
 */
module TreeDecision {
  import opened Prelude
  import opened TreeModel
  import opened TreeTables
  import opened TreeMove
  import opened TreeTotals
  import opened TreeGrowth
  import opened TreeRelocation
  import opened TreeStore

  /* ----- Which relocations are accepted ----- */

  // The place a request names or leaves to be found: a given parent below the sponsor and
  // outside the moved subtree, the target's own place if it is below the sponsor already, and
  // otherwise the end of the walk from the sponsor.
  ghost predicate PlaceFor(db: Db, req: Request, t: Id, s: Id, slot: Slot)
    requires t in db.rows && s in db.rows
  {
    var links := LinksOf(db.rows);
    match req.targetParent
    case Some(p) =>
      && p in db.rows && db.rows[p].active && !Below(links, t, p) && Below(links, s, p)
      && req.position.Some? && slot == Slot(p, req.position.value)
    case None =>
      if Below(links, s, t) then db.rows[t].link == Some(Link(slot.parent, slot.side))
      else slot == Walk(db.rows, s, None, 512)
  }

  ghost predicate Allowed(db: Db, req: Request, p: Plan) {
    var links := LinksOf(db.rows);
    && req.target == Some(p.target) && p.target in db.rows && db.rows[p.target].link.Some?
    && db.rows[p.target].active
    && req.sponsor == Some(p.sponsor) && p.sponsor in db.rows && db.rows[p.sponsor].active
    && !Below(links, p.target, p.sponsor)
    && PlaceFor(db, req, p.target, p.sponsor, p.slot) && 0 < p.slot.parent
    && (forall c :: c in db.rows && db.rows[c].link == Some(Link(p.slot.parent, p.slot.side)) ==> c == p.target)
    && (p.structureChanged <==> db.rows[p.target].link != Some(Link(p.slot.parent, p.slot.side)))
    && (p.sponsorChanged <==> db.rows[p.target].sponsor != Some(p.sponsor))
    && (p.structureChanged || p.sponsorChanged || req.dryRun)
  }

  lemma {:induction false} PlaceIff(db: Db, req: Request, t: Id, s: Id, slot: Slot)
    requires Consistent(db) && t in db.rows && db.rows[t].link.Some? && s in db.rows && s != t
    ensures ChooseSlot(db, t, s, req) == Ok(slot) <==> PlaceFor(db, req, t, s, slot)
  {
    hide Shaped, PathsExact, ClosureExact, TotalsExact, Walk, Moved;
    MovedIsSubtree(db, t);
    if req.targetParent.Some? {
      ClosureMeansBelow(db, t, req.targetParent.value);
      ClosureMeansBelow(db, s, req.targetParent.value);
      InSubtree(db, t, req.targetParent.value);
    } else {
      ProperlyBelow(db, s, t);
    }
  }

  lemma {:induction false} InSubtree(db: Db, t: Id, d: Id)
    requires Consistent(db) && t in db.rows
    ensures d in Moved(db, t) <==> d in db.rows && Below(LinksOf(db.rows), t, d)
  {
    hide Shaped, PathsExact, TotalsExact;
    ClosureMeansBelow(db, t, d);
    hide ClosureExact;
  }

  lemma {:induction false} ProperlyBelow(db: Db, s: Id, t: Id)
    requires Consistent(db) && t in db.rows && s != t
    ensures (s, t) in db.closure && db.closure[(s, t)] > 0 <==> Below(LinksOf(db.rows), s, t)
  {
    hide Shaped, PathsExact, TotalsExact;
    ClosureMeansBelow(db, s, t);
    if (s, t) in db.closure { EntriesAreBelow(db, s, t); }
    hide ClosureExact;
  }

  lemma {:induction false} HeldOnlyBy(db: Db, t: Id, slot: Slot)
    requires Consistent(db)
    ensures Occupant(db.rows, slot).None? || Occupant(db.rows, slot).value == t <==>
            forall c :: c in db.rows && db.rows[c].link == Some(Link(slot.parent, slot.side)) ==> c == t
  {
    hide Consistent;
    if Occupant(db.rows, slot).None? || Occupant(db.rows, slot).value == t {
      OnlyTargetInSlot(db, t, slot);
    } else {
      assert Occupies(db.rows, Occupant(db.rows, slot).value, slot);
    }
  }

  /**
   * A relocation is accepted exactly if it is allowed: known and active affiliates, a target
   * that is not the root, a sponsor and a place outside the moved subtree, the place below the
   * sponsor and free or the target's own, and something to change or only to preview.
   */
  lemma {:induction false} AcceptedIff(db: Db, req: Request, p: Plan)
    requires Consistent(db)
    ensures Decide(db, req) == Ok(p) <==> Allowed(db, req, p)
  {
    hide ChooseSlot, PlaceFor, Occupant, Consistent, Moved, Walk;
    if req.target.Some? && req.target.value in db.rows && req.sponsor.Some? && req.sponsor.value in db.rows {
      var t, s := req.target.value, req.sponsor.value;
      InSubtree(db, t, s);
      InSubtree(db, t, t);
      assert Below(LinksOf(db.rows), t, t) by { assert Anc(LinksOf(db.rows), t, 0) == Some(t); }
      if db.rows[t].link.Some? && s != t {
        PlaceIff(db, req, t, s, p.slot);
        HeldOnlyBy(db, t, p.slot);
      }
    }
    hide Below, LinksOf;
  }

  /* ----- What becomes of a row ----- */

  lemma {:induction false} AdjustedRow(rows: map<Id, Row>, legs: map<Id, Side>, count: int, pv: int, a: Id)
    requires a in rows
    ensures a in AdjustLegs(rows, legs, count, pv)
    ensures var r, r' := rows[a], AdjustLegs(rows, legs, count, pv)[a];
            && r'.totals.leftCurrent - r.totals.leftCurrent == r'.totals.leftPv - r.totals.leftPv
            && r'.totals.rightCurrent - r.totals.rightCurrent == r'.totals.rightPv - r.totals.rightPv
            && r' == r.(totals := r'.totals)
  {
  }

  // Current-cycle totals change by what the lifetime totals do.
  ghost predicate Together(t: Totals, t': Totals) {
    && t'.leftCurrent - t.leftCurrent == t'.leftPv - t.leftPv
    && t'.rightCurrent - t.rightCurrent == t'.rightPv - t.rightPv
  }

  lemma {:induction false} PlacedRow(db: Db, t: Id, sponsor: Id, slot: Slot, a: Id)
    requires t in db.rows && slot.parent in db.rows && a in db.rows
    ensures var placed := PlaceDescendants(db, PlaceRoot(db, t, sponsor, slot), t, slot);
            && a in placed && placed[a].totals == db.rows[a].totals && placed[a].active == db.rows[a].active
            && placed[a].link == (if a == t then Some(Link(slot.parent, slot.side)) else db.rows[a].link)
            && placed[a].sponsor == if a == t then Some(sponsor) else db.rows[a].sponsor
  {
    hide Moved, NewPath, Behind;
  }

  lemma {:induction false} MovedColumns(db: Db, t: Id, sponsor: Id, slot: Slot, a: Id)
    requires t in db.rows && slot.parent in db.rows && a in db.rows
    ensures a in Move(db, t, sponsor, slot).rows
    ensures var r, r' := db.rows[a], Move(db, t, sponsor, slot).rows[a];
            && r'.link == (if a == t then Some(Link(slot.parent, slot.side)) else r.link)
            && r'.sponsor == (if a == t then Some(sponsor) else r.sponsor)
            && r'.active == r.active && Together(r.totals, r'.totals)
  {
    hide PlaceRoot, PlaceDescendants, AdjustLegs, Moved, OldLegs, NewLegs, NewPath, SumPv, GraftClosure;
    PlacedKeys(db, t, sponsor, slot);
    PlacedRow(db, t, sponsor, slot, a);
    var placed := PlaceDescendants(db, PlaceRoot(db, t, sponsor, slot), t, slot);
    var count, pv := |Moved(db, t)|, SumPv(db.pv, Moved(db, t));
    AdjustedRow(placed, OldLegs(db, t), -count, -pv, a);
    AdjustedRow(AdjustLegs(placed, OldLegs(db, t), -count, -pv), NewLegs(db, slot.parent, NewPath(db, t, slot)),
                count, pv, a);
  }

  /**
   * After an applied relocation the target has its new sponsor and place; nobody else's link,
   * sponsor or status changes, and current-cycle totals follow the lifetime totals.
   */
  lemma {:induction false} RelocatedRow(db: Db, req: Request, a: Id)
    requires Consistent(db) && Decide(db, req).Ok? && a in db.rows
    ensures var p := Decide(db, req).value;
            && p.target in db.rows && p.slot.parent in db.rows && a in Applied(db, p).rows
            && var r, r' := db.rows[a], Applied(db, p).rows[a];
               && r'.link == (if a == p.target then Some(Link(p.slot.parent, p.slot.side)) else r.link)
               && r'.sponsor == (if a == p.target then Some(p.sponsor) else r.sponsor)
               && r'.active == r.active && Together(r.totals, r'.totals)
  {
    hide Decide, Consistent, Move, Moved;
    AcceptedPlanIsMovable(db, req);
    var p := Decide(db, req).value;
    if p.structureChanged {
      MovedColumns(db, p.target, p.sponsor, p.slot, a);
    } else {
      UnchangedSlot(db, req);
    }
  }

  /** A new affiliate stands where it was put, active and with empty legs; nobody else moves. */
  lemma {:induction false} EnrolledRow(db: Db, n: Id, sponsor: Id, slot: Slot, a: Id)
    requires slot.parent in db.rows && n !in db.rows
    ensures var rows := Insert(db, n, sponsor, slot).rows;
            && n in rows && rows[n].link == Some(Link(slot.parent, slot.side)) && rows[n].sponsor == Some(sponsor)
            && rows[n].active && rows[n].totals == Totals(0, 0, 0, 0, 0, 0)
            && (a in db.rows ==>
                  && a in rows && rows[a].link == db.rows[a].link && rows[a].sponsor == db.rows[a].sponsor
                  && rows[a].active == db.rows[a].active && Together(db.rows[a].totals, rows[a].totals))
  {
    hide Insert, NewLegs, NewPath, LeafClosure;
    InsertRow(db, n, sponsor, slot, n);
    if a in db.rows {
      InsertRow(db, n, sponsor, slot, a);
      AdjustKeeps(db.rows, NewLegs(db, slot.parent, NewPath(db, n, slot)), 1, 0, a);
      AdjustedRow(db.rows, NewLegs(db, slot.parent, NewPath(db, n, slot)), 1, 0, a);
    }
    hide AdjustLegs;
  }

  /** A purchase changes totals only, current-cycle and lifetime ones alike. */
  lemma {:induction false} CreditedRow(db: Db, d: Id, amount: int, a: Id)
    requires d in db.rows && a in db.rows
    ensures var after := Credit(db, d, amount);
            && after.rows.Keys == db.rows.Keys && after.closure == db.closure
            && after.pv == db.pv[d := (if d in db.pv then db.pv[d] else 0) + amount]
            && after.rows[a] == db.rows[a].(totals := after.rows[a].totals)
            && Together(db.rows[a].totals, after.rows[a].totals)
  {
    CreditRow(db, d, amount, a);
    AdjustedRow(db.rows, OldLegs(db, d), 0, amount, a);
    hide AdjustLegs, OldLegs;
  }

  /* ----- When an accepted relocation is committed ----- */

  /**
   * The checks pass exactly if the moved rows have their own closure entry at distance zero, no
   * affected total is negative, PV and counts of every affected leg are those of the affiliates
   * whose paths name it, and the target has a known ancestor.
   */
  lemma {:induction false} ChecksPassIff(db: Db, moved: set<Id>, affected: set<Id>, t: Id)
    ensures Integrity(db, moved, affected, t).None? <==>
              && (forall m :: m in moved ==> (m, m) in db.closure && db.closure[(m, m)] == 0)
              && (forall a :: a in affected && a in db.rows ==>
                    var r := db.rows[a].totals;
                    && 0 <= r.leftCount && 0 <= r.rightCount && 0 <= r.leftPv && 0 <= r.rightPv
                    && 0 <= r.leftCurrent && 0 <= r.rightCurrent
                    && r.leftPv == SumPv(db.pv, PathLeg(db, a, L)) && r.rightPv == SumPv(db.pv, PathLeg(db, a, R))
                    && r.leftCount == |PathLeg(db, a, L)| && r.rightCount == |PathLeg(db, a, R)|)
              && exists a :: a in db.rows && (a, t) in db.closure
  {
    hide PathLeg, SumPv;
  }

  // Every leg that loses the subtree still holds the subtree's PV in the current cycle.
  ghost predicate Covered(db: Db, t: Id, slot: Slot) {
    var links := LinksOf(db.rows);
    forall a, s ::
      && a in db.rows && InLeg(links, a, s, t)
      && !((a == slot.parent && s == slot.side) || InLeg(links, a, s, slot.parent)) ==>
        SumPv(db.pv, Subtree(links, t)) <=
        if s == L then db.rows[a].totals.leftCurrent else db.rows[a].totals.rightCurrent
  }

  lemma {:induction false} CoveredIff(db: Db, t: Id, slot: Slot)
    requires Consistent(db) && t in db.rows && slot.parent in db.rows
    ensures CoveredByCurrent(db, t, slot) <==> Covered(db, t, slot)
  {
    hide Consistent, InLeg, OldLegs, NewLegs, NewPath, Moved;
    MovedIsSubtree(db, t);
    var links := LinksOf(db.rows);
    var oldLegs, newLegs := OldLegs(db, t), NewLegs(db, slot.parent, NewPath(db, t, slot));
    OnlyRows(db, t);
    forall a, s: Side | a in db.rows
      ensures InLeg(links, a, s, t) <==> a in oldLegs && oldLegs[a] == s
      ensures (a == slot.parent && s == slot.side) || InLeg(links, a, s, slot.parent) <==>
              a in newLegs && newLegs[a] == s
    {
      OldLegsAreTrue(db, t, a, s);
      NewLegsAreTrue(db, t, slot, a, s);
    }
    if Covered(db, t, slot) {
      forall a | a in oldLegs && !(a in newLegs && newLegs[a] == oldLegs[a])
        ensures SumPv(db.pv, Moved(db, t)) <= CurrentOf(db.rows[a].totals, oldLegs[a])
      {
        assert InLeg(links, a, oldLegs[a], t);
      }
    }
  }

  lemma {:induction false} OnlyRows(db: Db, t: Id)
    requires t in db.rows
    ensures OldLegs(db, t).Keys <= db.rows.Keys
  {
  }

  /**
   * An accepted relocation that is no preview is committed if and only if it only changes the
   * sponsor or every leg losing the subtree still holds its PV in the current cycle; otherwise
   * it is answered with a negative aggregate, and nothing stays of it.
   */
  lemma {:induction false} CommittedIff(db: Db, req: Request, r: Result<Plan, RelocationError>, after: Db)
    requires Consistent(db) && EventsNonNegative(db) && CurrentNonNegative(db)
    requires Decide(db, req).Ok? && !req.dryRun && RelocationResult(db, req, r, after)
    ensures var p := Decide(db, req).value;
            && p.target in db.rows && p.slot.parent in db.rows
            && if !p.structureChanged || Covered(db, p.target, p.slot) then r == Ok(p) && after == Applied(db, p)
               else r == Err(NegativeAggregate) && after == db
  {
    hide Decide, Consistent, Move, Moved, Integrity, ClosureCheck, EventsNonNegative, CurrentNonNegative, Covered,
      CoveredByCurrent, Affected;
    AcceptedPlanIsMovable(db, req);
    var p := Decide(db, req).value;
    if p.structureChanged {
      MovePassesChecksIff(db, p.target, p.sponsor, p.slot);
      CoveredIff(db, p.target, p.slot);
    } else {
      MovedAreRows(db, p.target);
      ClosureCheckPasses(db, Moved(db, p.target));
    }
  }
}
