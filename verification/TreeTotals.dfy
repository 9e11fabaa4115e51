/** Leg totals after a move, and the move as a whole. */
module TreeTotals {
  import opened Prelude
  import opened TreeModel
  import opened TreeTables
  import opened TreeMove

  /* ----- The captured legs name the true legs ----- */

  lemma {:induction false} OldLegsAreTrue(db: Db, t: Id, a: Id, s: Side)
    requires Consistent(db) && t in db.rows && a in db.rows
    ensures InLeg(LinksOf(db.rows), a, s, t) <==> a in OldLegs(db, t) && OldLegs(db, t)[a] == s
  {
    var links := LinksOf(db.rows);
    if InLeg(links, a, s, t) {
      OldLegListed(db, t, a, s);
    } else if a in OldLegs(db, t) {
      EntriesAreBelow(db, a, t);
      LegsPartition(links, DepthOf(db.rows), a, t);
      OldLegListed(db, t, a, if s == L then R else L);
    }
  }

  lemma {:induction false} OldLegListed(db: Db, t: Id, a: Id, s: Side)
    requires Consistent(db) && t in db.rows && a in db.rows && InLeg(LinksOf(db.rows), a, s, t)
    ensures a in OldLegs(db, t) && OldLegs(db, t)[a] == s
  {
    hide Shaped, PathsExact, ClosureExact, TotalsExact;
    var links := LinksOf(db.rows);
    InLegIsBelow(links, a, s, t);
    PathNamesLeg(db.rows, a, t, s);
    var k: nat :| InLegAt(links, a, s, t, k);
    AncCompose(links, t, k, 1);
    var c := Anc(links, t, k).value;
    assert Anc(links, c, 1) == Some(a) by { assert Anc(links, a, 0) == Some(a); }
    DistanceIsEntry(db, a, t, k + 1);
  }

  lemma {:induction false} NewLegListed(db: Db, t: Id, slot: Slot, a: Id, s: Side)
    requires Consistent(db) && slot.parent in db.rows && a in db.rows
    requires (a == slot.parent && s == slot.side) || InLeg(LinksOf(db.rows), a, s, slot.parent)
    ensures var legs := NewLegs(db, slot.parent, NewPath(db, t, slot));
            a in legs && legs[a] == s
  {
    hide Shaped, PathsExact, ClosureExact, TotalsExact, SideAt;
    var links := LinksOf(db.rows);
    var p := slot.parent;
    PathLength(db.rows, p);
    if InLeg(links, a, s, p) {
      InLegIsBelow(links, a, s, p);
      PathNamesLeg(db.rows, a, p, s);
    } else {
      assert Anc(links, p, 0) == Some(p);
    }
    ClosureMeansBelow(db, a, p);
    DepthBounds(db, a);
    AppendKeeps(db.rows[p].path, SideLabel(slot.side, t), db.rows[a].depth + 1);
  }

  lemma {:induction false} AppendKeeps(path: seq<Label>, step: Label, i: int)
    ensures 0 <= i < |path| ==> SideAt(path + [step], i) == SideAt(path, i)
    ensures i == |path| && step.SideLabel? ==> SideAt(path + [step], i) == step.side
  {
  }

  lemma {:induction false} NewLegsAreTrue(db: Db, t: Id, slot: Slot, a: Id, s: Side)
    requires Consistent(db) && slot.parent in db.rows && a in db.rows
    ensures var legs := NewLegs(db, slot.parent, NewPath(db, t, slot));
            (a == slot.parent && s == slot.side) || InLeg(LinksOf(db.rows), a, s, slot.parent)
            <==> a in legs && legs[a] == s
  {
    var links := LinksOf(db.rows);
    var legs := NewLegs(db, slot.parent, NewPath(db, t, slot));
    if (a == slot.parent && s == slot.side) || InLeg(links, a, s, slot.parent) {
      NewLegListed(db, t, slot, a, s);
    } else if a in legs {
      EntriesAreBelow(db, a, slot.parent);
      var s' := if s == L then R else L;
      if a != slot.parent { LegsPartition(links, DepthOf(db.rows), a, slot.parent); }
      NewLegListed(db, t, slot, a, s');
    }
  }

  /* ----- How a leg changes ----- */

  lemma {:induction false} MemberOfOutsiderLeg(db: Db, t: Id, slot: Slot, a: Id, s: Side, d: Id)
    requires Movable(db, t, slot) && a in db.rows && a !in Moved(db, t) && d in db.rows
    ensures var links := LinksOf(db.rows);
            var links' := Relink(links, t, slot.parent, slot.side);
            if d in Moved(db, t) then
              && (InLeg(links, a, s, d) <==> InLeg(links, a, s, t))
              && (InLeg(links', a, s, d) <==> (a == slot.parent && s == slot.side) || InLeg(links, a, s, slot.parent))
            else
              InLeg(links', a, s, d) <==> InLeg(links, a, s, d)
  {
    hide Moved, Shaped, PathsExact, ClosureExact, TotalsExact, InLeg;
    var links := LinksOf(db.rows);
    MovedIsSubtree(db, t);
    DepthsAreRanked(db);
    if d in Moved(db, t) {
      var j: nat :| Anc(links, d, j) == Some(t);
      LegOfMovedBefore(links, t, a, s, d, j);
      LegOfMovedAfter(links, DepthOf(db.rows), t, slot.parent, slot.side, a, s, d, j);
    } else {
      LegOutside(links, t, slot.parent, slot.side, a, s, d);
    }
  }

  // Seen from an ancestor outside the subtree: unmoved nodes stay, the moved ones leave the
  // old leg and enter the new one.
  lemma {:induction false} LegOfOutsider(db: Db, t: Id, slot: Slot, a: Id, s: Side)
    requires Movable(db, t, slot) && a in db.rows && a !in Moved(db, t)
    ensures var links := LinksOf(db.rows);
            var m := Moved(db, t);
            && (if InLeg(links, a, s, t) then m <= Leg(links, a, s) else m !! Leg(links, a, s))
            && Leg(Relink(links, t, slot.parent, slot.side), a, s) ==
               (Leg(links, a, s) - m)
               + if (a == slot.parent && s == slot.side) || InLeg(links, a, s, slot.parent) then m else {}
  {
    hide InLeg, Consistent;
    forall d | d in db.rows
      ensures var links := LinksOf(db.rows);
              var links' := Relink(links, t, slot.parent, slot.side);
              if d in Moved(db, t) then
                && (InLeg(links, a, s, d) <==> InLeg(links, a, s, t))
                && (InLeg(links', a, s, d) <==> (a == slot.parent && s == slot.side) || InLeg(links, a, s, slot.parent))
              else
                InLeg(links', a, s, d) <==> InLeg(links, a, s, d)
    {
      MemberOfOutsiderLeg(db, t, slot, a, s, d);
    }
  }

  lemma {:induction false} InsiderIsNotListed(db: Db, t: Id, slot: Slot, a: Id)
    requires Movable(db, t, slot) && a in Moved(db, t)
    ensures a !in OldLegs(db, t) && a !in NewLegs(db, slot.parent, NewPath(db, t, slot))
  {
    hide Shaped, PathsExact, ClosureExact, TotalsExact, NewPath, SideAt;
    MovedIsSubtree(db, t);
    if (a, t) in db.closure {
      EntriesAreBelow(db, a, t);
      MovedDepth(db, t, a);
    }
    if (a, slot.parent) in db.closure {
      EntriesAreBelow(db, a, slot.parent);
      NotBelowAbove(LinksOf(db.rows), t, slot.parent, a);
    }
  }

  lemma {:induction false} LegOfInsider(db: Db, t: Id, slot: Slot, a: Id, s: Side)
    requires Movable(db, t, slot) && a in Moved(db, t)
    ensures Leg(Relink(LinksOf(db.rows), t, slot.parent, slot.side), a, s) == Leg(LinksOf(db.rows), a, s)
  {
    hide Shaped, PathsExact, ClosureExact, TotalsExact, InLeg;
    var links := LinksOf(db.rows);
    MovedIsSubtree(db, t);
    DepthsAreRanked(db);
    forall d | d in db.rows
      ensures InLeg(Relink(links, t, slot.parent, slot.side), a, s, d) <==> InLeg(links, a, s, d)
    {
      LegInside(links, DepthOf(db.rows), t, slot.parent, slot.side, a, s, d);
    }
  }

  function If(b: bool, x: int): int { if b then x else 0 }

  lemma {:induction false} SetDelta(pv: map<Id, int>, leg: set<Id>, leg': set<Id>, m: set<Id>, was: bool, now: bool)
    requires if was then m <= leg else m !! leg
    requires leg' == (leg - m) + if now then m else {}
    ensures |leg'| == |leg| - If(was, |m|) + If(now, |m|)
    ensures SumPv(pv, leg') == SumPv(pv, leg) - If(was, SumPv(pv, m)) + If(now, SumPv(pv, m))
  {
    var rest := leg - m;
    if was {
      assert leg == rest + m;
      SumPvUnion(pv, rest, m);
    } else {
      assert leg == rest;
    }
    if now {
      SumPvUnion(pv, rest, m);
    } else {
      assert leg' == rest;
    }
  }

  // By how much one leg of any node changes.
  lemma {:induction false} LegDelta(db: Db, t: Id, slot: Slot, a: Id, s: Side)
    requires Movable(db, t, slot) && a in db.rows
    ensures var links := LinksOf(db.rows);
            var leg' := Leg(Relink(links, t, slot.parent, slot.side), a, s);
            var oldLegs, newLegs := OldLegs(db, t), NewLegs(db, slot.parent, NewPath(db, t, slot));
            var m := Moved(db, t);
            var was, now := a in oldLegs && oldLegs[a] == s, a in newLegs && newLegs[a] == s;
            && |leg'| == |Leg(links, a, s)| - If(was, |m|) + If(now, |m|)
            && SumPv(db.pv, leg') ==
               SumPv(db.pv, Leg(links, a, s)) - If(was, SumPv(db.pv, m)) + If(now, SumPv(db.pv, m))
  {
    hide Moved, OldLegs, NewLegs, Leg, NewPath, Shaped, PathsExact, ClosureExact, TotalsExact, Relink, SumPv;
    var links := LinksOf(db.rows);
    if a in Moved(db, t) {
      LegOfInsider(db, t, slot, a, s);
      InsiderIsNotListed(db, t, slot, a);
    } else {
      LegOfOutsider(db, t, slot, a, s);
      OldLegsAreTrue(db, t, a, s);
      NewLegsAreTrue(db, t, slot, a, s);
      SetDelta(db.pv, Leg(links, a, s), Leg(Relink(links, t, slot.parent, slot.side), a, s), Moved(db, t),
               InLeg(links, a, s, t), (a == slot.parent && s == slot.side) || InLeg(links, a, s, slot.parent));
    }
  }

  // The totals of one row after both adjustments.
  function TotalsAfter(
      totals: Totals, oldLegs: map<Id, Side>, newLegs: map<Id, Side>, a: Id, count: int, pv: int): Totals {
    var removed := if a in oldLegs then AddToLeg(totals, oldLegs[a], -count, -pv) else totals;
    if a in newLegs then AddToLeg(removed, newLegs[a], count, pv) else removed
  }

  lemma {:induction false} MovedTotals(db: Db, t: Id, sponsor: Id, slot: Slot, a: Id)
    requires t in db.rows && slot.parent in db.rows && a in db.rows
    ensures Move(db, t, sponsor, slot).rows.Keys == db.rows.Keys
    ensures Move(db, t, sponsor, slot).rows[a].totals ==
            TotalsAfter(db.rows[a].totals, OldLegs(db, t), NewLegs(db, slot.parent, NewPath(db, t, slot)),
                        a, |Moved(db, t)|, SumPv(db.pv, Moved(db, t)))
  {
    hide PlaceDescendants, PlaceRoot, AdjustLegs, Moved, OldLegs, NewLegs, NewPath, SumPv, GraftClosure, AddToLeg;
    PlacedKeys(db, t, sponsor, slot);
    PlacedTotals(db, t, sponsor, slot, a);
    var placed := PlaceDescendants(db, PlaceRoot(db, t, sponsor, slot), t, slot);
    var count, pv := |Moved(db, t)|, SumPv(db.pv, Moved(db, t));
    AdjustKeeps(placed, OldLegs(db, t), -count, -pv, a);
    AdjustKeeps(AdjustLegs(placed, OldLegs(db, t), -count, -pv),
                NewLegs(db, slot.parent, NewPath(db, t, slot)), count, pv, a);
  }

  lemma {:induction false} PlacedTotals(db: Db, t: Id, sponsor: Id, slot: Slot, a: Id)
    requires t in db.rows && slot.parent in db.rows && a in db.rows
    ensures var placed := PlaceDescendants(db, PlaceRoot(db, t, sponsor, slot), t, slot);
            a in placed && placed[a].totals == db.rows[a].totals
  {
    hide Moved, NewPath, Behind;
  }

  lemma {:induction false} TotalsAfterMove(db: Db, t: Id, sponsor: Id, slot: Slot, a: Id)
    requires Movable(db, t, slot) && a in db.rows
    ensures Move(db, t, sponsor, slot).rows.Keys == db.rows.Keys
    ensures TotalsExactFor(Relink(LinksOf(db.rows), t, slot.parent, slot.side), db.pv, a,
                           Move(db, t, sponsor, slot).rows[a].totals)
  {
    hide Move, Moved, OldLegs, NewLegs, Leg, NewPath, Consistent, Relink, SumPv;
    TotalsOf(db, a);
    MovedTotals(db, t, sponsor, slot, a);
    LegDelta(db, t, slot, a, L);
    LegDelta(db, t, slot, a, R);
  }

  lemma {:induction false} TotalsOf(db: Db, a: Id)
    requires Consistent(db) && a in db.rows
    ensures TotalsExactFor(LinksOf(db.rows), db.pv, a, db.rows[a].totals)
  {
    hide Shaped, PathsExact, ClosureExact, TotalsExactFor;
  }

  /**
   * After a move every derived column is what recomputation from the new parent map gives:
   * depths, paths, closure with exact distances, and the counts and PV of every leg. The new
   * parent map is acyclic with at most one child per slot.
   */
  lemma {:induction false} MoveKeepsConsistent(db: Db, t: Id, sponsor: Id, slot: Slot)
    requires Movable(db, t, slot)
    ensures Consistent(Move(db, t, sponsor, slot))
    ensures LinksOf(Move(db, t, sponsor, slot).rows) == Relink(LinksOf(db.rows), t, slot.parent, slot.side)
    ensures Move(db, t, sponsor, slot).pv == db.pv
  {
    var after := Move(db, t, sponsor, slot);
    assert after.closure == GraftClosure(db, t, slot.parent) && after.pv == db.pv;
    hide Move;
    MoveRelinks(db, t, sponsor, slot);
    MoveKeepsShape(db, t, sponsor, slot);
    MoveKeepsPaths(db, t, sponsor, slot);
    MoveKeepsClosure(db, t, slot);
    forall a | a in after.rows
      ensures TotalsExactFor(LinksOf(after.rows), after.pv, a, after.rows[a].totals)
    {
      TotalsAfterMove(db, t, sponsor, slot, a);
    }
  }
}
