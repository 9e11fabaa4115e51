/**
 * Once a cycle reset lets the current-cycle columns fall behind the lifetime ones, a move that
 * meets every rule can still be turned down by the negative-total check. The smallest case:
 * a root, one child with PV, and the child moved to the other side.
 */
module TreeCycleReset {
  import opened Prelude
  import opened TreeModel
  import opened TreeTables
  import opened TreeMove
  import opened TreeTotals
  import opened TreeGrowth
  import opened TreeRelocation

  const ROOT: Db := Db(map[1 := Row(None, None, [RootLabel(1)], 0, NO_TOTALS, true)], map[(1, 1) := 0], map[])

  // A new cycle: the current columns of one row start again from zero.
  function ResetCurrent(db: Db, a: Id): Db
    requires a in db.rows
  {
    Db(db.rows[a := db.rows[a].(totals := db.rows[a].totals.(leftCurrent := 0, rightCurrent := 0))],
       db.closure, db.pv)
  }

  lemma {:induction false} ResetKeepsConsistent(db: Db, a: Id)
    requires Consistent(db) && a in db.rows
    ensures Consistent(ResetCurrent(db, a))
  {
    hide Shaped, PathsExact, ClosureExact, TotalsExact;
    var after := ResetCurrent(db, a);
    assert LinksOf(after.rows) == LinksOf(db.rows) && DepthOf(after.rows) == DepthOf(db.rows);
    forall d | d in db.rows
      ensures TotalsExactFor(LinksOf(after.rows), after.pv, d, after.rows[d].totals)
    {
      TotalsOf(db, d);
    }
    SameStructure(db.rows, after.rows);
    ConsistentFromParts(after, LinksOf(db.rows));
  }

  lemma {:induction false} RootIsConsistent()
    ensures Consistent(ROOT)
  {
    var links := LinksOf(ROOT.rows);
    assert links == map[1 := None];
    forall d, k: nat | d in links && Anc(links, d, k).Some? ensures d == 1 && k == 0 {
      assert Up(links, 1).None?;
    }
    forall s: Side, d | d in links ensures !InLeg(links, 1, s, d) {
      forall k: nat ensures !InLegAt(links, 1, s, d, k) {
      }
    }
    assert Leg(links, 1, L) == {} && Leg(links, 1, R) == {};
  }

  // Root 1 with child 2 on the left, which has bought 10 PV, after a cycle reset.
  function ResetTree(): Db {
    ResetCurrent(Credit(Insert(ROOT, 2, 1, Slot(1, L)), 2, 10), 1)
  }

  lemma {:induction false} FirstChildClosure()
    ensures LeafClosure(ROOT, 2, 1) == map[(1, 1) := 0, (1, 2) := 1, (2, 2) := 0]
  {
    var inherited := map a | a in ROOT.rows && (a, 1) in ROOT.closure :: (a, 2) := ROOT.closure[(a, 1)] + 1;
    assert inherited == map[(1, 2) := 1];
  }

  lemma {:induction false} FirstChildRow()
    ensures LeafRow(ROOT, 2, 1, Slot(1, L)) ==
            Row(Some(Link(1, L)), Some(1), [RootLabel(1), SideLabel(L, 2)], 1, NO_TOTALS, true)
  {
  }

  lemma {:induction false} FirstChild()
    ensures var db := Insert(ROOT, 2, 1, Slot(1, L));
            && db.rows.Keys == {1, 2} && db.closure == map[(1, 1) := 0, (1, 2) := 1, (2, 2) := 0] && db.pv == map[]
            && db.rows[2] == Row(Some(Link(1, L)), Some(1), [RootLabel(1), SideLabel(L, 2)], 1, NO_TOTALS, true)
            && db.rows[1] == ROOT.rows[1].(totals := db.rows[1].totals)
  {
    hide LeafClosure, AdjustLegs, NewLegs, LeafRow, NewPath, AddToLeg;
    FirstChildClosure();
    FirstChildRow();
    InsertRow(ROOT, 2, 1, Slot(1, L), 2);
    InsertRow(ROOT, 2, 1, Slot(1, L), 1);
  }

  lemma {:induction false} NoOtherTotals(db: Db)
    requires db.rows.Keys == {1, 2} && db.closure == map[(1, 1) := 0, (1, 2) := 1, (2, 2) := 0]
    ensures 2 !in OldLegs(db, 2)
  {
  }

  lemma {:induction false} CreditParts(db: Db, d: Id, amount: int)
    requires d in db.rows
    ensures Credit(db, d, amount).closure == db.closure
    ensures Credit(db, d, amount).pv == db.pv[d := OwnPv(db.pv, d) + amount]
  {
  }

  lemma {:induction false} ResetTreeIs()
    ensures var db := ResetTree();
            && db.rows.Keys == {1, 2} && db.closure == map[(1, 1) := 0, (1, 2) := 1, (2, 2) := 0]
               && db.pv == map[2 := 10]
            && db.rows[2].link == Some(Link(1, L)) && db.rows[2].path == [RootLabel(1), SideLabel(L, 2)]
            && db.rows[1].link.None? && db.rows[1].depth == 0 && db.rows[1].path == [RootLabel(1)]
            && db.rows[1].totals.leftCurrent == 0 && db.rows[1].totals.rightCurrent == 0
            && db.rows[2].totals == NO_TOTALS
  {
    hide Insert, Credit, OldLegs, AddToLeg;
    var one := Insert(ROOT, 2, 1, Slot(1, L));
    FirstChild();
    NoOtherTotals(one);
    CreditParts(one, 2, 10);
    CreditRow(one, 2, 10, 1);
    CreditRow(one, 2, 10, 2);
  }

  lemma {:induction false} ResetTreeIsConsistent()
    ensures Consistent(ResetTree())
  {
    hide Consistent, Insert, Credit;
    RootIsConsistent();
    InsertKeepsConsistent(ROOT, 2, 1, Slot(1, L));
    InsertRow(ROOT, 2, 1, Slot(1, L), 2);
    CreditKeepsConsistent(Insert(ROOT, 2, 1, Slot(1, L)), 2, 10);
    CreditRow(Insert(ROOT, 2, 1, Slot(1, L)), 2, 10, 1);
    ResetKeepsConsistent(Credit(Insert(ROOT, 2, 1, Slot(1, L)), 2, 10), 1);
  }

  lemma {:induction false} MoveAfterResetIsRefused()
    ensures var db := ResetTree();
            && Movable(db, 2, Slot(1, R)) && EventsNonNegative(db) && CurrentNonNegative(db)
            && Integrity(Move(db, 2, 1, Slot(1, R)), Moved(db, 2), Affected(db, 2, Slot(1, R)), 2) ==
               Some(NegativeAggregate)
  {
    hide Consistent, Integrity, Move, ResetTree;
    ResetTreeIs();
    ResetTreeIsConsistent();
    var db := ResetTree();
    assert Moved(db, 2) == {2};
    SumPvRemove(db.pv, {2}, 2);
    assert {2} - {2} == {};
    assert OldLegs(db, 2) == map[1 := L];
    assert NewLegs(db, 1, NewPath(db, 2, Slot(1, R))) == map[1 := R];
    MovePassesChecksIff(db, 2, 1, Slot(1, R));
  }
}
