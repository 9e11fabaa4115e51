/**
 * A placement that misses its sponsor: root 1, 2 on its left, 3 on the left of 2. Affiliate 4 is
 * to go below sponsor 2; its walk ends on the left of 3. Before its insert 3 is relocated to the
 * right of the root, by the rules. Then 4 is below 3, and not below 2.
 */
module TreeLostPlace {
  import opened Prelude
  import opened TreeModel
  import opened TreeTables
  import opened TreeMove
  import opened TreeGrowth
  import opened TreeRelocation
  import opened TreeStore
  import opened TreePlacement
  import opened TreeRuns
  import opened TreeCycleReset

  function Pair(): Db { Insert(ROOT, 2, 1, Slot(1, L)) }

  function Chain(): Db
  {
    ChainIsThere();
    Insert(Pair(), 3, 2, Slot(2, L))
  }

  lemma {:induction false} ChainIsThere()
    ensures 2 in Pair().rows && 3 !in Pair().rows
  {
    FirstChild();
    hide Insert;
  }

  const TO_ROOT := Request(Some(3), Some(1), Some(1), Some(R), false)

  const OVER := Slot(1, R)

  lemma {:induction false} RootIsHealthy()
    ensures Consistent(ROOT) && InStep(ROOT) && EventsNonNegative(ROOT)
  {
    RootIsConsistent();
    hide Consistent;
  }

  lemma {:induction false} ChainRows()
    ensures var db := Chain();
            && db.rows.Keys == {1, 2, 3} && db.pv == map[]
            && db.rows[1].link.None? && db.rows[2].link == Some(Link(1, L)) && db.rows[3].link == Some(Link(2, L))
            && db.rows[1].active && db.rows[3].active && db.rows[3].sponsor == Some(2)
  {
    hide LeafClosure, AdjustLegs, NewLegs, NewPath, AddToLeg, Insert;
    ChainIsThere();
    FirstChild();
    InsertRow(Pair(), 3, 2, Slot(2, L), 1);
    InsertRow(Pair(), 3, 2, Slot(2, L), 2);
    InsertRow(Pair(), 3, 2, Slot(2, L), 3);
    InsertParts(Pair(), 3, 2, Slot(2, L));
  }

  lemma {:induction false} ChainIsHealthy()
    ensures Healthy(Chain())
  {
    hide Consistent, InStep, Insert;
    RootIsHealthy();
    ChainIsThere();
    FirstChild();
    InsertKeepsConsistent(ROOT, 2, 1, Slot(1, L));
    InsertKeepsInStep(ROOT, 2, 1, Slot(1, L));
    InsertKeepsConsistent(Pair(), 3, 2, Slot(2, L));
    InsertKeepsInStep(Pair(), 3, 2, Slot(2, L));
    InsertParts(Pair(), 3, 2, Slot(2, L));
  }

  // The shape of such a tree.
  ghost predicate IsChain(db: Db) {
    && Healthy(db) && db.rows.Keys == {1, 2, 3}
    && db.rows[1].link.None? && db.rows[2].link == Some(Link(1, L)) && db.rows[3].link == Some(Link(2, L))
    && db.rows[1].active && db.rows[3].active && db.rows[3].sponsor == Some(2)
  }

  lemma {:induction false} ChainIs()
    ensures IsChain(Chain())
  {
    ChainRows();
    ChainIsHealthy();
    hide Chain, Healthy;
  }

  // The walk from 2 down the left ends below 3.
  lemma {:induction false} WalkEnds(db: Db)
    requires IsChain(db)
    ensures Walk(db.rows, 2, Some(L), MAX_WALK) == Slot(3, L)
  {
    hide Healthy;
    var rows := db.rows;
    assert Occupies(rows, 3, Slot(2, L));
    assert Occupant(rows, Slot(2, L)) == Some(3);
    assert Occupant(rows, Slot(3, L)).None?;
    assert Walk(rows, 3, Some(L), MAX_WALK - 1) == Slot(3, L);
  }

  lemma {:induction false} LinksInChain(rows: map<Id, Row>)
    requires rows.Keys == {1, 2, 3}
    requires rows[1].link.None? && rows[2].link == Some(Link(1, L)) && rows[3].link == Some(Link(2, L))
    ensures var links := LinksOf(rows);
            !Below(links, 3, 1) && !Below(links, 3, 2) && Below(links, 3, 3) && !Below(links, 2, 1)
  {
    var links := LinksOf(rows);
    assert Up(links, 1).None? && Up(links, 2) == Some(1);
    forall k: nat ensures Anc(links, 1, k) == if k == 0 then Some(1) else None { }
    forall k: nat ensures Anc(links, 2, k) == if k == 0 then Some(2) else Anc(links, 1, k - 1) { }
    assert Anc(links, 3, 0) == Some(3);
  }

  // Only 3 itself is below 3, and the root is below nobody else.
  lemma {:induction false} BelowInChain(db: Db)
    requires IsChain(db)
    ensures Moved(db, 3) == {3} && !Below(LinksOf(db.rows), 2, 1)
  {
    hide Consistent, InStep, EventsNonNegative, Below, Moved;
    LinksInChain(db.rows);
    BelowIsMoved(db, 3, 1);
    BelowIsMoved(db, 3, 2);
    BelowIsMoved(db, 3, 3);
    assert Moved(db, 3) <= db.rows.Keys by { MovedAreRows(db, 3); }
  }

  // Relocating 3 to the right of the root is something the rules allow.
  lemma {:induction false} MoveIsAccepted(db: Db)
    requires IsChain(db)
    ensures Decide(db, TO_ROOT) == Ok(Plan(3, 1, OVER, true, true))
  {
    hide Consistent, InStep, EventsNonNegative, Moved, ClosureExact, Walk, Below;
    BelowInChain(db);
    ClosureOf(db);
    ClosureMeansBelow(db, 1, 1);
    RootIsBelowItself(LinksOf(db.rows));
    assert Occupant(db.rows, OVER).None?;
    hide Occupant;
  }

  lemma {:induction false} RootIsBelowItself(links: Links)
    ensures Below(links, 1, 1)
  {
    assert Anc(links, 1, 0) == Some(1);
  }

  lemma {:induction false} ClosureOf(db: Db)
    requires Consistent(db)
    ensures ClosureExact(LinksOf(db.rows), db.closure)
  {
    hide ClosureExact;
  }

  // ... and does.
  lemma {:induction false} RelocationHappens(db: Db) returns (found: Db)
    requires IsChain(db)
    ensures Movable(db, 3, OVER) && found == Move(db, 3, 1, OVER)
    ensures RelocationResult(db, TO_ROOT, Ok(Plan(3, 1, OVER, true, true)), found)
    ensures Healthy(found) && found.rows.Keys == {1, 2, 3}
    ensures found.rows[1].link.None? && found.rows[2].link == Some(Link(1, L)) && found.rows[3].link == Some(Link(1, R))
  {
    hide Consistent, InStep, Decide, Move, Check, Movable;
    MoveIsAccepted(db);
    InStepPlanPasses(db, TO_ROOT);
    AppliedIsConsistent(db, TO_ROOT);
    MoveRelinks(db, 3, 1, OVER);
    found := Move(db, 3, 1, OVER);
    forall d | d in db.rows ensures found.rows[d].link == LinksOf(found.rows)[d] { }
  }

  function Attempts(db: Db, found: Db): (attempts: seq<Attempt>)
    ensures |attempts| == MAX_ATTEMPTS && attempts[0] == Attempt(db, found)
    ensures forall k :: 1 <= k < MAX_ATTEMPTS ==> attempts[k] == Attempt(found, found)
  {
    [Attempt(db, found)] + seq(15, _ => Attempt(found, found))
  }

  lemma {:induction false} OthersMayDoThis(db: Db, found: Db)
    requires Healthy(db) && Healthy(found) && db.rows.Keys == found.rows.Keys == {1, 2, 3}
    ensures Races(db, Attempts(db, found), 4)
  {
    hide Consistent, InStep, EventsNonNegative, Attempts;
    assert Interferes(db, db, 4) && Interferes(db, found, 4) && Interferes(found, found, 4);
    hide Interferes;
  }

  lemma {:induction false} MissesSponsor(db: Db, found: Db) returns (after: Db)
    requires IsChain(db) && Movable(db, 3, OVER) && found == Move(db, 3, 1, OVER)
    requires Healthy(found) && found.rows.Keys == {1, 2, 3}
    requires found.rows[1].link.None?
    requires found.rows[2].link == Some(Link(1, L)) && found.rows[3].link == Some(Link(1, R))
    ensures Won(Attempt(db, found), 4, 2, Some(L), Slot(3, L), after) && !Below(LinksOf(after.rows), 2, 4)
  {
    hide Walk, Below, Movable, Consistent, InStep, EventsNonNegative, Moved, Move, Insert;
    WalkEnds(db);
    BelowInChain(db);
    assert SlotFree(found.rows, Slot(3, L));
    hide SlotFree;
    OneMoveIff(db, 3, 1, OVER, 4, 2, Some(L));
    InsertedBelow(found, 4, 2, Slot(3, L));
    after := Insert(found, 4, 2, Slot(3, L));
  }

  /**
   * A history of one enrolment, answered with a place, during which another transaction makes a
   * relocation that the rules allow: the new affiliate is not below its sponsor.
   */
  lemma {:induction false} PlacementMissesSponsor() returns (run: seq<Db>, e: Event)
    ensures IsHistory(run, [e]) && e.Enrolls? && e.placed.Ok? && e.sponsor in run[0].rows
    ensures WonBy(e, 0, run[1]) && e.attempts[0].walked == run[0]
    ensures exists plan :: RelocationResult(run[0], TO_ROOT, Ok(plan), e.attempts[0].found)
    ensures !Below(LinksOf(run[1].rows), e.sponsor, e.id)
  {
    hide Chain, Consistent, InStep, EventsNonNegative, Won, Races, Below, RelocationResult, Attempts, Movable, Move;
    ChainIs();
    var db := Chain();
    var found := RelocationHappens(db);
    OthersMayDoThis(db, found);
    var after := MissesSponsor(db, found);
    run, e := [db, after], Enrolls(4, 2, Some(L), Attempts(db, found), Ok(Slot(3, L)));
    assert WonBy(e, 0, after);
    assert Happens(db, e, after);
  }
}
