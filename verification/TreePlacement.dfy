/**
 * Where a placement ends up while others place, buy and move: below its sponsor, unless a move
 * carried the chosen slot away from the sponsor.
 */
module TreePlacement {
  import opened Prelude
  import opened TreeModel
  import opened TreeTables
  import opened TreeMove
  import opened TreeTotals
  import opened TreeGrowth
  import opened TreeRelocation
  import opened TreeStore

  // What others commit.
  datatype Change =
    | Places(id: Id, under: Id, slot: Slot)
    | Buys(buyer: Id, amount: int)
    | Moves(target: Id, mover: Id, to: Slot)

  ghost predicate Changes(db: Db, c: Change, after: Db) {
    match c
    case Places(id, under, slot) => Insertable(db, id, slot) && after == Insert(db, id, under, slot)
    case Buys(buyer, amount) => Consistent(db) && buyer in db.rows && after == Credit(db, buyer, amount)
    case Moves(target, mover, to) => Movable(db, target, to) && after == Move(db, target, mover, to)
  }

  // The change moves d and leaves a behind.
  ghost predicate Carries(db: Db, c: Change, a: Id, d: Id) {
    c.Moves? && d in Moved(db, c.target) && a !in Moved(db, c.target)
  }

  /* ----- Who is below whom after a change ----- */

  lemma {:induction false} MovedTogether(
      links: Links, depth: map<Id, int>, t: Id, p: Id, side: Side, a: Id, d: Id)
    requires Ranked(links, depth) && d in links && !Below(links, t, p)
    requires Below(links, t, d) && Below(links, t, a)
    ensures Below(Relink(links, t, p, side), a, d) <==> Below(links, a, d)
  {
    var links' := Relink(links, t, p, side);
    var j: nat :| Anc(links, d, j) == Some(t);
    if Below(links, a, d) {
      var k: nat :| Anc(links, d, k) == Some(a);
      var m: nat :| Anc(links, a, m) == Some(t);
      AncCompose(links, d, k, m);
      DistanceIsUnique(links, depth, d, j, k + m);
      RelinkInside(links, depth, t, p, side, d, j, k);
    }
    if Below(links', a, d) {
      var k: nat :| Anc(links', d, k) == Some(a);
      if k <= j {
        RelinkInside(links, depth, t, p, side, d, j, k);
      } else {
        RelinkAbove(links, depth, t, p, side, d, j, k - j - 1);
        assert Below(links, a, p);
        BelowIsTransitive(links, t, a, p);
        assert false;
      }
    }
  }

  lemma {:induction false} MovedAway(
      links: Links, depth: map<Id, int>, t: Id, p: Id, side: Side, a: Id, d: Id)
    requires Ranked(links, depth) && d in links && !Below(links, t, p)
    requires Below(links, t, d) && !Below(links, t, a)
    ensures Below(Relink(links, t, p, side), a, d) <==> Below(links, a, p)
  {
    var links' := Relink(links, t, p, side);
    var j: nat :| Anc(links, d, j) == Some(t);
    if Below(links', a, d) {
      var k: nat :| Anc(links', d, k) == Some(a);
      if k <= j {
        RelinkInside(links, depth, t, p, side, d, j, k);
        AncCompose(links, d, k, j - k);
      } else {
        RelinkAbove(links, depth, t, p, side, d, j, k - j - 1);
      }
    }
    if Below(links, a, p) {
      var i: nat :| Anc(links, p, i) == Some(a);
      RelinkAbove(links, depth, t, p, side, d, j, i);
    }
  }

  lemma {:induction false} NotMoved(links: Links, t: Id, p: Id, side: Side, a: Id, d: Id)
    requires !Below(links, t, d)
    ensures Below(Relink(links, t, p, side), a, d) <==> Below(links, a, d)
  {
    var links' := Relink(links, t, p, side);
    if Below(links, a, d) {
      var k: nat :| Anc(links, d, k) == Some(a);
      RelinkOutside(links, t, p, side, d, k);
    }
    if Below(links', a, d) {
      var k: nat :| Anc(links', d, k) == Some(a);
      RelinkOutside(links, t, p, side, d, k);
    }
  }

  lemma {:induction false} BelowIsMoved(db: Db, t: Id, d: Id)
    requires Consistent(db) && t in db.rows && d in db.rows
    ensures d in Moved(db, t) <==> Below(LinksOf(db.rows), t, d)
  {
    MovedIsSubtree(db, t);
    hide Consistent, Moved, Below;
  }

  /** After a move, what is carried without a is below a exactly if the new parent is. */
  lemma {:induction false} BelowAfterMove(db: Db, t: Id, mover: Id, to: Slot, a: Id, d: Id)
    requires Movable(db, t, to) && a in db.rows && d in db.rows
    ensures Below(LinksOf(Move(db, t, mover, to).rows), a, d) <==>
            if d in Moved(db, t) && a !in Moved(db, t) then Below(LinksOf(db.rows), a, to.parent)
            else Below(LinksOf(db.rows), a, d)
  {
    var links, depth := LinksOf(db.rows), DepthOf(db.rows);
    assert d in links;
    MoveRelinks(db, t, mover, to);
    hide Move, Consistent, Moved, Below;
    DepthsAreRanked(db);
    BelowIsMoved(db, t, a);
    BelowIsMoved(db, t, d);
    BelowIsMoved(db, t, to.parent);
    hide LinksOf, DepthOf, Relink, Ranked;
    if d !in Moved(db, t) {
      NotMoved(links, t, to.parent, to.side, a, d);
    } else if a in Moved(db, t) {
      MovedTogether(links, depth, t, to.parent, to.side, a, d);
    } else {
      MovedAway(links, depth, t, to.parent, to.side, a, d);
    }
  }

  lemma {:induction false} BelowAfterInsert(db: Db, n: Id, under: Id, slot: Slot, a: Id, d: Id)
    requires Insertable(db, n, slot) && d in db.rows
    ensures Below(LinksOf(Insert(db, n, under, slot).rows), a, d) <==> Below(LinksOf(db.rows), a, d)
  {
    InsertLinks(db, n, under, slot);
    NobodyBelowNew(db, n, d);
    hide Insert, Consistent, Below, Relink;
    NotMoved(LinksOf(db.rows), n, slot.parent, slot.side, a, d);
  }

  lemma {:induction false} BelowAfter(db: Db, c: Change, after: Db, a: Id, d: Id)
    requires Changes(db, c, after) && a in db.rows && d in db.rows
    ensures a in after.rows && d in after.rows
    ensures Below(LinksOf(after.rows), a, d) <==>
            if Carries(db, c, a, d) then Below(LinksOf(db.rows), a, c.to.parent)
            else Below(LinksOf(db.rows), a, d)
  {
    hide Consistent, Below, Insert, Credit, Move, Moved;
    match c
    case Places(n, under, slot) =>
      InsertRow(db, n, under, slot, a);
      BelowAfterInsert(db, n, under, slot, a, d);
    case Buys(buyer, amount) => CreditRow(db, buyer, amount, a);
    case Moves(t, mover, to) =>
      MoveRelinks(db, t, mover, to);
      BelowAfterMove(db, t, mover, to, a, d);
  }

  /* ----- Any number of changes ----- */

  ghost predicate IsRun(run: seq<Db>, changes: seq<Change>) {
    && |run| == |changes| + 1
    && forall k :: 0 <= k < |changes| ==> Changes(run[k], changes[k], run[k + 1])
  }

  ghost predicate CarriedAt(run: seq<Db>, changes: seq<Change>, k: nat, a: Id, d: Id)
    requires |run| == |changes| + 1 && k < |changes|
  {
    Carries(run[k], changes[k], a, d)
  }

  // The last of the changes that moves d and leaves a behind.
  ghost predicate CarriedLast(run: seq<Db>, changes: seq<Change>, k: nat, a: Id, d: Id)
    requires |run| == |changes| + 1
  {
    && k < |changes| && CarriedAt(run, changes, k, a, d)
    && forall j :: k < j < |changes| ==> !CarriedAt(run, changes, j, a, d)
  }

  // If d was carried without a, the last time was to a place below a.
  ghost predicate BroughtBack(run: seq<Db>, changes: seq<Change>, a: Id, d: Id)
    requires |run| == |changes| + 1
  {
    forall k: nat :: CarriedLast(run, changes, k, a, d) ==> Below(LinksOf(run[k].rows), a, changes[k].to.parent)
  }

  lemma {:induction false} ShorterRun(run: seq<Db>, changes: seq<Change>)
    requires IsRun(run, changes) && changes != []
    ensures IsRun(run[..|run| - 1], changes[..|changes| - 1])
  {
    hide Changes;
    var r, c := run[..|run| - 1], changes[..|changes| - 1];
    forall k | 0 <= k < |c| ensures Changes(r[k], c[k], r[k + 1]) {
      assert r[k] == run[k] && r[k + 1] == run[k + 1] && c[k] == changes[k];
    }
  }

  lemma {:induction false} BroughtBackStep(run: seq<Db>, changes: seq<Change>, a: Id, d: Id)
    requires |run| == |changes| + 1 && changes != []
    ensures var n := |changes| - 1;
            BroughtBack(run, changes, a, d) <==>
              if CarriedAt(run, changes, n, a, d) then Below(LinksOf(run[n].rows), a, changes[n].to.parent)
              else BroughtBack(run[..|run| - 1], changes[..n], a, d)
  {
    hide Carries, Below;
    var n := |changes| - 1;
    var r, c := run[..|run| - 1], changes[..n];
    assert forall k: nat :: k < n ==> CarriedAt(r, c, k, a, d) == CarriedAt(run, changes, k, a, d);
    if CarriedAt(run, changes, n, a, d) {
      assert CarriedLast(run, changes, n, a, d);
    } else {
      forall k: nat ensures CarriedLast(run, changes, k, a, d) <==> CarriedLast(r, c, k, a, d) { }
    }
  }

  // Who starts below a ends below a exactly if every time it was carried off it was brought back.
  lemma {:induction false} BelowAfterRun(run: seq<Db>, changes: seq<Change>, a: Id, d: Id)
    requires IsRun(run, changes) && a in run[0].rows && d in run[0].rows
    requires Below(LinksOf(run[0].rows), a, d)
    ensures var last := run[|changes|];
            && a in last.rows && d in last.rows
            && (Below(LinksOf(last.rows), a, d) <==> BroughtBack(run, changes, a, d))
    decreases |changes|
  {
    hide Changes, Carries, Below, LinksOf;
    if changes != [] {
      var n := |changes| - 1;
      ShorterRun(run, changes);
      BelowAfterRun(run[..|run| - 1], changes[..n], a, d);
      BroughtBackStep(run, changes, a, d);
      hide BroughtBack;
      assert Changes(run[n], changes[n], run[n + 1]);
      BelowAfter(run[n], changes[n], run[n + 1], a, d);
    }
  }

  /* ----- Placements ----- */

  /**
   * A placement whose walk saw one database and whose insert found another: it ends below its
   * sponsor exactly if the last move in between that carried its slot away without the sponsor,
   * if there was one, carried it to a place below the sponsor.
   */
  lemma {:induction false} PlacedBelowIff(
      a: Attempt, run: seq<Db>, changes: seq<Change>, n: Id, sponsor: Id, preferred: Option<Side>,
      slot: Slot, after: Db)
    requires Won(a, n, sponsor, preferred, slot, after) && Consistent(a.walked)
    requires IsRun(run, changes) && run[0] == a.walked && run[|changes|] == a.found
    ensures Below(LinksOf(after.rows), sponsor, n) <==> BroughtBack(run, changes, sponsor, slot.parent)
  {
    hide Consistent, Insert, Walk, Occupant, SlotFree, Below, BroughtBack, IsRun, LinksOf;
    ShapeOf(a.walked);
    WalkFindsSlot(a.walked.rows, sponsor, preferred, MAX_WALK);
    BelowAfterRun(run, changes, sponsor, slot.parent);
  }

  /**
   * With a single move in between, it misses the sponsor exactly if that move takes the slot
   * along, leaves the sponsor behind, and goes to a place that is not below the sponsor.
   */
  lemma {:induction false} OneMoveIff(
      db: Db, t: Id, mover: Id, to: Slot, n: Id, sponsor: Id, preferred: Option<Side>)
    requires Movable(db, t, to) && sponsor in db.rows && n !in db.rows
    requires SlotFree(Move(db, t, mover, to).rows, Walk(db.rows, sponsor, preferred, MAX_WALK))
    ensures var slot, found := Walk(db.rows, sponsor, preferred, MAX_WALK), Move(db, t, mover, to);
            && slot.parent in found.rows
            && (!Below(LinksOf(Insert(found, n, sponsor, slot).rows), sponsor, n) <==>
                  && slot.parent in Moved(db, t) && sponsor !in Moved(db, t)
                  && !Below(LinksOf(db.rows), sponsor, to.parent))
  {
    var slot, found := Walk(db.rows, sponsor, preferred, MAX_WALK), Move(db, t, mover, to);
    ShapeOf(db);
    WalkFindsSlot(db.rows, sponsor, preferred, MAX_WALK);
    MoveKeepsConsistent(db, t, mover, to);
    MoveRelinks(db, t, mover, to);
    hide Consistent, Insert, Walk, Occupant, SlotFree, Below, LinksOf, Move, Moved;
    BelowAfterMove(db, t, mover, to, sponsor, slot.parent);
    InsertedBelow(found, n, sponsor, slot);
  }
}
