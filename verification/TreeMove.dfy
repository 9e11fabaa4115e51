/**
 * Moving a subtree by set-based updates: rows, closure and leg totals are patched by deltas,
 * and the result is what recomputation from the new parent map would give.
 */
module TreeMove {
  import opened Prelude
  import opened TreeModel
  import opened TreeTables

  // Where the subtree goes.
  datatype Slot = Slot(parent: Id, side: Side)

  /* ----- The captured rows ----- */

  function Moved(db: Db, t: Id): set<Id> {
    set d | d in db.rows && (t, d) in db.closure
  }

  function OldLegs(db: Db, t: Id): map<Id, Side>
    requires t in db.rows
  {
    map a | a in db.rows && (a, t) in db.closure && db.closure[(a, t)] > 0
      :: SideAt(db.rows[t].path, db.rows[a].depth + 1)
  }

  function NewLegs(db: Db, parent: Id, newPath: seq<Label>): map<Id, Side> {
    map a | a in db.rows && (a, parent) in db.closure :: SideAt(newPath, db.rows[a].depth + 1)
  }

  function NewPath(db: Db, t: Id, slot: Slot): seq<Label>
    requires slot.parent in db.rows
  {
    db.rows[slot.parent].path + [SideLabel(slot.side, t)]
  }

  /* ----- The updates, in order ----- */

  // 1. The root of the subtree gets its new place.
  function PlaceRoot(db: Db, t: Id, sponsor: Id, slot: Slot): map<Id, Row>
    requires t in db.rows && slot.parent in db.rows
  {
    db.rows[t := db.rows[t].(
      link := Some(Link(slot.parent, slot.side)), sponsor := Some(sponsor),
      path := NewPath(db, t, slot), depth := db.rows[slot.parent].depth + 1)]
  }

  function Behind<T>(s: seq<T>, n: nat): seq<T> { if n <= |s| then s[n..] else [] }

  // 2. The other moved rows keep the part of their path below the root.
  function PlaceDescendants(db: Db, rows: map<Id, Row>, t: Id, slot: Slot): map<Id, Row>
    requires t in db.rows && slot.parent in db.rows && db.rows.Keys == rows.Keys
  {
    map d | d in rows ::
      if d in Moved(db, t) && d != t then
        rows[d].(path := NewPath(db, t, slot) + Behind(db.rows[d].path, |db.rows[t].path|),
                 depth := db.rows[slot.parent].depth + 1 + (db.rows[d].depth - db.rows[t].depth))
      else rows[d]
  }

  // 3. The moved rows lose their ancestors outside the subtree ...
  function CutClosure(db: Db, t: Id): map<(Id, Id), int> {
    map k | k in db.closure && !(k.1 in Moved(db, t) && k.0 !in Moved(db, t)) :: db.closure[k]
  }

  // 4. ... and get the new parent and its ancestors.
  function GraftedPairs(db: Db, t: Id, parent: Id): set<(Id, Id)> {
    set a, m | a in db.rows && m in Moved(db, t) && (a, parent) in CutClosure(db, t) :: (a, m)
  }

  function GraftClosure(db: Db, t: Id, parent: Id): map<(Id, Id), int>
    requires t in db.rows
  {
    CutClosure(db, t) +
    (map k | k in GraftedPairs(db, t, parent) ::
       CutClosure(db, t)[(k.0, parent)] + 1 + (db.rows[k.1].depth - db.rows[t].depth))
  }

  function AddToLeg(totals: Totals, side: Side, count: int, pv: int): Totals {
    if side == L then
      totals.(leftCount := totals.leftCount + count, leftPv := totals.leftPv + pv,
              leftCurrent := totals.leftCurrent + pv)
    else
      totals.(rightCount := totals.rightCount + count, rightPv := totals.rightPv + pv,
              rightCurrent := totals.rightCurrent + pv)
  }

  // 5. and 6. One leg of every listed ancestor changes by the size and PV of the subtree.
  function AdjustLegs(rows: map<Id, Row>, legs: map<Id, Side>, count: int, pv: int): map<Id, Row> {
    map a | a in rows ::
      if a in legs then rows[a].(totals := AddToLeg(rows[a].totals, legs[a], count, pv)) else rows[a]
  }

  ghost function Move(db: Db, t: Id, sponsor: Id, slot: Slot): Db
    requires t in db.rows && slot.parent in db.rows
  {
    var placed := PlaceDescendants(db, PlaceRoot(db, t, sponsor, slot), t, slot);
    var count, pv := |Moved(db, t)|, SumPv(db.pv, Moved(db, t));
    var removed := AdjustLegs(placed, OldLegs(db, t), -count, -pv);
    Db(AdjustLegs(removed, NewLegs(db, slot.parent, NewPath(db, t, slot)), count, pv),
       GraftClosure(db, t, slot.parent), db.pv)
  }

  // What the checks before the move establish.
  ghost predicate Movable(db: Db, t: Id, slot: Slot) {
    && Consistent(db)
    && t in db.rows && db.rows[t].link.Some?
    && slot.parent in db.rows && slot.parent !in Moved(db, t)
    && forall c :: c in db.rows && db.rows[c].link == Some(Link(slot.parent, slot.side)) ==> c == t
  }

  lemma {:induction false} MovedIsSubtree(db: Db, t: Id)
    requires Consistent(db) && t in db.rows
    ensures Moved(db, t) == Subtree(LinksOf(db.rows), t)
    ensures t in Moved(db, t)
  {
    forall d ensures d in Moved(db, t) <==> d in Subtree(LinksOf(db.rows), t) {
      ClosureMeansBelow(db, t, d);
    }
    assert Anc(LinksOf(db.rows), t, 0) == Some(t);
  }

  /* ----- Shape, depth and path ----- */

  lemma {:induction false} AdjustKeeps(rows: map<Id, Row>, legs: map<Id, Side>, count: int, pv: int, d: Id)
    requires d in rows
    ensures AdjustLegs(rows, legs, count, pv).Keys == rows.Keys
    ensures AdjustLegs(rows, legs, count, pv)[d] ==
            rows[d].(totals := AdjustLegs(rows, legs, count, pv)[d].totals)
    ensures AdjustLegs(rows, legs, count, pv)[d].totals ==
            if d in legs then AddToLeg(rows[d].totals, legs[d], count, pv) else rows[d].totals
  {
    hide AddToLeg;
  }

  // One row after the move: everything but the totals.
  lemma {:induction false} MovedRow(db: Db, t: Id, sponsor: Id, slot: Slot, d: Id)
    requires t in db.rows && slot.parent in db.rows && d in db.rows
    ensures Move(db, t, sponsor, slot).rows.Keys == db.rows.Keys
    ensures var placed := PlaceDescendants(db, PlaceRoot(db, t, sponsor, slot), t, slot);
            Move(db, t, sponsor, slot).rows[d] == placed[d].(totals := Move(db, t, sponsor, slot).rows[d].totals)
  {
    hide PlaceRoot, PlaceDescendants, AdjustLegs, Moved, OldLegs, NewLegs, NewPath, SumPv, GraftClosure;
    PlacedKeys(db, t, sponsor, slot);
    var placed := PlaceDescendants(db, PlaceRoot(db, t, sponsor, slot), t, slot);
    var count, pv := |Moved(db, t)|, SumPv(db.pv, Moved(db, t));
    AdjustKeeps(placed, OldLegs(db, t), -count, -pv, d);
    AdjustKeeps(AdjustLegs(placed, OldLegs(db, t), -count, -pv),
                NewLegs(db, slot.parent, NewPath(db, t, slot)), count, pv, d);
  }

  lemma {:induction false} PlacedKeys(db: Db, t: Id, sponsor: Id, slot: Slot)
    requires t in db.rows && slot.parent in db.rows
    ensures PlaceRoot(db, t, sponsor, slot).Keys == db.rows.Keys
    ensures PlaceDescendants(db, PlaceRoot(db, t, sponsor, slot), t, slot).Keys == db.rows.Keys
  {
    hide Moved, NewPath;
  }

  lemma {:induction false} PlacedLink(db: Db, t: Id, sponsor: Id, slot: Slot, d: Id)
    requires t in db.rows && slot.parent in db.rows && d in db.rows
    ensures var placed := PlaceDescendants(db, PlaceRoot(db, t, sponsor, slot), t, slot);
            d in placed && placed[d].link == if d == t then Some(Link(slot.parent, slot.side)) else db.rows[d].link
  {
    hide Moved, NewPath, Behind;
  }

  lemma {:induction false} MoveRelinks(db: Db, t: Id, sponsor: Id, slot: Slot)
    requires t in db.rows && slot.parent in db.rows
    ensures Move(db, t, sponsor, slot).rows.Keys == db.rows.Keys
    ensures LinksOf(Move(db, t, sponsor, slot).rows) == Relink(LinksOf(db.rows), t, slot.parent, slot.side)
  {
    hide Move, PlaceRoot, PlaceDescendants;
    MovedRow(db, t, sponsor, slot, t);
    forall d | d in db.rows
      ensures Move(db, t, sponsor, slot).rows[d].link ==
              if d == t then Some(Link(slot.parent, slot.side)) else db.rows[d].link
    {
      MovedRow(db, t, sponsor, slot, d);
      PlacedLink(db, t, sponsor, slot, d);
    }
  }

  // Depth and path of every row after the move.
  ghost predicate PlacedAt(db: Db, rows: map<Id, Row>, t: Id, slot: Slot, d: Id)
    requires t in db.rows && slot.parent in db.rows && d in rows && d in db.rows
  {
    if d in Moved(db, t) then
      && rows[d].depth == db.rows[slot.parent].depth + 1 + (db.rows[d].depth - db.rows[t].depth)
      && rows[d].path == NewPath(db, t, slot) + Behind(db.rows[d].path, |db.rows[t].path|)
    else
      rows[d].depth == db.rows[d].depth && rows[d].path == db.rows[d].path
  }

  lemma {:induction false} MovePlaces(db: Db, t: Id, sponsor: Id, slot: Slot, d: Id)
    requires t in db.rows && slot.parent in db.rows && d in db.rows && t in Moved(db, t)
    ensures Move(db, t, sponsor, slot).rows.Keys == db.rows.Keys
    ensures PlacedAt(db, Move(db, t, sponsor, slot).rows, t, slot, d)
  {
    hide Move, Moved;
    MovedRow(db, t, sponsor, slot, d);
    assert Behind(db.rows[t].path, |db.rows[t].path|) == [];
    assert NewPath(db, t, slot) + [] == NewPath(db, t, slot);
  }

  lemma {:induction false} BelowParent(links: Links, t: Id, d: Id)
    requires Up(links, d).Some? && d != t
    ensures Below(links, t, d) <==> Below(links, t, Up(links, d).value)
  {
    var p := Up(links, d).value;
    if Below(links, t, d) {
      var k: nat :| Anc(links, d, k) == Some(t);
      assert Anc(links, p, k - 1) == Some(t);
    }
    if Below(links, t, p) {
      var k: nat :| Anc(links, p, k) == Some(t);
      assert Anc(links, d, k + 1) == Some(t);
    }
  }

  lemma {:induction false} MovedWithParent(db: Db, t: Id, d: Id)
    requires Consistent(db) && t in db.rows && d in db.rows && d != t && db.rows[d].link.Some?
    ensures db.rows[d].link.value.parent in db.rows
    ensures db.rows[d].depth == db.rows[db.rows[d].link.value.parent].depth + 1
    ensures d in Moved(db, t) <==> db.rows[d].link.value.parent in Moved(db, t)
  {
    var links := LinksOf(db.rows);
    var p := links[d].value.parent;
    assert DepthOf(db.rows)[d] == DepthOf(db.rows)[p] + 1;
    hide Shaped, PathsExact, ClosureExact, TotalsExact, Below, Anc;
    MovedIsSubtree(db, t);
    BelowParent(links, t, d);
    hide Moved, Consistent;
  }

  lemma {:induction false} RootHasNoAncestor(links: Links, t: Id, d: Id)
    requires Up(links, d).None? && d != t
    ensures !Below(links, t, d)
  {
  }

  lemma {:induction false} RootsStay(db: Db, t: Id, d: Id)
    requires Consistent(db) && t in db.rows && d in db.rows && d != t && db.rows[d].link.None?
    ensures d !in Moved(db, t)
  {
    hide Shaped, PathsExact, ClosureExact, TotalsExact, Moved;
    MovedIsSubtree(db, t);
    RootHasNoAncestor(LinksOf(db.rows), t, d);
  }

  lemma {:induction false} MoveKeepsShape(db: Db, t: Id, sponsor: Id, slot: Slot)
    requires Movable(db, t, slot)
    ensures Shaped(Move(db, t, sponsor, slot).rows)
  {
    MovedIsSubtree(db, t);
    MoveRelinks(db, t, sponsor, slot);
    var rows := Move(db, t, sponsor, slot).rows;
    forall d | d in rows
      ensures 0 <= rows[d].depth && (rows[d].link.None? ==> rows[d].depth == 0)
      ensures rows[d].link.Some? ==>
                && rows[d].link.value.parent in rows
                && rows[d].depth == rows[rows[d].link.value.parent].depth + 1
    {
      DepthAfterMove(db, t, sponsor, slot, d);
    }
    assert OneChildPerSlot(LinksOf(rows)) by { SlotsAfterMove(db, t, slot); }
    RankedFromRows(rows);
  }

  lemma {:induction false} RankedFromRows(rows: map<Id, Row>)
    requires forall d :: d in rows && rows[d].link.Some? ==>
               rows[d].link.value.parent in rows && rows[d].depth == rows[rows[d].link.value.parent].depth + 1
    ensures Ranked(LinksOf(rows), DepthOf(rows))
  {
  }

  lemma {:induction false} SlotsAfterMove(db: Db, t: Id, slot: Slot)
    requires Movable(db, t, slot)
    ensures OneChildPerSlot(Relink(LinksOf(db.rows), t, slot.parent, slot.side))
  {
    var links := LinksOf(db.rows);
    var links' := Relink(links, t, slot.parent, slot.side);
    forall c, d | c in links' && d in links' && links'[c].Some? && links'[c] == links'[d] ensures c == d {
      if c != t && d != t { assert links[c] == links[d]; }
    }
  }

  lemma {:induction false} MovedDepth(db: Db, t: Id, d: Id)
    requires Consistent(db) && t in db.rows && d in Moved(db, t)
    ensures db.rows[t].depth <= db.rows[d].depth
  {
    MovedIsSubtree(db, t);
    var k: nat :| Anc(LinksOf(db.rows), d, k) == Some(t);
    AncestorsAreRows(db.rows, d, k);
  }

  lemma {:induction false} DepthBounds(db: Db, d: Id)
    requires Consistent(db) && d in db.rows
    ensures 0 <= db.rows[d].depth && (db.rows[d].link.None? ==> db.rows[d].depth == 0)
  {
  }

  lemma {:induction false} DepthAfterMove(db: Db, t: Id, sponsor: Id, slot: Slot, d: Id)
    requires Movable(db, t, slot) && d in db.rows
    ensures var rows := Move(db, t, sponsor, slot).rows;
            && rows.Keys == db.rows.Keys
            && 0 <= rows[d].depth && (rows[d].link.None? ==> rows[d].depth == 0)
            && (rows[d].link.Some? ==>
                  && rows[d].link.value.parent in rows
                  && rows[d].depth == rows[rows[d].link.value.parent].depth + 1)
  {
    hide Move, Moved, Shaped, PathsExact, ClosureExact, TotalsExact;
    MovedIsSubtree(db, t);
    MoveRelinks(db, t, sponsor, slot);
    MovePlaces(db, t, sponsor, slot, d);
    var rows := Move(db, t, sponsor, slot).rows;
    assert LinksOf(rows)[d] == rows[d].link && LinksOf(db.rows)[d] == db.rows[d].link;
    DepthBounds(db, d);
    DepthBounds(db, slot.parent);
    if d in Moved(db, t) { MovedDepth(db, t, d); }
    if d == t {
      MovePlaces(db, t, sponsor, slot, slot.parent);
    } else if db.rows[d].link.Some? {
      MovedWithParent(db, t, d);
      MovePlaces(db, t, sponsor, slot, db.rows[d].link.value.parent);
    } else {
      RootsStay(db, t, d);
    }
  }

  lemma {:induction false} MoveKeepsPaths(db: Db, t: Id, sponsor: Id, slot: Slot)
    requires Movable(db, t, slot)
    ensures PathsExact(Move(db, t, sponsor, slot).rows)
  {
    var rows := Move(db, t, sponsor, slot).rows;
    MovedIsSubtree(db, t);
    forall d | d in rows
      ensures match rows[d].link
              case None => rows[d].path == [RootLabel(d)]
              case Some(l) => l.parent in rows && rows[d].path == rows[l.parent].path + [SideLabel(l.side, d)]
    {
      PathAfterMove(db, t, sponsor, slot, d);
    }
  }

  lemma {:induction false} BehindAppend<T>(s: seq<T>, n: nat, x: T, p: seq<T>)
    requires n <= |s|
    ensures p + Behind(s + [x], n) == (p + Behind(s, n)) + [x]
  {
    assert (s + [x])[n..] == s[n..] + [x];
  }

  lemma {:induction false} BehindAll<T>(s: seq<T>)
    ensures Behind(s, |s|) == []
  {
  }

  lemma {:induction false} OwnPath(db: Db, d: Id)
    requires Consistent(db) && d in db.rows
    ensures match db.rows[d].link
            case None => db.rows[d].path == [RootLabel(d)]
            case Some(l) => l.parent in db.rows && db.rows[d].path == db.rows[l.parent].path + [SideLabel(l.side, d)]
  {
  }

  lemma {:induction false} PathAfterMove(db: Db, t: Id, sponsor: Id, slot: Slot, d: Id)
    requires Movable(db, t, slot) && d in Move(db, t, sponsor, slot).rows
    ensures var rows := Move(db, t, sponsor, slot).rows;
            match rows[d].link
            case None => rows[d].path == [RootLabel(d)]
            case Some(l) => l.parent in rows && rows[d].path == rows[l.parent].path + [SideLabel(l.side, d)]
  {
    hide Move, Moved, Shaped, PathsExact, ClosureExact, TotalsExact, Behind;
    MovedIsSubtree(db, t);
    MoveRelinks(db, t, sponsor, slot);
    MovePlaces(db, t, sponsor, slot, d);
    var rows := Move(db, t, sponsor, slot).rows;
    assert LinksOf(rows)[d] == rows[d].link && LinksOf(db.rows)[d] == db.rows[d].link;
    OwnPath(db, d);
    if d == t {
      MovePlaces(db, t, sponsor, slot, slot.parent);
      BehindAll(db.rows[t].path);
      assert Behind(db.rows[t].path, |db.rows[t].path|) == [];
      assert NewPath(db, t, slot) + [] == NewPath(db, t, slot);
    } else if db.rows[d].link.Some? {
      var l := db.rows[d].link.value;
      MovedWithParent(db, t, d);
      MovePlaces(db, t, sponsor, slot, l.parent);
      if d in Moved(db, t) {
        MovedDepth(db, t, l.parent);
        PathLength(db.rows, l.parent);
        PathLength(db.rows, t);
        BehindAppend(db.rows[l.parent].path, |db.rows[t].path|, SideLabel(l.side, d), NewPath(db, t, slot));
      }
    } else {
      RootsStay(db, t, d);
    }
  }

  /* ----- Closure ----- */

  // The closure after the move, entry by entry.
  lemma {:induction false} GraftedEntry(db: Db, t: Id, parent: Id, a: Id, d: Id)
    requires t in db.rows
    ensures var c := GraftClosure(db, t, parent);
            if (a, d) in GraftedPairs(db, t, parent) then
              && (a, d) in c && (a, parent) in CutClosure(db, t)
              && c[(a, d)] == CutClosure(db, t)[(a, parent)] + 1 + (db.rows[d].depth - db.rows[t].depth)
            else
              && ((a, d) in c <==> (a, d) in CutClosure(db, t))
              && ((a, d) in c ==> c[(a, d)] == CutClosure(db, t)[(a, d)])
  {
    hide Moved, CutClosure;
  }

  lemma {:induction false} CutEntry(db: Db, t: Id, a: Id, d: Id)
    ensures (a, d) in CutClosure(db, t) <==>
            (a, d) in db.closure && (d in Moved(db, t) ==> a in Moved(db, t))
    ensures (a, d) in CutClosure(db, t) ==> CutClosure(db, t)[(a, d)] == db.closure[(a, d)]
  {
    hide Moved;
  }

  lemma {:induction false} DistanceIsEntry(db: Db, a: Id, d: Id, k: nat)
    requires Consistent(db) && d in db.rows
    ensures Anc(LinksOf(db.rows), d, k) == Some(a) <==> (a, d) in db.closure && db.closure[(a, d)] == k
    ensures Anc(LinksOf(db.rows), d, k) == Some(a) ==> a in db.rows
  {
    var links := LinksOf(db.rows);
    if Anc(links, d, k) == Some(a) {
      DistanceIsUnique(links, DepthOf(db.rows), d, db.closure[(a, d)], k);
      AncestorsAreRows(db.rows, d, k);
    }
  }

  lemma {:induction false} EntriesAreBelow(db: Db, a: Id, d: Id)
    requires Consistent(db) && (a, d) in db.closure
    ensures d in db.rows && a in db.rows && 0 <= db.closure[(a, d)]
    ensures Anc(LinksOf(db.rows), d, db.closure[(a, d)]) == Some(a)
    ensures db.closure[(a, d)] == db.rows[d].depth - db.rows[a].depth
  {
    AncestorsAreRows(db.rows, d, db.closure[(a, d)]);
  }

  // The new entry of a moved row for an ancestor of the new parent.
  lemma {:induction false} NewEntry(db: Db, t: Id, slot: Slot, a: Id, d: Id)
    requires Movable(db, t, slot) && d in Moved(db, t)
    ensures (a, d) in GraftedPairs(db, t, slot.parent) <==> (a, slot.parent) in db.closure
    ensures (a, slot.parent) in db.closure ==> a !in Moved(db, t)
    ensures (a, slot.parent) in db.closure ==>
              GraftClosure(db, t, slot.parent)[(a, d)] == db.closure[(a, slot.parent)] + 1 + db.closure[(t, d)]
  {
    hide GraftClosure, CutClosure;
    var links := LinksOf(db.rows);
    CutEntry(db, t, a, slot.parent);
    GraftedEntry(db, t, slot.parent, a, d);
    MovedIsSubtree(db, t);
    EntriesAreBelow(db, t, d);
    if (a, slot.parent) in db.closure {
      EntriesAreBelow(db, a, slot.parent);
      NotBelowAbove(links, t, slot.parent, a);
    }
  }

  lemma {:induction false} UnmovedEntries(db: Db, t: Id, slot: Slot, a: Id, d: Id)
    requires Movable(db, t, slot) && d in db.rows && d !in Moved(db, t)
    ensures (a, d) in GraftClosure(db, t, slot.parent) <==> (a, d) in db.closure
    ensures (a, d) in db.closure ==> GraftClosure(db, t, slot.parent)[(a, d)] == db.closure[(a, d)]
    ensures forall k: nat ::
              Anc(Relink(LinksOf(db.rows), t, slot.parent, slot.side), d, k) ==
              Anc(LinksOf(db.rows), d, k)
  {
    CutEntry(db, t, a, d);
    GraftedEntry(db, t, slot.parent, a, d);
    MovedIsSubtree(db, t);
    hide GraftClosure, CutClosure;
    forall k: nat ensures Anc(Relink(LinksOf(db.rows), t, slot.parent, slot.side), d, k) ==
        Anc(LinksOf(db.rows), d, k) {
      RelinkOutside(LinksOf(db.rows), t, slot.parent, slot.side, d, k);
    }
  }

  lemma {:induction false} MovedEntry(db: Db, t: Id, slot: Slot, a: Id, d: Id)
    requires Movable(db, t, slot) && d in Moved(db, t)
    ensures (t, d) in db.closure
    ensures var c := GraftClosure(db, t, slot.parent);
            if (a, slot.parent) in db.closure then
              a !in Moved(db, t) && (a, d) in c && c[(a, d)] == db.closure[(a, slot.parent)] + 1 + db.closure[(t, d)]
            else
              && ((a, d) in c <==> (a, d) in db.closure && a in Moved(db, t))
              && ((a, d) in c ==> c[(a, d)] == db.closure[(a, d)])
  {
    hide GraftClosure, CutClosure, Shaped, PathsExact, ClosureExact, TotalsExact;
    NewEntry(db, t, slot, a, d);
    CutEntry(db, t, a, d);
    GraftedEntry(db, t, slot.parent, a, d);
  }

  // Ancestors of a moved row: those inside the subtree ...
  lemma {:induction false} NearEntry(db: Db, t: Id, slot: Slot, a: Id, d: Id, k: nat)
    requires Movable(db, t, slot) && d in Moved(db, t) && (t, d) in db.closure && k <= db.closure[(t, d)]
    ensures Anc(Relink(LinksOf(db.rows), t, slot.parent, slot.side), d, k) == Some(a) <==>
            (a, d) in GraftClosure(db, t, slot.parent) && GraftClosure(db, t, slot.parent)[(a, d)] == k
  {
    hide GraftClosure, Shaped, PathsExact, ClosureExact, TotalsExact, Moved, Relink;
    var links := LinksOf(db.rows);
    var j := db.closure[(t, d)];
    MovedEntry(db, t, slot, a, d);
    MovedIsSubtree(db, t);
    EntriesAreBelow(db, t, d);
    DepthsAreRanked(db);
    RelinkInside(links, DepthOf(db.rows), t, slot.parent, slot.side, d, j, k);
    DistanceIsEntry(db, a, d, k);
    if Anc(links, d, k) == Some(a) {
      AncCompose(links, d, k, j - k);
      assert a in Subtree(links, t);
    }
    if (a, slot.parent) in db.closure { EntriesAreBelow(db, a, slot.parent); }
  }

  // ... and then the new parent's.
  lemma {:induction false} FarEntry(db: Db, t: Id, slot: Slot, a: Id, d: Id, k: nat)
    requires Movable(db, t, slot) && d in Moved(db, t) && (t, d) in db.closure && db.closure[(t, d)] < k
    ensures Anc(Relink(LinksOf(db.rows), t, slot.parent, slot.side), d, k) == Some(a) <==>
            (a, d) in GraftClosure(db, t, slot.parent) && GraftClosure(db, t, slot.parent)[(a, d)] == k
  {
    hide GraftClosure, Shaped, PathsExact, ClosureExact, TotalsExact, Moved, Relink;
    var links := LinksOf(db.rows);
    MovedEntry(db, t, slot, a, d);
    MovedIsSubtree(db, t);
    EntriesAreBelow(db, t, d);
    var j := db.closure[(t, d)];
    DepthsAreRanked(db);
    RelinkAbove(links, DepthOf(db.rows), t, slot.parent, slot.side, d, j, k - j - 1);
    DistanceIsEntry(db, a, slot.parent, k - j - 1);
    if a in Moved(db, t) && (a, d) in db.closure {
      EntriesAreBelow(db, a, d);
      MovedDepth(db, t, a);
    }
  }

  lemma {:induction false} DepthsAreRanked(db: Db)
    requires Consistent(db)
    ensures Ranked(LinksOf(db.rows), DepthOf(db.rows))
  {
  }

  lemma {:induction false} MovedEntries(db: Db, t: Id, slot: Slot, a: Id, d: Id, k: nat)
    requires Movable(db, t, slot) && d in Moved(db, t)
    ensures Anc(Relink(LinksOf(db.rows), t, slot.parent, slot.side), d, k) == Some(a) <==>
            (a, d) in GraftClosure(db, t, slot.parent) && GraftClosure(db, t, slot.parent)[(a, d)] == k
  {
    hide GraftClosure, Relink, Shaped, PathsExact, ClosureExact, TotalsExact;
    if k <= db.closure[(t, d)] {
      NearEntry(db, t, slot, a, d, k);
    } else {
      FarEntry(db, t, slot, a, d, k);
    }
  }

  lemma {:induction false} MoveKeepsClosure(db: Db, t: Id, slot: Slot)
    requires Movable(db, t, slot)
    ensures ClosureExact(Relink(LinksOf(db.rows), t, slot.parent, slot.side), GraftClosure(db, t, slot.parent))
  {
    hide GraftClosure, Moved;
    var links := LinksOf(db.rows);
    var links' := Relink(links, t, slot.parent, slot.side);
    var c := GraftClosure(db, t, slot.parent);
    forall a, d | (a, d) in c
      ensures d in links' && 0 <= c[(a, d)] && Anc(links', d, c[(a, d)]) == Some(a)
    {
      GraftedRows(db, t, slot, a, d);
      if d in Moved(db, t) {
        MovedEntries(db, t, slot, a, d, c[(a, d)]);
      } else {
        UnmovedEntries(db, t, slot, a, d);
      }
    }
    forall a, d, k: nat | d in links' && Anc(links', d, k) == Some(a) ensures (a, d) in c {
      if d in Moved(db, t) {
        MovedEntries(db, t, slot, a, d, k);
      } else {
        UnmovedEntries(db, t, slot, a, d);
        DistanceIsEntry(db, a, d, k);
      }
    }
  }

  lemma {:induction false} GraftedRows(db: Db, t: Id, slot: Slot, a: Id, d: Id)
    requires Movable(db, t, slot) && (a, d) in GraftClosure(db, t, slot.parent)
    ensures d in db.rows && 0 <= GraftClosure(db, t, slot.parent)[(a, d)]
  {
    GraftedEntry(db, t, slot.parent, a, d);
    CutEntry(db, t, a, d);
    CutEntry(db, t, a, slot.parent);
    hide GraftClosure, CutClosure;
    if (a, d) in GraftedPairs(db, t, slot.parent) {
      MovedDepth(db, t, d);
    }
  }
}
