/** The other writers of the genealogy: a new leaf, and purchased PV climbing to all ancestors. */
module TreeGrowth {
  import opened Prelude
  import opened TreeModel
  import opened TreeTables
  import opened TreeMove
  import opened TreeTotals

  /* ----- A new leaf ----- */

  const NO_TOTALS := Totals(0, 0, 0, 0, 0, 0)

  function LeafRow(db: Db, n: Id, sponsor: Id, slot: Slot): Row
    requires slot.parent in db.rows
  {
    Row(Some(Link(slot.parent, slot.side)), Some(sponsor), NewPath(db, n, slot),
        db.rows[slot.parent].depth + 1, NO_TOTALS, true)
  }

  // The leaf inherits the parent's ancestors, the parent included, one level further away.
  function LeafClosure(db: Db, n: Id, parent: Id): map<(Id, Id), int> {
    db.closure
    + (map a | a in db.rows && (a, parent) in db.closure :: (a, n) := db.closure[(a, parent)] + 1)
    + map[(n, n) := 0]
  }

  // Insert, path and closure triggers, and the enrollment count climbing to every ancestor.
  function Insert(db: Db, n: Id, sponsor: Id, slot: Slot): Db
    requires slot.parent in db.rows
  {
    Db(AdjustLegs(db.rows, NewLegs(db, slot.parent, NewPath(db, n, slot)), 1, 0)[n := LeafRow(db, n, sponsor, slot)],
       LeafClosure(db, n, slot.parent), db.pv)
  }

  ghost predicate SlotFree(rows: map<Id, Row>, slot: Slot) {
    forall c :: c in rows ==> rows[c].link != Some(Link(slot.parent, slot.side))
  }

  ghost predicate Insertable(db: Db, n: Id, slot: Slot) {
    Consistent(db) && n !in db.rows && slot.parent in db.rows && SlotFree(db.rows, slot)
  }

  lemma {:induction false} InsertRow(db: Db, n: Id, sponsor: Id, slot: Slot, d: Id)
    requires slot.parent in db.rows && n !in db.rows && (d in db.rows || d == n)
    ensures var rows := Insert(db, n, sponsor, slot).rows;
            && rows.Keys == db.rows.Keys + {n}
            && if d == n then rows[d] == LeafRow(db, n, sponsor, slot)
               else rows[d] == db.rows[d].(totals := rows[d].totals)
    ensures d != n ==>
              Insert(db, n, sponsor, slot).rows[d].totals ==
              var legs := NewLegs(db, slot.parent, NewPath(db, n, slot));
              if d in legs then AddToLeg(db.rows[d].totals, legs[d], 1, 0) else db.rows[d].totals
  {
    hide NewLegs, NewPath, LeafClosure, AddToLeg;
  }

  lemma {:induction false} InsertLinks(db: Db, n: Id, sponsor: Id, slot: Slot)
    requires slot.parent in db.rows && n !in db.rows
    ensures LinksOf(Insert(db, n, sponsor, slot).rows) == Relink(LinksOf(db.rows), n, slot.parent, slot.side)
  {
    hide Insert;
    InsertRow(db, n, sponsor, slot, n);
    forall d | d in db.rows ensures Insert(db, n, sponsor, slot).rows[d].link == db.rows[d].link {
      InsertRow(db, n, sponsor, slot, d);
    }
  }

  lemma {:induction false} NobodyBelowNew(db: Db, n: Id, d: Id)
    requires Consistent(db) && n !in db.rows && d in db.rows
    ensures !Below(LinksOf(db.rows), n, d)
  {
    hide PathsExact, ClosureExact, TotalsExact;
    var links := LinksOf(db.rows);
    forall k: nat ensures Anc(links, d, k) != Some(n) {
      if Anc(links, d, k).Some? { AncestorsAreRows(db.rows, d, k); }
    }
  }

  // The leaf's ancestors are itself, the parent, and the parent's.
  lemma {:induction false} LeafAncestors(db: Db, n: Id, slot: Slot, i: nat)
    requires Insertable(db, n, slot)
    ensures Anc(Relink(LinksOf(db.rows), n, slot.parent, slot.side), n, i + 1) == Anc(LinksOf(db.rows), slot.parent, i)
  {
    NobodyBelowNew(db, n, slot.parent);
    RelinkOutside(LinksOf(db.rows), n, slot.parent, slot.side, slot.parent, i);
  }

  lemma {:induction false} InsertKeepsShape(db: Db, n: Id, sponsor: Id, slot: Slot)
    requires Insertable(db, n, slot)
    ensures Shaped(Insert(db, n, sponsor, slot).rows)
    ensures PathsExact(Insert(db, n, sponsor, slot).rows)
  {
    hide Insert, ClosureExact, TotalsExact, Shaped, PathsExact, Relink, LeafRow;
    var rows := Insert(db, n, sponsor, slot).rows;
    InsertLinks(db, n, sponsor, slot);
    InsertRow(db, n, sponsor, slot, n);
    forall d | d in rows
      ensures 0 <= rows[d].depth && (rows[d].link.None? ==> rows[d].depth == 0)
      ensures rows[d].link.Some? ==>
                && rows[d].link.value.parent in rows
                && rows[d].depth == rows[rows[d].link.value.parent].depth + 1
      ensures match rows[d].link
              case None => rows[d].path == [RootLabel(d)]
              case Some(l) => l.parent in rows && rows[d].path == rows[l.parent].path + [SideLabel(l.side, d)]
    {
      InsertedRowFits(db, n, sponsor, slot, d);
    }
    RankedFromRows(rows);
    assert OneChildPerSlot(LinksOf(rows)) by { InsertSlots(db, n, slot); }
    ShapedFromRows(rows);
  }

  lemma {:induction false} ShapedFromRows(rows: map<Id, Row>)
    requires Ranked(LinksOf(rows), DepthOf(rows)) && OneChildPerSlot(LinksOf(rows))
    requires forall d :: d in rows ==> 0 <= rows[d].depth && (rows[d].link.None? ==> rows[d].depth == 0)
    requires forall d :: d in rows ==>
               match rows[d].link
               case None => rows[d].path == [RootLabel(d)]
               case Some(l) => l.parent in rows && rows[d].path == rows[l.parent].path + [SideLabel(l.side, d)]
    ensures Shaped(rows) && PathsExact(rows)
  {
    hide Ranked, OneChildPerSlot;
  }

  lemma {:induction false} InsertSlots(db: Db, n: Id, slot: Slot)
    requires Insertable(db, n, slot)
    ensures OneChildPerSlot(Relink(LinksOf(db.rows), n, slot.parent, slot.side))
  {
    hide PathsExact, ClosureExact, TotalsExact, Ranked;
    var links := LinksOf(db.rows);
    var links' := Relink(links, n, slot.parent, slot.side);
    assert forall c :: c in links ==> links[c] == db.rows[c].link != Some(Link(slot.parent, slot.side));
    forall c, d | c in links' && d in links' && links'[c].Some? && links'[c] == links'[d] ensures c == d {
      if c != n && d != n {
        assert links[c] == links[d];
      }
    }
  }

  lemma {:induction false} RowFits(db: Db, d: Id)
    requires Consistent(db) && d in db.rows && db.rows[d].link.Some?
    ensures db.rows[d].link.value.parent in db.rows
    ensures db.rows[d].depth == db.rows[db.rows[d].link.value.parent].depth + 1
  {
    hide PathsExact, ClosureExact, TotalsExact;
    assert LinksOf(db.rows)[d].Some?;
    assert DepthOf(db.rows)[d] == DepthOf(db.rows)[db.rows[d].link.value.parent] + 1;
  }

  lemma {:induction false} InsertedRowFits(db: Db, n: Id, sponsor: Id, slot: Slot, d: Id)
    requires Insertable(db, n, slot) && d in Insert(db, n, sponsor, slot).rows
    ensures var rows := Insert(db, n, sponsor, slot).rows;
            && 0 <= rows[d].depth && (rows[d].link.None? ==> rows[d].depth == 0)
            && (rows[d].link.Some? ==>
                  && rows[d].link.value.parent in rows
                  && rows[d].depth == rows[rows[d].link.value.parent].depth + 1)
            && (match rows[d].link
                case None => rows[d].path == [RootLabel(d)]
                case Some(l) => l.parent in rows && rows[d].path == rows[l.parent].path + [SideLabel(l.side, d)])
  {
    hide Insert, Shaped, PathsExact, ClosureExact, TotalsExact;
    InsertRow(db, n, sponsor, slot, n);
    InsertRow(db, n, sponsor, slot, slot.parent);
    if d == n {
      DepthBounds(db, slot.parent);
    } else {
      InsertRow(db, n, sponsor, slot, d);
      DepthBounds(db, d);
      OwnPath(db, d);
      if db.rows[d].link.Some? {
        RowFits(db, d);
        InsertRow(db, n, sponsor, slot, db.rows[d].link.value.parent);
      }
    }
  }

  lemma {:induction false} LeafEntry(db: Db, n: Id, parent: Id, a: Id, d: Id)
    requires Consistent(db) && n !in db.rows
    ensures d != n ==>
              && ((a, d) in LeafClosure(db, n, parent) <==> (a, d) in db.closure)
              && ((a, d) in db.closure ==> LeafClosure(db, n, parent)[(a, d)] == db.closure[(a, d)])
    ensures a != n ==>
              && ((a, n) in LeafClosure(db, n, parent) <==> (a, parent) in db.closure)
              && ((a, parent) in db.closure ==> LeafClosure(db, n, parent)[(a, n)] == db.closure[(a, parent)] + 1)
    ensures (n, n) in LeafClosure(db, n, parent) && LeafClosure(db, n, parent)[(n, n)] == 0
  {
    hide Shaped, PathsExact, ClosureExact, TotalsExact;
    if (a, n) in db.closure { EntriesAreBelow(db, a, n); }
    if (a, parent) in db.closure { EntriesAreBelow(db, a, parent); }
  }

  lemma {:induction false} InsertKeepsClosure(db: Db, n: Id, slot: Slot)
    requires Insertable(db, n, slot)
    ensures ClosureExact(Relink(LinksOf(db.rows), n, slot.parent, slot.side), LeafClosure(db, n, slot.parent))
  {
    hide LeafClosure, Shaped, PathsExact, TotalsExact;
    var links := LinksOf(db.rows);
    var links' := Relink(links, n, slot.parent, slot.side);
    var c := LeafClosure(db, n, slot.parent);
    forall a, d | (a, d) in c
      ensures d in links' && 0 <= c[(a, d)] && Anc(links', d, c[(a, d)]) == Some(a)
    {
      LeafEntry(db, n, slot.parent, a, d);
      if d != n {
        EntriesAreBelow(db, a, d);
        NobodyBelowNew(db, n, d);
        RelinkOutside(links, n, slot.parent, slot.side, d, c[(a, d)]);
      } else if a != n {
        EntriesAreBelow(db, a, slot.parent);
        LeafAncestors(db, n, slot, db.closure[(a, slot.parent)]);
      }
    }
    forall a, d, k: nat | d in links' && Anc(links', d, k) == Some(a) ensures (a, d) in c {
      LeafEntry(db, n, slot.parent, a, d);
      if d != n {
        NobodyBelowNew(db, n, d);
        RelinkOutside(links, n, slot.parent, slot.side, d, k);
        DistanceIsEntry(db, a, d, k);
      } else if k > 0 {
        LeafAncestors(db, n, slot, k - 1);
        DistanceIsEntry(db, a, slot.parent, k - 1);
      }
    }
  }

  // A leaf joins exactly one leg of each of its ancestors and has empty legs itself.
  lemma {:induction false} LegAfterInsert(db: Db, n: Id, slot: Slot, a: Id, s: Side)
    requires Insertable(db, n, slot)
    ensures var links' := Relink(LinksOf(db.rows), n, slot.parent, slot.side);
            if a == n then Leg(links', n, s) == {}
            else Leg(links', a, s) == Leg(LinksOf(db.rows), a, s) +
                   if (a == slot.parent && s == slot.side)
                       || InLeg(LinksOf(db.rows), a, s, slot.parent) then {n} else {}
  {
    hide Shaped, PathsExact, ClosureExact, TotalsExact, InLeg;
    var links := LinksOf(db.rows);
    var links' := Relink(links, n, slot.parent, slot.side);
    forall d | d in db.rows
      ensures InLeg(links', a, s, d) <==> InLeg(links, a, s, d)
      ensures a == n ==> !InLeg(links, a, s, d)
    {
      NobodyBelowNew(db, n, d);
      LegOutside(links, n, slot.parent, slot.side, a, s, d);
      if a == n && InLeg(links, n, s, d) { InLegIsBelow(links, n, s, d); }
    }
    LegOfLeaf(db, n, slot, a, s);
    assert links'.Keys == links.Keys + {n};
  }

  lemma {:induction false} LegOfLeaf(db: Db, n: Id, slot: Slot, a: Id, s: Side)
    requires Insertable(db, n, slot)
    ensures InLeg(Relink(LinksOf(db.rows), n, slot.parent, slot.side), a, s, n) <==>
            a != n && ((a == slot.parent && s == slot.side) || InLeg(LinksOf(db.rows), a, s, slot.parent))
  {
    hide Shaped, PathsExact, ClosureExact, TotalsExact;
    var links := LinksOf(db.rows);
    var links' := Relink(links, n, slot.parent, slot.side);
    NobodyBelowNew(db, n, slot.parent);
    if InLeg(links', a, s, n) {
      var k: nat :| InLegAt(links', a, s, n, k);
      if k > 0 {
        LeafAncestors(db, n, slot, k - 1);
        NotMovedAbove(links, n, slot.parent, k - 1);
        assert InLegAt(links, a, s, slot.parent, k - 1);
        InLegIsBelow(links, a, s, slot.parent);
      }
    }
    if a == slot.parent && s == slot.side {
      assert InLegAt(links', a, s, n, 0);
    } else if a != n && InLeg(links, a, s, slot.parent) {
      var k: nat :| InLegAt(links, a, s, slot.parent, k);
      LeafAncestors(db, n, slot, k);
      NotMovedAbove(links, n, slot.parent, k);
      assert InLegAt(links', a, s, n, k + 1);
    }
  }

  lemma {:induction false} AddLeafToSet(pv: map<Id, int>, leg: set<Id>, n: Id, joins: bool)
    requires n !in leg && n !in pv
    ensures |leg + if joins then {n} else {}| == |leg| + If(joins, 1)
    ensures SumPv(pv, leg + if joins then {n} else {}) == SumPv(pv, leg)
  {
    if joins {
      SumPvRemove(pv, leg + {n}, n);
      assert leg + {n} - {n} == leg;
    } else {
      assert leg + {} == leg;
    }
  }

  // One leg of an old affiliate: whether the leaf joins it, and what it then holds.
  lemma {:induction false} LegTotalsAfterInsert(db: Db, n: Id, slot: Slot, a: Id, s: Side)
    requires Insertable(db, n, slot) && a in db.rows
    ensures var legs := NewLegs(db, slot.parent, NewPath(db, n, slot));
            var leg := Leg(Relink(LinksOf(db.rows), n, slot.parent, slot.side), a, s);
            && |leg| == |Leg(LinksOf(db.rows), a, s)| + If(a in legs && legs[a] == s, 1)
            && SumPv(db.pv, leg) == SumPv(db.pv, Leg(LinksOf(db.rows), a, s))
  {
    hide NewLegs, NewPath, Leg, Relink, Shaped, PathsExact, ClosureExact, TotalsExact, InLeg, SumPv, SlotFree, LinksOf;
    LegAfterInsert(db, n, slot, a, s);
    NewLegsAreTrue(db, n, slot, a, s);
    LegsAreRows(db, a, s);
    AddLeafToSet(db.pv, Leg(LinksOf(db.rows), a, s), n,
                 (a == slot.parent && s == slot.side) || InLeg(LinksOf(db.rows), a, s, slot.parent));
  }

  lemma {:induction false} LeafTotals(db: Db, n: Id, slot: Slot)
    requires Insertable(db, n, slot)
    ensures TotalsExactFor(Relink(LinksOf(db.rows), n, slot.parent, slot.side), db.pv, n, NO_TOTALS)
  {
    hide Leg, Relink, Consistent, SlotFree, LinksOf;
    LegAfterInsert(db, n, slot, n, L);
    LegAfterInsert(db, n, slot, n, R);
  }

  lemma {:induction false} TotalsAfterInsert(db: Db, n: Id, sponsor: Id, slot: Slot, a: Id)
    requires Insertable(db, n, slot) && (a in db.rows || a == n)
    ensures a in Insert(db, n, sponsor, slot).rows
    ensures TotalsExactFor(Relink(LinksOf(db.rows), n, slot.parent, slot.side), db.pv, a,
                           Insert(db, n, sponsor, slot).rows[a].totals)
  {
    hide Insert, NewLegs, NewPath, Leg, Relink, Consistent, SlotFree, LinksOf, SumPv;
    InsertRow(db, n, sponsor, slot, a);
    if a == n {
      LeafTotals(db, n, slot);
    } else {
      TotalsOf(db, a);
      LegTotalsAfterInsert(db, n, slot, a, L);
      LegTotalsAfterInsert(db, n, slot, a, R);
    }
  }

  lemma {:induction false} LegsAreRows(db: Db, a: Id, s: Side)
    ensures Leg(LinksOf(db.rows), a, s) <= db.rows.Keys
  {
  }

  lemma {:induction false} ConsistentFromParts(db: Db, links: Links)
    requires links == LinksOf(db.rows) && Shaped(db.rows) && PathsExact(db.rows)
    requires ClosureExact(links, db.closure) && db.pv.Keys <= db.rows.Keys
    requires forall a :: a in db.rows ==> TotalsExactFor(links, db.pv, a, db.rows[a].totals)
    ensures Consistent(db)
  {
    hide Shaped, PathsExact, ClosureExact, TotalsExactFor;
  }

  lemma {:induction false} InsertKeepsConsistent(db: Db, n: Id, sponsor: Id, slot: Slot)
    requires Insertable(db, n, slot)
    ensures Consistent(Insert(db, n, sponsor, slot))
  {
    hide Shaped, PathsExact, ClosureExact, TotalsExact, TotalsExactFor, Relink, AdjustLegs, NewLegs, NewPath, LeafRow,
      LeafClosure, LinksOf;
    var after := Insert(db, n, sponsor, slot);
    assert after.closure == LeafClosure(db, n, slot.parent) && after.pv == db.pv;
    hide Insert;
    InsertRow(db, n, sponsor, slot, n);
    InsertLinks(db, n, sponsor, slot);
    InsertKeepsShape(db, n, sponsor, slot);
    InsertKeepsClosure(db, n, slot);
    var links := LinksOf(after.rows);
    forall a | a in after.rows ensures TotalsExactFor(links, after.pv, a, after.rows[a].totals) {
      TotalsAfterInsert(db, n, sponsor, slot, a);
    }
    ConsistentFromParts(after, links);
  }

  /* ----- Purchased PV ----- */

  // The event's PV is added to one leg of every ancestor, lifetime and current alike.
  function Credit(db: Db, d: Id, amount: int): Db
    requires d in db.rows
  {
    Db(AdjustLegs(db.rows, OldLegs(db, d), 0, amount), db.closure, db.pv[d := OwnPv(db.pv, d) + amount])
  }

  lemma {:induction false} SumPvUpdate(pv: map<Id, int>, s: set<Id>, d: Id, amount: int)
    ensures SumPv(pv[d := OwnPv(pv, d) + amount], s) == SumPv(pv, s) + If(d in s, amount)
    decreases |s|
  {
    var pv' := pv[d := OwnPv(pv, d) + amount];
    if e :| e in s {
      SumPvRemove(pv, s, e);
      SumPvRemove(pv', s, e);
      SumPvUpdate(pv, s - {e}, d, amount);
    }
  }

  lemma {:induction false} CreditRow(db: Db, d: Id, amount: int, a: Id)
    requires d in db.rows && a in db.rows
    ensures var rows := Credit(db, d, amount).rows;
            && rows.Keys == db.rows.Keys && LinksOf(rows) == LinksOf(db.rows) && DepthOf(rows) == DepthOf(db.rows)
            && rows[a] == db.rows[a].(totals := rows[a].totals)
            && rows[a].totals == (var legs := OldLegs(db, d);
                                  if a in legs then AddToLeg(db.rows[a].totals, legs[a], 0, amount)
                                      else db.rows[a].totals)
  {
    hide OldLegs, AddToLeg;
  }

  lemma {:induction false} SameStructure(rows: map<Id, Row>, rows': map<Id, Row>)
    requires Shaped(rows) && PathsExact(rows)
    requires LinksOf(rows) == LinksOf(rows') && DepthOf(rows) == DepthOf(rows') && rows.Keys == rows'.Keys
    requires forall a :: a in rows ==>
               rows'[a].link == rows[a].link && rows'[a].path == rows[a].path && rows'[a].depth == rows[a].depth
    ensures Shaped(rows') && PathsExact(rows')
  {
    hide Ranked, OneChildPerSlot;
  }

  lemma {:induction false} CreditKeepsConsistent(db: Db, d: Id, amount: int)
    requires Consistent(db) && d in db.rows
    ensures Consistent(Credit(db, d, amount))
    ensures LinksOf(Credit(db, d, amount).rows) == LinksOf(db.rows)
  {
    var after := Credit(db, d, amount);
    assert after.closure == db.closure && after.pv.Keys == db.pv.Keys + {d};
    hide Credit, Shaped, PathsExact, ClosureExact, TotalsExact, TotalsExactFor;
    CreditRow(db, d, amount, d);
    var links := LinksOf(after.rows);
    forall a | a in db.rows
      ensures after.rows[a].link == db.rows[a].link
      ensures after.rows[a].path == db.rows[a].path && after.rows[a].depth == db.rows[a].depth
      ensures TotalsExactFor(links, after.pv, a, after.rows[a].totals)
    {
      CreditRow(db, d, amount, a);
      TotalsAfterCredit(db, d, amount, a);
    }
    SameStructure(db.rows, after.rows);
    ConsistentFromParts(after, links);
  }

  lemma {:induction false} TotalsAfterCredit(db: Db, d: Id, amount: int, a: Id)
    requires Consistent(db) && d in db.rows && a in db.rows
    ensures var after := Credit(db, d, amount);
            && a in after.rows
            && TotalsExactFor(LinksOf(db.rows), after.pv, a, after.rows[a].totals)
  {
    hide Shaped, PathsExact, ClosureExact, TotalsExact, OldLegs, AdjustLegs, SumPv, InLeg;
    var links := LinksOf(db.rows);
    CreditRow(db, d, amount, a);
    TotalsOf(db, a);
    OldLegsAreTrue(db, d, a, L);
    OldLegsAreTrue(db, d, a, R);
    SumPvUpdate(db.pv, Leg(links, a, L), d, amount);
    SumPvUpdate(db.pv, Leg(links, a, R), d, amount);
  }
}
