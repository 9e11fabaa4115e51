/**
 * The tables behind the genealogy: affiliate rows with materialized path, depth and leg
 * totals, and the transitive closure. `Consistent` says that every derived column equals
 * what recomputation from the parent map gives.
 */
module TreeTables {
  import opened Prelude
  import opened TreeModel

  // A path step: a root's own label, or the side and id of a child.
  datatype Label = RootLabel(id: Id) | SideLabel(side: Side, id: Id)

  datatype Totals = Totals(
    leftCount: int, rightCount: int, leftPv: int, rightPv: int, leftCurrent: int, rightCurrent: int)

  datatype Row = Row(
    link: Option<Link>, sponsor: Option<Id>, path: seq<Label>, depth: int, totals: Totals, active: bool)

  // closure[(a, d)] is the distance from ancestor a down to d. pv is each affiliate's own
  // total over its events.
  datatype Db = Db(rows: map<Id, Row>, closure: map<(Id, Id), int>, pv: map<Id, int>)

  function LinksOf(rows: map<Id, Row>): Links { map d | d in rows :: rows[d].link }

  function DepthOf(rows: map<Id, Row>): map<Id, int> { map d | d in rows :: rows[d].depth }

  function OwnPv(pv: map<Id, int>, d: Id): int { if d in pv then pv[d] else 0 }

  ghost function SumPv(pv: map<Id, int>, s: set<Id>): int {
    if exists d :: d in s then
      var d :| d in s;
      OwnPv(pv, d) + SumPv(pv, s - {d})
    else 0
  }

  lemma {:induction false} SumPvRemove(pv: map<Id, int>, s: set<Id>, d: Id)
    requires d in s
    ensures SumPv(pv, s) == OwnPv(pv, d) + SumPv(pv, s - {d})
    decreases |s|
  {
    var e :| e in s && SumPv(pv, s) == OwnPv(pv, e) + SumPv(pv, s - {e});
    if e != d {
      SumPvRemove(pv, s - {e}, d);
      SumPvRemove(pv, s - {d}, e);
      assert s - {e} - {d} == s - {d} - {e};
    }
  }

  lemma {:induction false} SumPvUnion(pv: map<Id, int>, s: set<Id>, u: set<Id>)
    requires s !! u
    ensures SumPv(pv, s + u) == SumPv(pv, s) + SumPv(pv, u)
    decreases |u|
  {
    if exists d :: d in u {
      var d :| d in u;
      SumPvRemove(pv, u, d);
      SumPvRemove(pv, s + u, d);
      SumPvUnion(pv, s, u - {d});
      assert (s + u) - {d} == s + (u - {d});
    } else {
      assert s + u == s;
    }
  }

  lemma {:induction false} SumPvNonNegative(pv: map<Id, int>, s: set<Id>)
    requires forall d :: d in pv ==> 0 <= pv[d]
    ensures 0 <= SumPv(pv, s)
    decreases |s|
  {
    if exists d :: d in s {
      var d :| d in s;
      SumPvRemove(pv, s, d);
      SumPvNonNegative(pv, s - {d});
    }
  }

  /* ----- Consistency ----- */

  ghost predicate Shaped(rows: map<Id, Row>) {
    && Ranked(LinksOf(rows), DepthOf(rows))
    && OneChildPerSlot(LinksOf(rows))
    && forall d :: d in rows ==> 0 <= rows[d].depth && (rows[d].link.None? ==> rows[d].depth == 0)
  }

  ghost predicate PathsExact(rows: map<Id, Row>) {
    forall d :: d in rows ==>
      match rows[d].link
      case None => rows[d].path == [RootLabel(d)]
      case Some(l) => l.parent in rows && rows[d].path == rows[l.parent].path + [SideLabel(l.side, d)]
  }

  ghost predicate ClosureExact(links: Links, closure: map<(Id, Id), int>) {
    && (forall a, d :: (a, d) in closure ==>
          d in links && 0 <= closure[(a, d)] && Anc(links, d, closure[(a, d)]) == Some(a))
    && (forall a, d, k: nat :: d in links && Anc(links, d, k) == Some(a) ==> (a, d) in closure)
  }

  ghost predicate TotalsExactFor(links: Links, pv: map<Id, int>, a: Id, t: Totals) {
    && t.leftCount == |Leg(links, a, L)|
    && t.rightCount == |Leg(links, a, R)|
    && t.leftPv == SumPv(pv, Leg(links, a, L))
    && t.rightPv == SumPv(pv, Leg(links, a, R))
  }

  ghost predicate TotalsExact(rows: map<Id, Row>, pv: map<Id, int>) {
    forall a :: a in rows ==> TotalsExactFor(LinksOf(rows), pv, a, rows[a].totals)
  }

  ghost predicate Consistent(db: Db) {
    && Shaped(db.rows)
    && PathsExact(db.rows)
    && ClosureExact(LinksOf(db.rows), db.closure)
    && TotalsExact(db.rows, db.pv)
    && db.pv.Keys <= db.rows.Keys
  }

  lemma {:induction false} ClosureMeansBelow(db: Db, a: Id, d: Id)
    requires ClosureExact(LinksOf(db.rows), db.closure)
    ensures (a, d) in db.closure <==> d in db.rows && Below(LinksOf(db.rows), a, d)
  {
    var links := LinksOf(db.rows);
    if d in db.rows && Below(links, a, d) {
      var k: nat :| Anc(links, d, k) == Some(a);
    }
  }

  lemma {:induction false} AncestorsAreRows(rows: map<Id, Row>, d: Id, k: nat)
    requires Shaped(rows) && d in rows && Anc(LinksOf(rows), d, k).Some?
    ensures Anc(LinksOf(rows), d, k).value in rows
    ensures rows[Anc(LinksOf(rows), d, k).value].depth == rows[d].depth - k
  {
    AncIsRanked(LinksOf(rows), DepthOf(rows), d, k);
  }

  lemma {:induction false} PathLength(rows: map<Id, Row>, d: Id)
    requires Shaped(rows) && PathsExact(rows) && d in rows
    ensures |rows[d].path| == rows[d].depth + 1
    decreases rows[d].depth
  {
    if rows[d].link.Some? {
      var p := rows[d].link.value.parent;
      assert DepthOf(rows)[d] == DepthOf(rows)[p] + 1 by { assert LinksOf(rows)[d].Some?; }
      PathLength(rows, p);
    }
  }

  // The path of an ancestor is a prefix of the path.
  lemma {:induction false} PathPrefix(rows: map<Id, Row>, d: Id, k: nat)
    requires Shaped(rows) && PathsExact(rows) && d in rows && Anc(LinksOf(rows), d, k).Some?
    ensures Anc(LinksOf(rows), d, k).value in rows
    ensures var c := Anc(LinksOf(rows), d, k).value;
            |rows[c].path| == |rows[d].path| - k && rows[c].path == rows[d].path[..|rows[c].path|]
    decreases k
  {
    if k > 0 {
      var p := rows[d].link.value.parent;
      PathPrefix(rows, p, k - 1);
    }
  }

  /* ----- Legs read off paths ----- */

  // The side of a path at one level; a missing or root label reads as R, as in the queries.
  function SideAt(path: seq<Label>, level: int): Side {
    if 0 <= level < |path| && path[level].SideLabel? && path[level].side == L then L else R
  }

  lemma {:induction false} PrefixAt<T>(p: seq<T>, q: seq<T>, i: int)
    requires |p| <= |q| && p == q[..|p|] && 0 <= i < |p|
    ensures q[i] == p[i]
  {
  }

  // The last label of a child's path, one level below its parent.
  lemma {:induction false} OwnLabel(rows: map<Id, Row>, a: Id, side: Side, c: Id)
    requires Shaped(rows) && PathsExact(rows) && a in rows && c in rows && rows[c].link == Some(Link(a, side))
    ensures |rows[c].path| == rows[a].depth + 2
    ensures rows[c].path[rows[a].depth + 1] == SideLabel(side, c)
  {
    PathLength(rows, a);
  }

  // The label one level below an ancestor names the leg.
  lemma {:induction false} PathNamesLeg(rows: map<Id, Row>, a: Id, d: Id, side: Side)
    requires Shaped(rows) && PathsExact(rows) && a in rows && d in rows
    requires InLeg(LinksOf(rows), a, side, d)
    ensures SideAt(rows[d].path, rows[a].depth + 1) == side
    ensures rows[a].depth + 1 < |rows[d].path|
    ensures rows[d].path[rows[a].depth + 1].SideLabel?
  {
    var k: nat :| InLegAt(LinksOf(rows), a, side, d, k);
    var c := Anc(LinksOf(rows), d, k).value;
    PathPrefix(rows, d, k);
    OwnLabel(rows, a, side, c);
    hide Shaped, PathsExact;
    PrefixAt(rows[c].path, rows[d].path, rows[a].depth + 1);
  }
}
