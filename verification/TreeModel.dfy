/**
 * Binary genealogy: the parent map is the truth; everything else is derived from it.
 */
module TreeModel {
  import opened Prelude

  type Id = int

  datatype Link = Link(parent: Id, side: Side)

  // Who hangs where. A root has no link.
  type Links = map<Id, Option<Link>>

  function Up(links: Links, d: Id): Option<Id> {
    if d in links && links[d].Some? then Some(links[d].value.parent) else None
  }

  // The ancestor k levels above d.
  function Anc(links: Links, d: Id, k: nat): Option<Id>
    decreases k
  {
    if k == 0 then Some(d)
    else if Up(links, d).None? then None
    else Anc(links, Up(links, d).value, k - 1)
  }

  ghost predicate Below(links: Links, a: Id, d: Id) {
    exists k: nat :: Anc(links, d, k) == Some(a)
  }

  // Depths that grow by one along every link; they rule out cycles.
  ghost predicate Ranked(links: Links, depth: map<Id, int>) {
    && depth.Keys == links.Keys
    && forall d :: d in links && links[d].Some? ==>
         links[d].value.parent in links && depth[d] == depth[links[d].value.parent] + 1
  }

  ghost predicate OneChildPerSlot(links: Links) {
    forall c, d :: c in links && d in links && links[c].Some? && links[c] == links[d] ==> c == d
  }

  ghost function Subtree(links: Links, a: Id): set<Id> {
    set d | d in links && Below(links, a, d)
  }

  // d hangs in the `side` leg of a: k levels up from d stands a's child on that side.
  ghost predicate InLegAt(links: Links, a: Id, side: Side, d: Id, k: nat) {
    Anc(links, d, k).Some?
    && var c := Anc(links, d, k).value;
       c in links && links[c] == Some(Link(a, side))
  }

  ghost predicate InLeg(links: Links, a: Id, side: Side, d: Id) {
    exists k: nat :: InLegAt(links, a, side, d, k)
  }

  ghost function Leg(links: Links, a: Id, side: Side): set<Id> {
    set d | d in links && InLeg(links, a, side, d)
  }

  /* ----- Ancestors ----- */

  lemma {:induction false} AncCompose(links: Links, d: Id, i: nat, k: nat)
    requires Anc(links, d, i).Some?
    ensures Anc(links, d, i + k) == Anc(links, Anc(links, d, i).value, k)
    decreases i
  {
    if i > 0 { AncCompose(links, Up(links, d).value, i - 1, k); }
  }

  lemma {:induction false} AncIsRanked(links: Links, depth: map<Id, int>, d: Id, k: nat)
    requires Ranked(links, depth) && d in links && Anc(links, d, k).Some?
    ensures Anc(links, d, k).value in links
    ensures depth[Anc(links, d, k).value] == depth[d] - k
    decreases k
  {
    if k > 0 { AncIsRanked(links, depth, Up(links, d).value, k - 1); }
  }

  // In a ranked tree a node has at most one distance to an ancestor.
  lemma {:induction false} DistanceIsUnique(links: Links, depth: map<Id, int>, d: Id, i: nat, k: nat)
    requires Ranked(links, depth) && d in links
    requires Anc(links, d, i).Some? && Anc(links, d, i) == Anc(links, d, k)
    ensures i == k
  {
    AncIsRanked(links, depth, d, i);
    AncIsRanked(links, depth, d, k);
  }

  lemma {:induction false} BelowIsTransitive(links: Links, a: Id, b: Id, d: Id)
    requires Below(links, a, b) && Below(links, b, d)
    ensures Below(links, a, d)
  {
    var i: nat :| Anc(links, d, i) == Some(b);
    var k: nat :| Anc(links, b, k) == Some(a);
    AncCompose(links, d, i, k);
  }

  // Two ancestors of one node are on one line.
  lemma {:induction false} AncestorsAreComparable(links: Links, a: Id, b: Id, d: Id)
    requires Below(links, a, d) && Below(links, b, d)
    ensures Below(links, a, b) || Below(links, b, a)
  {
    var i: nat :| Anc(links, d, i) == Some(a);
    var k: nat :| Anc(links, d, k) == Some(b);
    if i <= k {
      AncCompose(links, d, i, k - i);
    } else {
      AncCompose(links, d, k, i - k);
    }
  }

  lemma {:induction false} InLegIsBelow(links: Links, a: Id, side: Side, d: Id)
    requires InLeg(links, a, side, d)
    ensures Below(links, a, d)
  {
    var k: nat :| InLegAt(links, a, side, d, k);
    var c := Anc(links, d, k).value;
    assert Anc(links, c, 1) == Some(a) by { assert Anc(links, a, 0) == Some(a); }
    AncCompose(links, d, k, 1);
  }

  // A proper descendant hangs in one of the two legs, and only in one.
  lemma {:induction false} LegsPartition(links: Links, depth: map<Id, int>, a: Id, d: Id)
    requires Ranked(links, depth) && d in links && a != d && Below(links, a, d)
    ensures InLeg(links, a, L, d) || InLeg(links, a, R, d)
  {
    var k: nat :| Anc(links, d, k) == Some(a);
    var c := AncBefore(links, d, k);
    AncIsRanked(links, depth, d, k - 1);
    if links[c].value.side == L {
      assert InLegAt(links, a, L, d, k - 1);
    } else {
      assert InLegAt(links, a, R, d, k - 1);
    }
  }

  lemma {:induction false} AncBefore(links: Links, d: Id, k: nat) returns (c: Id)
    requires 0 < k && Anc(links, d, k).Some?
    ensures Anc(links, d, k - 1) == Some(c) && Up(links, c) == Anc(links, d, k)
    decreases k
  {
    var p := Up(links, d).value;
    assert Anc(links, d, k) == Anc(links, p, k - 1);
    if k == 1 {
      c := d;
    } else {
      c := AncBefore(links, p, k - 1);
      assert Anc(links, d, k - 1) == Anc(links, p, k - 2);
    }
  }

  lemma {:induction false} LegIsUnique(links: Links, depth: map<Id, int>, a: Id, side: Side, side': Side, d: Id)
    requires Ranked(links, depth) && d in links
    requires InLeg(links, a, side, d) && InLeg(links, a, side', d)
    ensures side == side'
  {
    var i: nat :| InLegAt(links, a, side, d, i);
    var k: nat :| InLegAt(links, a, side', d, k);
    AncIsRanked(links, depth, d, i);
    AncIsRanked(links, depth, d, k);
  }

  /* ----- Relinking one subtree ----- */

  function Relink(links: Links, t: Id, parent: Id, side: Side): Links {
    links[t := Some(Link(parent, side))]
  }

  // Outside the moved subtree nothing changes.
  lemma {:induction false} RelinkOutside(links: Links, t: Id, parent: Id, side: Side, d: Id, k: nat)
    requires !Below(links, t, d)
    ensures Anc(Relink(links, t, parent, side), d, k) == Anc(links, d, k)
    decreases k
  {
    assert d != t by { assert Anc(links, d, 0) == Some(d); }
    if k > 0 && Up(links, d).Some? {
      var p := Up(links, d).value;
      if Below(links, t, p) {
        var i: nat :| Anc(links, p, i) == Some(t);
        assert Anc(links, d, i + 1) == Some(t);
      }
      RelinkOutside(links, t, parent, side, p, k - 1);
    }
  }

  // Up to the root of the moved subtree nothing changes.
  lemma {:induction false} RelinkInside(
      links: Links, depth: map<Id, int>, t: Id, parent: Id, side: Side, d: Id, j: nat, k: nat)
    requires Ranked(links, depth) && d in links && Anc(links, d, j) == Some(t) && k <= j
    ensures Anc(Relink(links, t, parent, side), d, k) == Anc(links, d, k)
    decreases k
  {
    if k > 0 {
      AncIsRanked(links, depth, d, j);
      assert d != t;
      var p := Up(links, d).value;
      assert Anc(links, p, j - 1) == Anc(links, d, j);
      RelinkInside(links, depth, t, parent, side, p, j - 1, k - 1);
    }
  }

  // Above the root of the moved subtree stand the new parent and its ancestors.
  lemma {:induction false} RelinkAbove(
      links: Links, depth: map<Id, int>, t: Id, parent: Id, side: Side, d: Id, j: nat, i: nat)
    requires Ranked(links, depth) && d in links && Anc(links, d, j) == Some(t)
    requires !Below(links, t, parent)
    ensures Anc(Relink(links, t, parent, side), d, j + 1 + i) == Anc(links, parent, i)
  {
    var links' := Relink(links, t, parent, side);
    RelinkInside(links, depth, t, parent, side, d, j, j);
    AncCompose(links', d, j, 1 + i);
    RelinkOutside(links, t, parent, side, parent, i);
    assert Anc(links', t, 1 + i) == Anc(links', parent, i);
  }

  /* ----- Legs after a relinking ----- */

  lemma {:induction false} NotBelowAbove(links: Links, t: Id, d: Id, a: Id)
    requires !Below(links, t, d) && Below(links, a, d)
    ensures !Below(links, t, a)
  {
    if Below(links, t, a) { BelowIsTransitive(links, t, a, d); }
  }

  // Nodes outside the moved subtree stay in the legs they were in.
  lemma {:induction false} LegOutside(links: Links, t: Id, parent: Id, side: Side, a: Id, s: Side, d: Id)
    requires !Below(links, t, d)
    ensures InLeg(Relink(links, t, parent, side), a, s, d) <==> InLeg(links, a, s, d)
  {
    var links' := Relink(links, t, parent, side);
    if InLeg(links', a, s, d) {
      var k: nat :| InLegAt(links', a, s, d, k);
      RelinkOutside(links, t, parent, side, d, k);
      assert InLegAt(links, a, s, d, k);
    }
    if InLeg(links, a, s, d) {
      var k: nat :| InLegAt(links, a, s, d, k);
      RelinkOutside(links, t, parent, side, d, k);
      assert InLegAt(links', a, s, d, k);
    }
  }

  lemma {:induction false} EnteredBelow(links: Links, t: Id, a: Id, s: Side, d: Id, j: nat, k: nat)
    requires Anc(links, d, j) == Some(t) && k < j && InLegAt(links, a, s, d, k)
    ensures Below(links, t, a)
  {
    AncCompose(links, d, k, j - k);
    assert Anc(links, a, j - k - 1) == Some(t);
  }

  // Seen from outside, the moved nodes were where their root was ...
  lemma {:induction false} LegOfMovedBefore(links: Links, t: Id, a: Id, s: Side, d: Id, j: nat)
    requires !Below(links, t, a) && Anc(links, d, j) == Some(t)
    ensures InLeg(links, a, s, d) <==> InLeg(links, a, s, t)
  {
    if InLeg(links, a, s, d) {
      var k: nat :| InLegAt(links, a, s, d, k);
      if k < j {
        EnteredBelow(links, t, a, s, d, j, k);
      } else {
        AncCompose(links, d, j, k - j);
        assert InLegAt(links, a, s, t, k - j);
      }
    }
    if InLeg(links, a, s, t) {
      var k: nat :| InLegAt(links, a, s, t, k);
      AncCompose(links, d, j, k);
      assert InLegAt(links, a, s, d, j + k);
    }
  }

  // ... and are now where the new slot is.
  lemma {:induction false} LegOfMovedAfter(
      links: Links, depth: map<Id, int>, t: Id, parent: Id, side: Side, a: Id, s: Side, d: Id, j: nat)
    requires Ranked(links, depth) && t in links && d in links
    requires !Below(links, t, a) && !Below(links, t, parent) && Anc(links, d, j) == Some(t)
    ensures InLeg(Relink(links, t, parent, side), a, s, d) <==>
            (a == parent && s == side) || InLeg(links, a, s, parent)
  {
    var links' := Relink(links, t, parent, side);
    if InLeg(links', a, s, d) {
      var k: nat :| InLegAt(links', a, s, d, k);
      if k > j {
        RelinkAbove(links, depth, t, parent, side, d, j, k - j - 1);
        NotMovedAbove(links, t, parent, k - j - 1);
        assert InLegAt(links, a, s, parent, k - j - 1);
      } else if k < j {
        ShortOfRoot(links, depth, t, parent, side, a, s, d, j, k);
      } else {
        RelinkInside(links, depth, t, parent, side, d, j, k);
      }
    }
    if a == parent && s == side {
      RelinkInside(links, depth, t, parent, side, d, j, j);
      assert InLegAt(links', a, s, d, j);
    }
    if InLeg(links, a, s, parent) {
      var i: nat :| InLegAt(links, a, s, parent, i);
      RelinkAbove(links, depth, t, parent, side, d, j, i);
      NotMovedAbove(links, t, parent, i);
      assert InLegAt(links', a, s, d, j + 1 + i);
    }
  }

  lemma {:induction false} NotMovedAbove(links: Links, t: Id, d: Id, i: nat)
    requires !Below(links, t, d)
    ensures Anc(links, d, i) != Some(t)
  {
  }

  // A leg entered before the root of the moved subtree belongs to a moved node.
  lemma {:induction false} ShortOfRoot(
      links: Links, depth: map<Id, int>, t: Id, parent: Id, side: Side, a: Id, s: Side, d: Id, j: nat, k: nat)
    requires Ranked(links, depth) && d in links && Anc(links, d, j) == Some(t) && k < j
    requires InLegAt(Relink(links, t, parent, side), a, s, d, k)
    ensures InLegAt(links, a, s, d, k) && Below(links, t, a)
  {
    RelinkInside(links, depth, t, parent, side, d, j, k);
    AncIsRanked(links, depth, d, k);
    AncIsRanked(links, depth, d, j);
    AncCompose(links, d, k, j - k);
    assert Anc(links, a, j - k - 1) == Some(t);
  }

  // Inside the moved subtree every leg keeps its nodes.
  lemma {:induction false} LegInside(
      links: Links, depth: map<Id, int>, t: Id, parent: Id, side: Side, a: Id, s: Side, d: Id)
    requires Ranked(links, depth) && t in links && d in links
    requires Below(links, t, a) && !Below(links, t, parent)
    ensures InLeg(Relink(links, t, parent, side), a, s, d) <==> InLeg(links, a, s, d)
  {
    var links' := Relink(links, t, parent, side);
    if !Below(links, t, d) {
      LegOutside(links, t, parent, side, a, s, d);
    } else {
      var j: nat :| Anc(links, d, j) == Some(t);
      if InLeg(links', a, s, d) {
        var k: nat :| InLegAt(links', a, s, d, k);
        if k >= j {
          AncAtOrAboveParent(links, depth, t, parent, side, a, s, d, j, k);
          NotBelowAbove(links, t, parent, a);
        } else {
          ShortOfRoot(links, depth, t, parent, side, a, s, d, j, k);
        }
      }
      if InLeg(links, a, s, d) {
        var k: nat :| InLegAt(links, a, s, d, k);
        var i: nat :| Anc(links, a, i) == Some(t);
        AncCompose(links, d, k, 1 + i);
        assert Anc(links, Anc(links, d, k).value, 1 + i) == Anc(links, a, i);
        DistanceIsUnique(links, depth, d, j, k + 1 + i);
        RelinkInside(links, depth, t, parent, side, d, j, k);
        AncIsRanked(links, depth, d, k);
        AncIsRanked(links, depth, d, j);
        assert InLegAt(links', a, s, d, k);
      }
    }
  }

  lemma {:induction false} AncAtOrAboveParent(
      links: Links, depth: map<Id, int>, t: Id, parent: Id, side: Side, a: Id, s: Side, d: Id, j: nat, k: nat)
    requires Ranked(links, depth) && t in links && d in links && !Below(links, t, parent)
    requires Anc(links, d, j) == Some(t) && j <= k
    requires InLegAt(Relink(links, t, parent, side), a, s, d, k)
    ensures Below(links, a, parent)
  {
    if k == j {
      RelinkInside(links, depth, t, parent, side, d, j, j);
      assert Anc(links, parent, 0) == Some(a);
    } else {
      RelinkAbove(links, depth, t, parent, side, d, j, k - j - 1);
      NotMovedAbove(links, t, parent, k - j - 1);
      AncCompose(links, parent, k - j - 1, 1);
      var c := Anc(links, parent, k - j - 1).value;
      assert Anc(links, c, 1) == Some(a) by { assert Anc(links, a, 0) == Some(a); }
    }
  }
}
