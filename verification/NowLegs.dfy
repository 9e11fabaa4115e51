/** Which sales stand in a leg, told by the chain of parents, and when the volumes can be filled. */
module NowLegs {
  import opened Prelude
  import opened FifoSlices
  import opened NowVolumes

  // The member k levels above, as far as members are known and have a parent.
  function Above(members: Members, c: int, k: nat): Option<int>
    decreases k
  {
    if k == 0 then Some(c)
    else if c !in members || members[c].parent == 0 then None
    else Above(members, members[c].parent, k - 1)
  }

  // k levels above c is a member that is a child of a on this side.
  predicate ReachesAt(members: Members, c: int, a: int, side: Side, k: nat) {
    match Above(members, c, k)
    case None => false
    case Some(x) => a != 0 && x in members && members[x].parent == a && members[x].side == Some(side)
  }

  lemma {:induction false} HangsIff(members: Members, c: int, a: int, side: Side, depth: nat)
    ensures Hangs(members, c, a, side, depth) <==> exists k: nat :: k < depth && ReachesAt(members, c, a, side, k)
    decreases depth
  {
    if depth > 0 && c in members && members[c].parent != 0 {
      var p := members[c].parent;
      HangsIff(members, p, a, side, depth - 1);
      assert p == a && members[c].side == Some(side) ==> ReachesAt(members, c, a, side, 0);
      if k: nat :| k < depth - 1 && ReachesAt(members, p, a, side, k) { assert ReachesAt(members, c, a, side, k + 1); }
      if k: nat :| k < depth && ReachesAt(members, c, a, side, k) {
        if k > 0 { assert ReachesAt(members, p, a, side, k - 1); }
      }
    }
  }

  /**
   * A leg holds exactly the sales before the end, under their own numbers, whose buyers reach
   * the ancestor on that side within ten levels.
   */
  lemma {:induction false} LegIff(members: Members, sales: seq<Sale>, end: int, a: int, side: Side, lot: Lot)
    ensures lot in LegLots(members, sales, end, a, side) <==>
            && 1 <= lot.sequence <= |sales|
            && var s := sales[lot.sequence - 1];
               && s.activated < end && SourceOf(s) == Ok(lot.source)
               && exists k: nat :: k < 10 && ReachesAt(members, s.affiliate, a, side, k)
    decreases |sales|
  {
    hide SourceOf, Hangs, ReachesAt;
    if sales != [] {
      var n := |sales| - 1;
      LegIff(members, sales[..n], end, a, side, lot);
      HangsIff(members, sales[n].affiliate, a, side, 10);
      if 1 <= lot.sequence <= n { assert sales[..n][lot.sequence - 1] == sales[lot.sequence - 1]; }
    }
  }

  // Every member with a parent, from c up over this many levels, has a side.
  ghost predicate SidesKnown(members: Members, c: int, depth: nat) {
    forall k: nat :: k < depth && SomeParent(members, Above(members, c, k)) ==>
      members[Above(members, c, k).value].side.Some?
  }

  predicate SomeParent(members: Members, c: Option<int>) {
    c.Some? && c.value in members && members[c.value].parent != 0
  }

  lemma {:induction false} ClimbsIff(vs: Volumes, members: Members, c: int, lot: Lot, depth: nat)
    ensures Climb(vs, members, c, lot, depth).Ok? <==> SidesKnown(members, c, depth)
    decreases depth
  {
    if depth > 0 && c in members && members[c].parent != 0 {
      var n := members[c];
      assert SomeParent(members, Above(members, c, 0));
      if n.side.Some? {
        var vs' := vs[n.parent := Added(VolumeAt(vs, n.parent), n.side.value, lot)];
        ClimbsIff(vs', members, n.parent, lot, depth - 1);
        assert forall k: nat :: 0 < k ==> Above(members, c, k) == Above(members, n.parent, k - 1);
        if SidesKnown(members, c, depth) {
          forall k: nat | k < depth - 1 && SomeParent(members, Above(members, n.parent, k))
            ensures members[Above(members, n.parent, k).value].side.Some?
          {
            assert Above(members, c, k + 1) == Above(members, n.parent, k);
          }
        }
      }
    } else if depth > 0 {
      assert forall k: nat :: 0 < k ==> Above(members, c, k).None?;
    }
  }

  /** The volumes of a week can be filled exactly if its sales are genuine and all sides known. */
  lemma {:induction false} CollectsIff(members: Members, sales: seq<Sale>, end: int)
    ensures Collect(members, sales, end).Ok? <==>
            forall n :: 0 <= n < |sales| && sales[n].activated < end ==>
              SourceOf(sales[n]).Ok? && SidesKnown(members, sales[n].affiliate, 10)
    decreases |sales|
  {
    hide SourceOf, Climb, SidesKnown;
    if sales != [] {
      var n := |sales| - 1;
      CollectsIff(members, sales[..n], end);
      assert forall i :: 0 <= i < n ==> sales[..n][i] == sales[i];
      var before := Collect(members, sales[..n], end);
      if before.Ok? && sales[n].activated < end && SourceOf(sales[n]).Ok? {
        ClimbsIff(before.value, members, sales[n].affiliate, Lot(SourceOf(sales[n]).value, |sales|), 10);
      }
    }
  }
}
