/** Activation order: sorting a leg's lots by their immutable sequence numbers. */
module LotOrder {
  import opened FifoSlices

  ghost predicate Sorted(lots: seq<Lot>) {
    forall i, j :: 0 <= i < j < |lots| ==> lots[i].sequence < lots[j].sequence
  }

  ghost predicate DistinctSequences(lots: seq<Lot>) {
    forall i, j :: 0 <= i < j < |lots| ==> lots[i].sequence != lots[j].sequence
  }

  function Insert(lot: Lot, lots: seq<Lot>): seq<Lot> {
    if lots == [] || lot.sequence <= lots[0].sequence then [lot] + lots
    else [lots[0]] + Insert(lot, lots[1..])
  }

  function Sort(lots: seq<Lot>): seq<Lot> {
    if lots == [] then [] else Insert(lots[0], Sort(lots[1..]))
  }

  lemma {:induction false} InsertIsPermutation(lot: Lot, lots: seq<Lot>)
    ensures multiset(Insert(lot, lots)) == multiset{lot} + multiset(lots)
  {
    if lots != [] && lot.sequence > lots[0].sequence {
      assert lots == [lots[0]] + lots[1..];
      InsertIsPermutation(lot, lots[1..]);
    }
  }

  lemma {:induction false} SortIsPermutation(lots: seq<Lot>)
    ensures multiset(Sort(lots)) == multiset(lots)
    ensures |Sort(lots)| == |lots|
  {
    if lots != [] {
      assert lots == [lots[0]] + lots[1..];
      SortIsPermutation(lots[1..]);
      InsertIsPermutation(lots[0], Sort(lots[1..]));
    }
    assert |multiset(Sort(lots))| == |Sort(lots)| && |multiset(lots)| == |lots|;
  }

  lemma {:induction false} SameElements(a: seq<Lot>, b: seq<Lot>, lot: Lot)
    requires multiset(a) == multiset(b)
    ensures lot in a <==> lot in b
  {
    assert lot in a <==> lot in multiset(a);
    assert lot in b <==> lot in multiset(b);
  }

  lemma {:induction false} ConsIsSorted(lot: Lot, rest: seq<Lot>)
    requires Sorted(rest)
    requires forall x :: x in rest ==> lot.sequence < x.sequence
    ensures Sorted([lot] + rest)
  {
    var all := [lot] + rest;
    forall i, j | 0 <= i < j < |all| ensures all[i].sequence < all[j].sequence {
      assert all[j] == rest[j - 1];
      if i > 0 { assert all[i] == rest[i - 1]; }
    }
  }

  lemma {:induction false} InsertKeepsSorted(lot: Lot, lots: seq<Lot>)
    requires Sorted(lots)
    requires forall x :: x in lots ==> x.sequence != lot.sequence
    ensures Sorted(Insert(lot, lots))
  {
    if lots == [] || lot.sequence <= lots[0].sequence {
      forall x | x in lots ensures lot.sequence < x.sequence { assert lots[0] in lots; }
      ConsIsSorted(lot, lots);
    } else {
      var rest := lots[1..];
      InsertKeepsSorted(lot, rest);
      InsertIsPermutation(lot, rest);
      forall x | x in Insert(lot, rest) ensures lots[0].sequence < x.sequence {
        assert x in multiset(Insert(lot, rest));
        assert x == lot || x in rest;
      }
      ConsIsSorted(lots[0], Insert(lot, rest));
    }
  }

  lemma {:induction false} SortSorts(lots: seq<Lot>)
    requires DistinctSequences(lots)
    ensures Sorted(Sort(lots))
  {
    if lots != [] {
      var rest := lots[1..];
      assert DistinctSequences(rest);
      SortSorts(rest);
      SortIsPermutation(rest);
      forall x | x in Sort(rest) ensures x.sequence != lots[0].sequence {
        SameElements(Sort(rest), rest, x);
        var k :| 0 <= k < |rest| && rest[k] == x;
        assert lots[k + 1] == x;
      }
      InsertKeepsSorted(lots[0], Sort(rest));
    }
  }

  lemma {:induction false} SameFirst(a: seq<Lot>, b: seq<Lot>)
    requires Sorted(a) && Sorted(b) && multiset(a) == multiset(b) && a != []
    ensures b != [] && a[0] == b[0]
  {
    SameElements(a, b, a[0]);
    assert a[0] in b;
    SameElements(a, b, b[0]);
    var i :| 0 <= i < |a| && a[i] == b[0];
    var j :| 0 <= j < |b| && b[j] == a[0];
  }

  lemma {:induction false} WithoutFirst(a: seq<Lot>)
    requires a != []
    ensures multiset(a[1..]) == multiset(a) - multiset{a[0]}
  {
    assert a == [a[0]] + a[1..];
  }

  // A set of lots has only one sorted listing, so it does not matter which sorting
  // algorithm the library uses or in what order the caller lists the lots.
  lemma {:induction false} SortedIsUnique(a: seq<Lot>, b: seq<Lot>)
    requires Sorted(a) && Sorted(b) && multiset(a) == multiset(b)
    ensures a == b
  {
    if a == [] {
      if b != [] { SameFirst(b, a); }
    } else {
      SameFirst(a, b);
      WithoutFirst(a);
      WithoutFirst(b);
      SortedIsUnique(a[1..], b[1..]);
      assert a == [a[0]] + a[1..] && b == [b[0]] + b[1..];
    }
  }

  // New lots that all come later in activation order end up behind the old ones.
  lemma {:induction false} SortOfGrowth(before: seq<Lot>, added: seq<Lot>, now: seq<Lot>)
    requires DistinctSequences(now)
    requires multiset(now) == multiset(before) + multiset(added)
    requires forall x, y :: x in before && y in added ==> x.sequence < y.sequence
    requires DistinctSequences(before) && DistinctSequences(added)
    ensures Sort(now) == Sort(before) + Sort(added)
  {
    var a, b := Sort(before), Sort(added);
    SortSorts(before);
    SortSorts(added);
    SortSorts(now);
    SortIsPermutation(before);
    SortIsPermutation(added);
    SortIsPermutation(now);
    var all: seq<Lot> := a + b;
    forall i, j | 0 <= i < j < |all| ensures all[i].sequence < all[j].sequence {
      if i < |a| && j >= |a| {
        SameElements(a, before, all[i]);
        SameElements(b, added, all[j]);
      }
    }
    assert multiset(all) == multiset(a) + multiset(b);
    SortedIsUnique(Sort(now), all);
  }
}
