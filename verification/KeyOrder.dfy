/**
 * The order in which object keys are signed: array indices numerically first, every other key
 * by UTF-16 code units. It is a strict total order.
 */
module KeyOrder {
  import opened Prelude
  import opened Digits
  import opened CanonicalNumber

  const INDEX_LIMIT := 4_294_967_295

  // The array index a key spells, if it spells one in its only form.
  function Index(key: string): Option<nat> {
    if key != [] && AllDigits(key) && (key[0] == '0' ==> |key| == 1) && NatOf(key) < INDEX_LIMIT
    then Some(NatOf(key)) else None
  }

  // UTF-16 code units of one character.
  function UnitsOf(c: char): seq<int> {
    var n := c as int;
    if n < 0x1_0000 then [n]
    else [0xD800 + (n - 0x1_0000) / 0x400, 0xDC00 + (n - 0x1_0000) % 0x400]
  }

  function Units(key: string): seq<int> {
    if key == [] then [] else UnitsOf(key[0]) + Units(key[1..])
  }

  predicate UnitsLess(a: seq<int>, b: seq<int>) {
    if a == [] || b == [] then a == [] && b != []
    else if a[0] != b[0] then a[0] < b[0]
    else UnitsLess(a[1..], b[1..])
  }

  predicate KeyLess(a: string, b: string) {
    var i, j := Index(a), Index(b);
    if i.Some? || j.Some? then i.Some? && (j.Some? ==> i.value < j.value)
    else UnitsLess(Units(a), Units(b))
  }

  lemma {:induction false} SameHead(a: seq<int>, b: seq<int>, k: nat)
    requires 0 < k <= |a| && k <= |b| && a[..k] == b[..k]
    ensures a[0] == b[0]
  {
    assert a[..k][0] == a[0] && b[..k][0] == b[0];
  }

  lemma {:induction false} UnitsLessIs(a: seq<int>, b: seq<int>)
    ensures UnitsLess(a, b) <==> exists k :: 0 <= k <= |a| && k < |b| && a[..k] == b[..k] && (k == |a| || a[k] < b[k])
  {
    if a == [] || b == [] || a[0] != b[0] {
      if b != [] && (a == [] || a[0] < b[0]) { assert a[..0] == b[..0]; }
      if k :| 0 <= k <= |a| && k < |b| && a[..k] == b[..k] && (k == |a| || a[k] < b[k]) {
        if k > 0 { SameHead(a, b, k); }
      }
    } else {
      var x, y := a[1..], b[1..];
      UnitsLessIs(x, y);
      if k :| 0 <= k <= |x| && k < |y| && x[..k] == y[..k] && (k == |x| || x[k] < y[k]) {
        assert a[..k + 1] == [a[0]] + x[..k] && b[..k + 1] == [b[0]] + y[..k];
        assert a[..k + 1] == b[..k + 1] && (k + 1 == |a| || a[k + 1] < b[k + 1]);
      }
      if k :| 0 <= k <= |a| && k < |b| && a[..k] == b[..k] && (k == |a| || a[k] < b[k]) {
        assert k > 0;
        assert x[..k - 1] == a[..k][1..] && y[..k - 1] == b[..k][1..];
      }
    }
  }

  // The comparison as a loop over both unit sequences.
  method CompareUnits(a: seq<int>, b: seq<int>) returns (less: bool)
    ensures less == UnitsLess(a, b)
    ensures less <==> exists k :: 0 <= k <= |a| && k < |b| && a[..k] == b[..k] && (k == |a| || a[k] < b[k])
  {
    UnitsLessIs(a, b);
    var i := 0;
    assert a[0..] == a && b[0..] == b;
    while i < |a| && i < |b|
      invariant i <= |a| && i <= |b|
      invariant UnitsLess(a[i..], b[i..]) == UnitsLess(a, b)
    {
      if a[i] != b[i] { return a[i] < b[i]; }
      assert a[i..][1..] == a[i + 1..] && b[i..][1..] == b[i + 1..];
      i := i + 1;
    }
    return |a| < |b|;
  }

  /* ----- What the order is ----- */

  // A key is an index exactly if it is the decimal text of a number below the limit.
  lemma {:induction false} IndexIs(key: string, n: nat)
    ensures Index(key) == Some(n) <==> n < 4_294_967_295 && key == NatText(n)
  {
    hide NatText;
    NatTextIsPlain(n);
    if Index(key) == Some(n) {
      assert Index(NatText(n)) == Some(n);
      IndexInjective(key, NatText(n));
    }
  }

  lemma {:induction false} NatTextIsPlain(n: nat)
    ensures var s := NatText(n); s != [] && AllDigits(s) && NatOf(s) == n && (s[0] == '0' ==> |s| == 1)
  {
    if n >= 10 { NatTextIsPlain(n / 10); }
  }

  // A character of the basic plane is its own unit; any other is a high and a low surrogate.
  lemma {:induction false} UnitsAreUtf16(c: char)
    ensures var n, u := c as int, UnitsOf(c);
            && (n < 0x1_0000 ==> u == [n])
            && (n >= 0x1_0000 ==>
                  && |u| == 2 && 0xD800 <= u[0] <= 0xDBFF && 0xDC00 <= u[1] <= 0xDFFF
                  && n == 0x1_0000 + (u[0] - 0xD800) * 0x400 + (u[1] - 0xDC00))
  {
  }

  lemma {:induction false} UnitsJoin(a: string, c: char)
    ensures Units([]) == [] && Units(a + [c]) == Units(a) + UnitsOf(c)
  {
    if a == [] {
      assert a + [c] == [c] && [c][1..] == [];
      assert UnitsOf(c) + [] == UnitsOf(c) && [] + UnitsOf(c) == UnitsOf(c);
    } else {
      UnitsJoin(a[1..], c);
      assert (a + [c])[1..] == a[1..] + [c];
      AppendAssoc(UnitsOf(a[0]), Units(a[1..]), UnitsOf(c));
    }
  }

  /**
   * The signed order: an index comes before every other key, indices go by number, and other
   * keys by their UTF-16 units, the shorter first where one goes on from the other.
   */
  lemma {:induction false} KeyLessIs(a: string, b: string)
    ensures Index(a).Some? && Index(b).None? ==> KeyLess(a, b) && !KeyLess(b, a)
    ensures Index(a).Some? && Index(b).Some? ==> (KeyLess(a, b) <==> Index(a).value < Index(b).value)
    ensures Index(a).None? && Index(b).None? ==>
              (KeyLess(a, b) <==>
                 exists k :: && 0 <= k <= |Units(a)| && k < |Units(b)| && Units(a)[..k] == Units(b)[..k]
                             && (k == |Units(a)| || Units(a)[k] < Units(b)[k]))
  {
    UnitsLessIs(Units(a), Units(b));
    hide Index, Units, UnitsLess;
  }

  /* ----- The unit order ----- */

  lemma {:induction false} UnitsIrreflexive(a: seq<int>)
    ensures !UnitsLess(a, a)
  {
    if a != [] { UnitsIrreflexive(a[1..]); }
  }

  lemma {:induction false} UnitsTransitive(a: seq<int>, b: seq<int>, c: seq<int>)
    requires UnitsLess(a, b) && UnitsLess(b, c)
    ensures UnitsLess(a, c)
  {
    if a != [] && a[0] == b[0] && b[0] == c[0] { UnitsTransitive(a[1..], b[1..], c[1..]); }
  }

  lemma {:induction false} UnitsTotal(a: seq<int>, b: seq<int>)
    ensures a == b || UnitsLess(a, b) || UnitsLess(b, a)
  {
    if a != [] && b != [] && a[0] == b[0] {
      UnitsTotal(a[1..], b[1..]);
      if a[1..] == b[1..] {
        assert a == [a[0]] + a[1..] && b == [b[0]] + b[1..];
      }
    }
  }

  /* ----- Distinct keys have distinct units ----- */

  lemma {:induction false} FirstUnit(c: char)
    ensures var u := UnitsOf(c);
            && (|u| == 1 <==> !(0xD800 <= u[0] < 0xDC00))
            && (|u| == 1 ==> u[0] == c as int)
            && (|u| == 2 ==> c as int == 0x1_0000 + (u[0] - 0xD800) * 0x400 + (u[1] - 0xDC00))
            && 1 <= |u| <= 2
  {
  }

  lemma {:induction false} SameFirst(a: char, b: char, x: seq<int>, y: seq<int>)
    requires UnitsOf(a) + x == UnitsOf(b) + y
    ensures a == b && x == y
  {
    FirstUnit(a);
    FirstUnit(b);
    var u, v := UnitsOf(a), UnitsOf(b);
    hide UnitsOf;
    assert (u + x)[0] == u[0] && (v + y)[0] == v[0];
    assert |u| == |v|;
    assert (u + x)[|u| - 1] == u[|u| - 1] && (v + y)[|v| - 1] == v[|v| - 1];
    assert a as int == b as int;
    assert (u + x)[|u|..] == x && (v + y)[|v|..] == y;
  }

  lemma {:induction false} UnitsInjective(a: string, b: string)
    requires Units(a) == Units(b)
    ensures a == b
  {
    if a == [] || b == [] {
      if a != [] { FirstUnit(a[0]); }
      if b != [] { FirstUnit(b[0]); }
    } else {
      SameFirst(a[0], b[0], Units(a[1..]), Units(b[1..]));
      UnitsInjective(a[1..], b[1..]);
      assert a == [a[0]] + a[1..] && b == [b[0]] + b[1..];
    }
  }

  lemma {:induction false} ZeroText(s: string)
    requires AllDigits(s) && s != [] && (s[0] == '0' ==> |s| == 1)
    ensures s[0] == '0' <==> NatOf(s) == 0
  {
    if s[0] == '0' {
      assert s[..0] == [];
    } else {
      NatPositive(s);
    }
  }

  lemma {:induction false} IndexInjective(a: string, b: string)
    requires Index(a).Some? && Index(a) == Index(b)
    ensures a == b
  {
    ZeroText(a);
    ZeroText(b);
    if a[0] == '0' {
      assert a == ['0'] && b == ['0'];
    } else {
      NatInjective(a, b);
    }
  }

  /* ----- The key order ----- */

  /** Keys are strictly and totally ordered. */
  lemma {:induction false} KeyOrderIsTotal(a: string, b: string)
    ensures !KeyLess(a, a)
    ensures a != b <==> KeyLess(a, b) || KeyLess(b, a)
    ensures !(KeyLess(a, b) && KeyLess(b, a))
  {
    hide Index, Units, UnitsLess;
    UnitsIrreflexive(Units(a));
    UnitsIrreflexive(Units(b));
    UnitsTotal(Units(a), Units(b));
    if UnitsLess(Units(a), Units(b)) && UnitsLess(Units(b), Units(a)) {
      UnitsTransitive(Units(a), Units(b), Units(a));
    }
    if Units(a) == Units(b) { UnitsInjective(a, b); }
    if Index(a).Some? && Index(a) == Index(b) { IndexInjective(a, b); }
  }

  lemma {:induction false} KeyOrderIsTransitive(a: string, b: string, c: string)
    requires KeyLess(a, b) && KeyLess(b, c)
    ensures KeyLess(a, c)
  {
    hide Index, Units, UnitsLess;
    if Index(a).None? && Index(b).None? && Index(c).None? {
      UnitsTransitive(Units(a), Units(b), Units(c));
    }
  }

  /* ----- Sorted members ----- */

  datatype Keyed<+T> = Keyed(key: string, value: T)

  ghost predicate Ascending<T>(s: seq<Keyed<T>>) {
    forall i, j :: 0 <= i < j < |s| ==> KeyLess(s[i].key, s[j].key)
  }

  ghost predicate DistinctKeys<T>(s: seq<Keyed<T>>) {
    forall i, j :: 0 <= i < j < |s| ==> s[i].key != s[j].key
  }

  function Insert<T>(x: Keyed<T>, s: seq<Keyed<T>>): seq<Keyed<T>> {
    if s == [] || KeyLess(x.key, s[0].key) then [x] + s else [s[0]] + Insert(x, s[1..])
  }

  function Sort<T>(s: seq<Keyed<T>>): seq<Keyed<T>> {
    if s == [] then [] else Insert(s[0], Sort(s[1..]))
  }

  lemma {:induction false} AscendingCons<T(!new)>(x: Keyed<T>, s: seq<Keyed<T>>)
    requires Ascending(s) && forall j :: 0 <= j < |s| ==> KeyLess(x.key, s[j].key)
    ensures Ascending([x] + s)
  {
    hide KeyLess;
    var all := [x] + s;
    forall i, j | 0 <= i < j < |all| ensures KeyLess(all[i].key, all[j].key) {
      if i > 0 { assert all[i] == s[i - 1] && all[j] == s[j - 1]; }
    }
  }

  lemma {:induction false} InsertKeeps<T(!new)>(x: Keyed<T>, s: seq<Keyed<T>>)
    requires Ascending(s) && forall j :: 0 <= j < |s| ==> s[j].key != x.key
    ensures Ascending(Insert(x, s)) && forall e :: e in Insert(x, s) <==> e == x || e in s
  {
    hide KeyLess;
    if s != [] && !KeyLess(x.key, s[0].key) {
      var rest := Insert(x, s[1..]);
      assert Ascending(s[1..]);
      InsertKeeps(x, s[1..]);
      KeyOrderIsTotal(x.key, s[0].key);
      assert s == [s[0]] + s[1..];
      forall j | 0 <= j < |rest| ensures KeyLess(s[0].key, rest[j].key) {
        var e := rest[j];
        assert e in rest && e in Insert(x, s[1..]);
        if e != x {
          var i := IndexOf(s[1..], e);
          assert s[i + 1] == e;
        }
      }
      AscendingCons(s[0], rest);
    } else {
      forall j | 0 <= j < |s| ensures KeyLess(x.key, s[j].key) {
        if j > 0 { KeyOrderIsTransitive(x.key, s[0].key, s[j].key); }
      }
      AscendingCons(x, s);
    }
  }

  lemma {:induction false} SortKeeps<T(!new)>(s: seq<Keyed<T>>)
    requires DistinctKeys(s)
    ensures Ascending(Sort(s)) && forall e :: e in Sort(s) <==> e in s
  {
    if s != [] {
      SortKeeps(s[1..]);
      var rest := Sort(s[1..]);
      forall j | 0 <= j < |rest| ensures rest[j].key != s[0].key {
        var e := rest[j];
        assert e in rest && e in Sort(s[1..]);
        var i := IndexOf(s[1..], e);
        assert s[i + 1] == e;
      }
      hide Ascending, KeyLess;
      InsertKeeps(s[0], rest);
      assert s == [s[0]] + s[1..];
    }
  }

  lemma {:induction false} IndexOf<T(!new)>(s: seq<T>, e: T) returns (i: nat)
    requires e in s
    ensures i < |s| && s[i] == e
  {
    if s[0] == e {
      i := 0;
    } else {
      assert s == [s[0]] + s[1..];
      i := IndexOf(s[1..], e);
      i := i + 1;
    }
  }

  lemma {:induction false} FirstIsMember<T(!new)>(s: seq<T>)
    ensures s != [] ==> exists e :: e in s
  {
    if s != [] { assert s[0] in s; }
  }

  lemma {:induction false} NotAgain<T(!new)>(s: seq<Keyed<T>>, e: Keyed<T>)
    requires Ascending(s) && s != []
    ensures e in s[1..] <==> e in s && e != s[0]
  {
    hide KeyLess;
    if e in s[1..] {
      var i := IndexOf(s[1..], e);
      assert KeyLess(s[0].key, s[i + 1].key);
      KeyOrderIsTotal(s[0].key, e.key);
    }
  }

  /** Members with distinct keys have one ascending order, however they arrive. */
  lemma {:induction false} AscendingIsUnique<T(!new)>(a: seq<Keyed<T>>, b: seq<Keyed<T>>)
    requires Ascending(a) && Ascending(b) && forall e :: e in a <==> e in b
    ensures a == b
    decreases |a|
  {
    hide KeyLess;
    if a == [] {
      FirstIsMember(b);
    } else {
      assert a[0] in a && a[0] in b;
      assert b[0] in b && b[0] in a;
      var i := IndexOf(b, a[0]);
      var j := IndexOf(a, b[0]);
      KeyOrderIsTotal(a[0].key, b[0].key);
      assert i == 0;
      forall e ensures e in a[1..] <==> e in b[1..] {
        NotAgain(a, e);
        NotAgain(b, e);
      }
      assert Ascending(a[1..]) && Ascending(b[1..]);
      AscendingIsUnique(a[1..], b[1..]);
      assert a == [a[0]] + a[1..] && b == [b[0]] + b[1..];
    }
  }
}
