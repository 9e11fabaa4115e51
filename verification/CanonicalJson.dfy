/**
 * The canonical form a signature is computed over: members in key order, numbers in normal
 * form, no whitespace. It does not depend on how the body was laid out, and reading it back
 * gives the same value.
 */
module CanonicalJson {
  import opened Prelude
  import opened CanonicalNumber
  import opened KeyOrder
  import opened JsonText
  import opened JsonSpelling

  /* ----- Printing ----- */

  // exact tells which normal forms survive a trip through a double; others are refused.
  type Exact = string -> bool

  function PrintNumber(text: string, exact: Exact): Option<string> {
    var n := Canonical(text);
    if n.None? || !exact(n.value) then None else n
  }

  function ItemTexts(texts: seq<string>, first: bool): string {
    if texts == [] then [']'] else (if first then "" else ",") + (texts[0] + ItemTexts(texts[1..], false))
  }

  function MemberTexts(entries: seq<Keyed<string>>, first: bool): string {
    if entries == [] then ['}']
    else (if first then "" else ",")
         + ((Quote(entries[0].key) + ([':'] + entries[0].value)) + MemberTexts(entries[1..], false))
  }

  function Print(j: Json, exact: Exact): Option<string> {
    match j
    case Null => Some("null")
    case Bool(b) => Some(if b then "true" else "false")
    case Str(s) => Some(Quote(s))
    case Num(text) => PrintNumber(text, exact)
    case Arr(items) =>
      var texts := PrintItems(items, exact);
      if texts.None? then None else Some(['['] + ItemTexts(texts.value, true))
    case Obj(fields) =>
      var entries := PrintFields(fields, exact);
      if entries.None? then None else Some(['{'] + MemberTexts(Sort(entries.value), true))
  }

  function PrintItems(items: seq<Json>, exact: Exact): Option<seq<string>> {
    if items == [] then Some([])
    else
      var t, ts := Print(items[0], exact), PrintItems(items[1..], exact);
      if t.None? || ts.None? then None else Some([t.value] + ts.value)
  }

  function PrintFields(fields: seq<Field>, exact: Exact): Option<seq<Keyed<string>>> {
    if fields == [] then Some([])
    else
      var t, ts := Print(fields[0].value, exact), PrintFields(fields[1..], exact);
      if t.None? || ts.None? then None else Some([Keyed(fields[0].key, t.value)] + ts.value)
  }

  // Bodies are limited in bytes of UTF-8.
  const MAX_BODY := 128 * 1024

  function CharBytes(c: char): nat {
    if c < 0x80 as char then 1 else if c < 0x800 as char then 2 else if c < 0x1_0000 as char then 3 else 4
  }

  function Bytes(s: string): nat { if s == [] then 0 else CharBytes(s[0]) + Bytes(s[1..]) }

  predicate SizeFits(body: string) { 0 < Bytes(body) <= MAX_BODY }

  // The whole step: one object and nothing after it, or no canonical form.
  function CanonicalBody(body: string, exact: Exact): Option<string> {
    if !SizeFits(body) then None
    else
      var r := ReadValue(body, 0);
      if r.None? || !r.value.0.Obj? || SkipBlank(r.value.1) != [] then None else Print(r.value.0, exact)
  }

  lemma {:induction false} PrintFieldsAre(fields: seq<Field>, exact: Exact)
    ensures PrintFields(fields, exact).None? <==>
            exists i :: 0 <= i < |fields| && Print(fields[i].value, exact).None?
    ensures PrintFields(fields, exact).Some? ==>
              && |PrintFields(fields, exact).value| == |fields|
              && forall i :: 0 <= i < |fields| ==>
                   Print(fields[i].value, exact).Some?
                   && PrintFields(fields, exact).value[i] == Keyed(fields[i].key, Print(fields[i].value, exact).value)
  {
    hide Print;
    if fields != [] {
      var rest := fields[1..];
      PrintFieldsAre(rest, exact);
      if PrintFields(rest, exact).None? {
        var i :| 0 <= i < |rest| && Print(rest[i].value, exact).None?;
        assert rest[i] == fields[i + 1];
      }
      if i :| 0 <= i < |fields| && Print(fields[i].value, exact).None? {
        if i > 0 { assert rest[i - 1] == fields[i]; }
      }
      assert forall i :: 1 <= i < |fields| ==> fields[i] == rest[i - 1];
    }
  }

  lemma {:induction false} PrintItemsAre(items: seq<Json>, exact: Exact)
    ensures PrintItems(items, exact).None? <==> exists i :: 0 <= i < |items| && Print(items[i], exact).None?
    ensures PrintItems(items, exact).Some? ==>
              && |PrintItems(items, exact).value| == |items|
              && forall i :: 0 <= i < |items| ==>
                   Print(items[i], exact).Some? && PrintItems(items, exact).value[i] == Print(items[i], exact).value
  {
    hide Print;
    if items != [] {
      var rest := items[1..];
      PrintItemsAre(rest, exact);
      if PrintItems(rest, exact).None? {
        var i :| 0 <= i < |rest| && Print(rest[i], exact).None?;
        assert rest[i] == items[i + 1];
      }
      if i :| 0 <= i < |items| && Print(items[i], exact).None? {
        if i > 0 { assert rest[i - 1] == items[i]; }
      }
      assert forall i :: 1 <= i < |items| ==> items[i] == rest[i - 1];
    }
  }

  /* ----- Layout does not matter ----- */

  // Numbers may be spelled differently as long as they have one canonical spelling.
  predicate AlikeAtoms(v: Json, w: Json) {
    v == w || (v.Num? && w.Num? && Canonical(v.text) == Canonical(w.text))
  }

  // The same document up to whitespace, escapes, spelling of numbers and member order.
  ghost predicate Alike(a: Core, b: Core)
    decreases a, 0
  {
    match a
    case Atom(v) => b.Atom? && AlikeAtoms(v, b.value)
    case Quoted(_, s) => b.Quoted? && b.s == s
    case SrcArr(items, _) =>
      b.SrcArr? && |items| == |b.items|
      && forall i :: 0 <= i < |items| ==> Alike(items[i].core, b.items[i].core)
    case SrcObj(ms, _) => b.SrcObj? && |ms| == |b.members| && Paired(ms, b.members)
  }

  // Each member of either list is alike some member of the other.
  ghost predicate Paired(ms: seq<Member>, ns: seq<Member>)
    decreases ms, 1
  {
    && (forall i :: 0 <= i < |ms| ==> PairedLeft(ms[i], ns))
    && (forall k :: 0 <= k < |ns| ==> PairedRight(ms, ns[k]))
  }

  ghost predicate PairedLeft(m: Member, ns: seq<Member>)
    decreases m, 1
  {
    exists k :: 0 <= k < |ns| && AlikeMembers(m, ns[k])
  }

  ghost predicate PairedRight(ms: seq<Member>, n: Member)
    decreases ms, 0
  {
    exists i :: 0 <= i < |ms| && AlikeMembers(ms[i], n)
  }

  ghost predicate AlikeMembers(m: Member, n: Member)
    decreases m, 0
  {
    m.key == n.key && Alike(m.value.core, n.value.core)
  }

  lemma {:induction false} ItemsValueAre(items: seq<Src>, depth: nat)
    requires ItemsValue(items, depth).Some?
    ensures |ItemsValue(items, depth).value| == |items|
    ensures forall i :: 0 <= i < |items| ==> Meaning(items[i].core, depth) == Some(ItemsValue(items, depth).value[i])
  {
    hide Meaning;
    if items != [] {
      ItemsValueAre(items[1..], depth);
      assert forall i :: 1 <= i < |items| ==> items[i] == items[1..][i - 1];
    }
  }

  lemma {:induction false} MembersValueAre(ms: seq<Member>, depth: nat, fields: seq<Field>)
    requires MembersValue(ms, depth, fields).Some? && DistinctKeys(fields)
    ensures var all := MembersValue(ms, depth, fields).value;
            && |all| == |fields| + |ms| && all[..|fields|] == fields && DistinctKeys(all)
            && forall i :: 0 <= i < |ms| ==>
                 all[|fields| + i].key == ms[i].key && Meaning(ms[i].value.core, depth) == Some(all[|fields| + i].value)
    decreases ms
  {
    hide Meaning;
    if ms != [] {
      var next := fields + [Keyed(ms[0].key, Meaning(ms[0].value.core, depth).value)];
      assert DistinctKeys(next) by {
        assert forall i :: 0 <= i < |fields| ==> fields[i].key != ms[0].key;
      }
      MembersValueAre(ms[1..], depth, next);
      var all := MembersValue(ms, depth, fields).value;
      assert all[..|fields|] == all[..|next|][..|fields|] == fields;
      assert all[|fields|] == all[..|next|][|fields|];
      assert forall i :: 1 <= i < |ms| ==> ms[i] == ms[1..][i - 1];
      hide DistinctKeys, HasKey;
    }
  }

  lemma {:induction false} EntriesKeepKeys(fields: seq<Field>, exact: Exact)
    requires DistinctKeys(fields) && PrintFields(fields, exact).Some?
    ensures DistinctKeys(PrintFields(fields, exact).value)
  {
    PrintFieldsAre(fields, exact);
    hide Print, PrintFields;
  }

  // Each member of one list prints like some member of the other.
  ghost predicate Covered(f: seq<Field>, g: seq<Field>, exact: Exact) {
    forall i :: 0 <= i < |f| ==> CoveredBy(f[i], g, exact)
  }

  ghost predicate CoveredBy(x: Field, g: seq<Field>, exact: Exact) {
    exists k :: 0 <= k < |g| && SamePrint(x, g[k], exact)
  }

  lemma {:induction false} CoveredEntries(f: seq<Field>, g: seq<Field>, exact: Exact)
    requires Covered(f, g, exact)
    ensures PrintFields(g, exact).Some? ==>
              && PrintFields(f, exact).Some?
              && forall e :: e in PrintFields(f, exact).value ==> e in PrintFields(g, exact).value
  {
    PrintFieldsAre(f, exact);
    PrintFieldsAre(g, exact);
    hide Print, PrintFields;
    if PrintFields(g, exact).Some? {
      forall i | 0 <= i < |f| ensures Print(f[i].value, exact).Some? {
        var k :| 0 <= k < |g| && SamePrint(f[i], g[k], exact);
      }
      var a, b := PrintFields(f, exact).value, PrintFields(g, exact).value;
      forall e | e in a ensures e in b {
        var i := IndexOf(a, e);
        var k :| 0 <= k < |g| && SamePrint(f[i], g[k], exact);
        assert b[k] == e;
      }
    }
  }

  // Members that print the same pairwise, in whatever order, print the same object.
  lemma {:induction false} SameEntries(f: seq<Field>, g: seq<Field>, exact: Exact)
    requires DistinctKeys(f) && DistinctKeys(g) && Covered(f, g, exact) && Covered(g, f, exact)
    ensures Print(Obj(f), exact) == Print(Obj(g), exact)
  {
    hide Print, PrintFields, DistinctKeys, Covered, Sort, Ascending, MemberTexts;
    CoveredEntries(f, g, exact);
    CoveredEntries(g, f, exact);
    PrintObject(f, exact);
    PrintObject(g, exact);
    if PrintFields(f, exact).Some? {
      var a, b := PrintFields(f, exact).value, PrintFields(g, exact).value;
      EntriesKeepKeys(f, exact);
      EntriesKeepKeys(g, exact);
      SortKeeps(a);
      SortKeeps(b);
      AscendingIsUnique(Sort(a), Sort(b));
    }
  }

  ghost predicate SamePrint(x: Field, y: Field, exact: Exact) {
    x.key == y.key && Print(x.value, exact) == Print(y.value, exact)
  }

  lemma {:induction false} PrintObject(f: seq<Field>, exact: Exact)
    ensures Print(Obj(f), exact) ==
            if PrintFields(f, exact).None? then None
            else Some(['{'] + MemberTexts(Sort(PrintFields(f, exact).value), true))
  {
  }

  lemma {:induction false} SameTexts(a: seq<Json>, b: seq<Json>, exact: Exact)
    requires |a| == |b| && forall i :: 0 <= i < |a| ==> Print(a[i], exact) == Print(b[i], exact)
    ensures PrintItems(a, exact) == PrintItems(b, exact)
  {
    PrintItemsAre(a, exact);
    PrintItemsAre(b, exact);
    hide Print, PrintItems;
    if PrintItems(a, exact).Some? && PrintItems(b, exact).Some? {
      assert PrintItems(a, exact).value == PrintItems(b, exact).value;
    }
  }

  lemma {:induction false} AlikeArrays(a: Core, b: Core, depth: nat, exact: Exact)
    requires a.SrcArr? && Alike(a, b) && Meaning(a, depth).Some? && Meaning(b, depth).Some?
    ensures Print(Meaning(a, depth).value, exact) == Print(Meaning(b, depth).value, exact)
    decreases a, 0
  {
    ItemsValueAre(a.items, depth + 1);
    ItemsValueAre(b.items, depth + 1);
    var va, vb := ItemsValue(a.items, depth + 1).value, ItemsValue(b.items, depth + 1).value;
    assert Meaning(a, depth) == Some(Arr(va)) && Meaning(b, depth) == Some(Arr(vb));
    assert forall i :: 0 <= i < |a.items| ==> Alike(a.items[i].core, b.items[i].core);
    hide ItemsValue, Meaning, Alike;
    forall i | 0 <= i < |a.items| ensures Print(va[i], exact) == Print(vb[i], exact) {
      AlikePrints(a.items[i].core, b.items[i].core, depth + 1, exact);
    }
    SameTexts(va, vb, exact);
    hide ItemTexts, PrintItems;
  }

  lemma {:induction false} SamePrints(f: seq<Field>, g: seq<Field>, i: nat, k: nat, exact: Exact)
    requires i < |f| && k < |g| && f[i].key == g[k].key && Print(f[i].value, exact) == Print(g[k].value, exact)
    ensures SamePrint(f[i], g[k], exact) && SamePrint(g[k], f[i], exact)
  {
  }

  lemma {:induction false} AlikeParts(a: Core, b: Core)
    requires a.SrcObj? && Alike(a, b)
    ensures b.SrcObj? && |a.members| == |b.members| && Paired(a.members, b.members)
  {
    hide Paired;
  }

  lemma {:induction false} AlikeCover(ms: seq<Member>, ns: seq<Member>, f: seq<Field>, g: seq<Field>, exact: Exact)
    requires |f| == |ms| && |g| == |ns| && Paired(ms, ns)
    requires forall i, k :: 0 <= i < |ms| && 0 <= k < |ns| && AlikeMembers(ms[i], ns[k]) ==>
               SamePrint(f[i], g[k], exact) && SamePrint(g[k], f[i], exact)
    ensures Covered(f, g, exact) && Covered(g, f, exact)
  {
    hide SamePrint, AlikeMembers;
    forall i | 0 <= i < |f| ensures CoveredBy(f[i], g, exact) {
      assert PairedLeft(ms[i], ns);
      var k :| 0 <= k < |ns| && AlikeMembers(ms[i], ns[k]);
      assert SamePrint(f[i], g[k], exact);
    }
    forall k | 0 <= k < |g| ensures CoveredBy(g[k], f, exact) {
      assert PairedRight(ms, ns[k]);
      var i :| 0 <= i < |ms| && AlikeMembers(ms[i], ns[k]);
      assert SamePrint(g[k], f[i], exact);
    }
  }

  lemma {:induction false} ObjectMeaning(c: Core, depth: nat) returns (f: seq<Field>)
    requires c.SrcObj? && Meaning(c, depth).Some?
    ensures Meaning(c, depth) == Some(Obj(f)) && |f| == |c.members| && DistinctKeys(f)
    ensures forall i :: 0 <= i < |f| ==>
              f[i].key == c.members[i].key && Meaning(c.members[i].value.core, depth + 1) == Some(f[i].value)
  {
    assert MembersValue(c.members, depth + 1, []).Some?
           && Meaning(c, depth) == Some(Obj(MembersValue(c.members, depth + 1, []).value));
    hide MembersValue, DistinctKeys, Meaning;
    f := MembersValue(c.members, depth + 1, []).value;
    assert DistinctKeys<Json>([]) by { NoKeys(); }
    MembersValueAre(c.members, depth + 1, []);
    forall i | 0 <= i < |f|
      ensures f[i].key == c.members[i].key && Meaning(c.members[i].value.core, depth + 1) == Some(f[i].value)
    {
      assert f[0 + i] == f[i];
    }
  }

  lemma {:induction false} NoKeys()
    ensures DistinctKeys<Json>([])
  {
  }

  lemma {:induction false} AlikeObjects(a: Core, b: Core, depth: nat, exact: Exact)
    requires a.SrcObj? && Alike(a, b) && Meaning(a, depth).Some? && Meaning(b, depth).Some?
    ensures Print(Meaning(a, depth).value, exact) == Print(Meaning(b, depth).value, exact)
    decreases a, 0
  {
    hide Meaning, Print, Alike, DistinctKeys, SamePrint, Covered, Paired;
    AlikeParts(a, b);
    var f := ObjectMeaning(a, depth);
    var g := ObjectMeaning(b, depth);
    var ms, ns := a.members, b.members;
    forall i, k | 0 <= i < |ms| && 0 <= k < |ns| && AlikeMembers(ms[i], ns[k])
      ensures SamePrint(f[i], g[k], exact) && SamePrint(g[k], f[i], exact)
    {
      AlikePrints(ms[i].value.core, ns[k].value.core, depth + 1, exact);
      SamePrints(f, g, i, k, exact);
    }
    hide AlikeMembers;
    AlikeCover(ms, ns, f, g, exact);
    SameEntries(f, g, exact);
  }

  lemma {:induction false} AlikePrints(a: Core, b: Core, depth: nat, exact: Exact)
    requires Alike(a, b) && Meaning(a, depth).Some? && Meaning(b, depth).Some?
    ensures Print(Meaning(a, depth).value, exact) == Print(Meaning(b, depth).value, exact)
    decreases a, 1
  {
    hide Print;
    match a
    case Atom(v) => AlikeAtomsPrint(v, b.value, exact);
    case Quoted(_, _) =>
    case SrcArr(_, _) => AlikeArrays(a, b, depth, exact);
    case SrcObj(_, _) => AlikeObjects(a, b, depth, exact);
  }

  lemma {:induction false} AlikeAtomsPrint(v: Json, w: Json, exact: Exact)
    requires AlikeAtoms(v, w)
    ensures Print(v, exact) == Print(w, exact)
  {
    hide Canonical, PrintItems, PrintFields;
  }

  /* ----- Documents that are alike are accepted or refused together ----- */

  lemma {:induction false} ItemsMean(items: seq<Src>, depth: nat)
    ensures ItemsValue(items, depth).Some? <==> forall i :: 0 <= i < |items| ==> Meaning(items[i].core, depth).Some?
  {
    hide Meaning;
    if items != [] {
      var rest := items[1..];
      ItemsMean(rest, depth);
      assert forall i :: 0 <= i < |rest| ==> rest[i] == items[i + 1];
      if forall i :: 0 <= i < |items| ==> Meaning(items[i].core, depth).Some? {
        assert forall i :: 0 <= i < |rest| ==> Meaning(rest[i].core, depth) == Meaning(items[i + 1].core, depth);
      }
      assert forall i :: 1 <= i < |items| ==> items[i] == rest[i - 1];
    }
  }

  ghost predicate DistinctNames(ms: seq<Member>) { forall i, j :: 0 <= i < j < |ms| ==> ms[i].key != ms[j].key }

  ghost predicate NewNames(ms: seq<Member>, fields: seq<Field>) {
    forall i :: 0 <= i < |ms| ==> !HasKey(fields, ms[i].key)
  }

  ghost predicate AllMean(ms: seq<Member>, depth: nat) {
    forall i :: 0 <= i < |ms| ==> Meaning(ms[i].value.core, depth).Some?
  }

  // Members are read exactly if each value is and no key comes twice.
  lemma {:induction false} MembersMean(ms: seq<Member>, depth: nat, fields: seq<Field>)
    ensures MembersValue(ms, depth, fields).Some? <==> AllMean(ms, depth) && DistinctNames(ms) && NewNames(ms, fields)
    decreases ms
  {
    hide Meaning;
    if ms != [] {
      var rest, v := ms[1..], Meaning(ms[0].value.core, depth);
      assert forall i :: 0 <= i < |rest| ==> rest[i] == ms[i + 1];
      assert forall i :: 1 <= i < |ms| ==> ms[i] == rest[i - 1];
      if v.Some? && !HasKey(fields, ms[0].key) {
        var next := fields + [Keyed(ms[0].key, v.value)];
        MembersMean(rest, depth, next);
        NamesUnfold(ms, fields, v.value);
        assert AllMean(ms, depth) <==> AllMean(rest, depth);
      } else {
        assert !AllMean(ms, depth) || !NewNames(ms, fields);
      }
    }
  }

  lemma {:induction false} NamesUnfold(ms: seq<Member>, fields: seq<Field>, v: Json)
    requires ms != [] && !HasKey(fields, ms[0].key)
    ensures DistinctNames(ms) && NewNames(ms, fields) <==>
            DistinctNames(ms[1..]) && NewNames(ms[1..], fields + [Keyed(ms[0].key, v)])
  {
    var rest, next := ms[1..], fields + [Keyed(ms[0].key, v)];
    assert forall i :: 0 <= i < |rest| ==> rest[i] == ms[i + 1];
    assert forall i :: 1 <= i < |ms| ==> ms[i] == rest[i - 1];
    forall i | 0 <= i < |rest|
      ensures HasKey(next, rest[i].key) <==> HasKey(fields, rest[i].key) || rest[i].key == ms[0].key
    {
      KeyOfNext(fields, Keyed(ms[0].key, v), rest[i].key);
    }
    hide HasKey;
  }

  lemma {:induction false} KeyOfNext(fields: seq<Field>, f: Field, key: string)
    ensures HasKey(fields + [f], key) <==> HasKey(fields, key) || key == f.key
  {
    var next := fields + [f];
    assert next[|fields|] == f;
    assert forall i :: 0 <= i < |fields| ==> next[i] == fields[i];
  }

  function Names(ms: seq<Member>): set<string> { set m | m in ms :: m.key }

  // A list repeats no key exactly if it has as many keys as members.
  lemma {:induction false} NamesCount(ms: seq<Member>)
    ensures |Names(ms)| <= |ms| && (DistinctNames(ms) <==> |Names(ms)| == |ms|)
  {
    if ms == [] {
      assert Names(ms) == {};
    } else {
      var rest := ms[1..];
      NamesCount(rest);
      assert Names(ms) == Names(rest) + {ms[0].key};
      assert forall i :: 0 <= i < |rest| ==> rest[i] == ms[i + 1];
      assert forall i :: 1 <= i < |ms| ==> ms[i] == rest[i - 1];
      assert ms[0].key in Names(rest) <==> exists i :: 0 <= i < |rest| && rest[i].key == ms[0].key;
      assert DistinctNames(ms) <==> DistinctNames(rest) && ms[0].key !in Names(rest);
    }
  }

  lemma {:induction false} PairedNames(ms: seq<Member>, ns: seq<Member>)
    requires Paired(ms, ns)
    ensures Names(ms) == Names(ns)
  {
    hide Alike;
    forall m | m in ms ensures m.key in Names(ns) {
      var i :| 0 <= i < |ms| && ms[i] == m;
      assert PairedLeft(ms[i], ns);
      var k :| 0 <= k < |ns| && AlikeMembers(ms[i], ns[k]);
      assert ns[k] in ns;
    }
    forall n | n in ns ensures n.key in Names(ms) {
      var k :| 0 <= k < |ns| && ns[k] == n;
      assert PairedRight(ms, ns[k]);
      var i :| 0 <= i < |ms| && AlikeMembers(ms[i], ns[k]);
      assert ms[i] in ms;
    }
  }

  lemma {:induction false} PairedMean(ms: seq<Member>, ns: seq<Member>, depth: nat)
    requires Paired(ms, ns)
    requires forall i, k :: 0 <= i < |ms| && 0 <= k < |ns| && AlikeMembers(ms[i], ns[k]) ==>
               (Meaning(ms[i].value.core, depth).Some? <==> Meaning(ns[k].value.core, depth).Some?)
    ensures AllMean(ms, depth) <==> AllMean(ns, depth)
  {
    hide Meaning, AlikeMembers;
    if AllMean(ns, depth) {
      forall i | 0 <= i < |ms| ensures Meaning(ms[i].value.core, depth).Some? {
        assert PairedLeft(ms[i], ns);
        var k :| 0 <= k < |ns| && AlikeMembers(ms[i], ns[k]);
      }
    }
    if AllMean(ms, depth) {
      forall k | 0 <= k < |ns| ensures Meaning(ns[k].value.core, depth).Some? {
        assert PairedRight(ms, ns[k]);
        var i :| 0 <= i < |ms| && AlikeMembers(ms[i], ns[k]);
      }
    }
  }

  lemma {:induction false} AlikeMean(a: Core, b: Core, depth: nat)
    requires Alike(a, b)
    ensures Meaning(a, depth).Some? <==> Meaning(b, depth).Some?
    decreases a, 1
  {
    match a
    case Atom(_) =>
    case Quoted(_, _) =>
    case SrcArr(_, _) => AlikeArraysMean(a, b, depth);
    case SrcObj(_, _) => AlikeObjectsMean(a, b, depth);
  }

  lemma {:induction false} AlikeArraysMean(a: Core, b: Core, depth: nat)
    requires a.SrcArr? && Alike(a, b)
    ensures Meaning(a, depth).Some? <==> Meaning(b, depth).Some?
    decreases a, 0
  {
    var items, others := a.items, b.items;
    assert forall i :: 0 <= i < |items| ==> Alike(items[i].core, others[i].core);
    ItemsMean(items, depth + 1);
    ItemsMean(others, depth + 1);
    hide ItemsValue, Alike;
    forall i | 0 <= i < |items|
      ensures Meaning(items[i].core, depth + 1).Some? <==> Meaning(others[i].core, depth + 1).Some?
    {
      AlikeMean(items[i].core, others[i].core, depth + 1);
    }
  }

  // An object is read exactly if each of its values is and its keys are as many as its members.
  lemma {:induction false} ObjectMeans(ms: seq<Member>, blank: string, depth: nat)
    ensures Meaning(SrcObj(ms, blank), depth).Some? <==>
            depth <= MAX_DEPTH && AllMean(ms, depth + 1) && |Names(ms)| == |ms|
  {
    MembersMean(ms, depth + 1, []);
    NamesCount(ms);
    assert NewNames(ms, []);
    hide MembersValue, AllMean, DistinctNames, Names;
  }

  lemma {:induction false} AlikeObjectsMean(a: Core, b: Core, depth: nat)
    requires a.SrcObj? && Alike(a, b)
    ensures Meaning(a, depth).Some? <==> Meaning(b, depth).Some?
    decreases a, 0
  {
    hide Meaning, AllMean, Names, Paired, AlikeMembers;
    AlikeParts(a, b);
    var ms, ns := a.members, b.members;
    forall i, k | 0 <= i < |ms| && 0 <= k < |ns| && AlikeMembers(ms[i], ns[k])
      ensures Meaning(ms[i].value.core, depth + 1).Some? <==> Meaning(ns[k].value.core, depth + 1).Some?
    {
      AlikeValues(ms[i], ns[k]);
      AlikeMean(ms[i].value.core, ns[k].value.core, depth + 1);
    }
    hide Alike;
    PairedMean(ms, ns, depth + 1);
    PairedNames(ms, ns);
    ObjectMeans(ms, a.blank, depth);
    ObjectMeans(ns, b.blank, depth);
  }

  lemma {:induction false} AlikeValues(m: Member, n: Member)
    requires AlikeMembers(m, n)
    ensures Alike(m.value.core, n.value.core)
  {
    hide Alike;
  }

  lemma {:induction false} BodyOf(s: Src, exact: Exact)
    requires WellSpelled(s)
    ensures CanonicalBody(SrcText(s), exact) ==
            if !SizeFits(SrcText(s)) || Meaning(s.core, 0).None? || !s.core.SrcObj? then None
            else Print(Meaning(s.core, 0).value, exact)
  {
    ReadingIsExact(s, []);
    assert SrcText(s) + [] == SrcText(s) && s.after + [] == s.after;
    SkipsBlank(s.after, []);
    hide ReadValue, Print, SkipBlank, SrcText, Bytes;
  }

  /**
   * Two bodies that differ only in spacing, escapes, spelling of numbers and member order have
   * one canonical form, or are both refused, unless only one of them is too long.
   */
  lemma {:induction false} LayoutDoesNotMatter(a: Src, b: Src, exact: Exact)
    requires WellSpelled(a) && WellSpelled(b) && Alike(a.core, b.core)
    ensures (SizeFits(SrcText(a)) <==> SizeFits(SrcText(b))) ==>
              CanonicalBody(SrcText(a), exact) == CanonicalBody(SrcText(b), exact)
  {
    hide Meaning, SrcText, CanonicalBody, Print, WellSpelled, SizeFits;
    assert a.core.SrcObj? == b.core.SrcObj?;
    BodyOf(a, exact);
    BodyOf(b, exact);
    AlikeMean(a.core, b.core, 0);
    if Meaning(a.core, 0).Some? { AlikePrints(a.core, b.core, 0, exact); }
  }
}
