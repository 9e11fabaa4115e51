/** Reading a canonical form back: the same value, with numbers and member order normalized. */
module CanonicalRoundTrip {
  import opened Prelude
  import opened CanonicalNumber
  import opened KeyOrder
  import opened JsonText
  import opened JsonStrings
  import opened JsonSpelling
  import opened JsonCoverage
  import opened CanonicalJson

  // The value with its numbers in normal form and its members in key order.
  function Canon(j: Json, exact: Exact): Option<Json> {
    match j
    case Null => Some(j)
    case Bool(_) => Some(j)
    case Str(_) => Some(j)
    case Num(text) => if PrintNumber(text, exact).None? then None else Some(Num(PrintNumber(text, exact).value))
    case Arr(items) => if CanonItems(items, exact).None? then None else Some(Arr(CanonItems(items, exact).value))
    case Obj(fields) =>
      if CanonFields(fields, exact).None? then None else Some(Obj(Sort(CanonFields(fields, exact).value)))
  }

  function CanonItems(items: seq<Json>, exact: Exact): Option<seq<Json>> {
    if items == [] then Some([])
    else
      var v, vs := Canon(items[0], exact), CanonItems(items[1..], exact);
      if v.None? || vs.None? then None else Some([v.value] + vs.value)
  }

  function CanonFields(fields: seq<Field>, exact: Exact): Option<seq<Field>> {
    if fields == [] then Some([])
    else
      var v, vs := Canon(fields[0].value, exact), CanonFields(fields[1..], exact);
      if v.None? || vs.None? then None else Some([Keyed(fields[0].key, v.value)] + vs.value)
  }

  // A value spelled without any whitespace.
  function Tight(j: Json): Core {
    match j
    case Arr(items) => SrcArr(TightItems(items), [])
    case Obj(fields) => SrcObj(TightFields(fields), [])
    case Str(s) => Quoted(Escape(s), s)
    case _ => Atom(j)
  }

  function TightItems(items: seq<Json>): seq<Src> {
    if items == [] then [] else [Src([], Tight(items[0]), [])] + TightItems(items[1..])
  }

  function TightField(f: Field): Member { Member([], Escape(f.key), f.key, [], Src([], Tight(f.value), [])) }

  function TightFields(fields: seq<Field>): seq<Member> {
    if fields == [] then []
    else [TightField(fields[0])] + TightFields(fields[1..])
  }

  /* ----- Printing is spelling tightly ----- */

  function TextsOf(fields: seq<Field>): seq<Keyed<string>> {
    if fields == [] then [] else [Keyed(fields[0].key, CoreText(Tight(fields[0].value)))] + TextsOf(fields[1..])
  }

  lemma {:induction false} InsertTexts(f: Field, fields: seq<Field>)
    ensures TextsOf(Insert(f, fields)) == Insert(Keyed(f.key, CoreText(Tight(f.value))), TextsOf(fields))
  {
    hide KeyLess, CoreText, Tight;
    if fields == [] || KeyLess(f.key, fields[0].key) {
      assert ([f] + fields)[1..] == fields;
    } else {
      InsertTexts(f, fields[1..]);
      assert ([fields[0]] + Insert(f, fields[1..]))[1..] == Insert(f, fields[1..]);
      assert TextsOf(fields)[1..] == TextsOf(fields[1..]);
    }
  }

  lemma {:induction false} SortTexts(fields: seq<Field>)
    ensures Sort(TextsOf(fields)) == TextsOf(Sort(fields))
  {
    hide CoreText, Tight, Insert;
    if fields != [] {
      SortTexts(fields[1..]);
      InsertTexts(fields[0], Sort(fields[1..]));
      assert TextsOf(fields)[1..] == TextsOf(fields[1..]);
    }
  }

  lemma {:induction false} MembersJoin(fields: seq<Field>, first: bool)
    ensures MemberTexts(TextsOf(fields), first) == MembersText(TightFields(fields), first)
  {
    hide CoreText, Tight, Quote;
    if fields != [] {
      MembersJoin(fields[1..], false);
      assert TextsOf(fields)[1..] == TextsOf(fields[1..]);
      assert TightFields(fields)[1..] == TightFields(fields[1..]);
      TightMember(fields[0]);
    }
  }

  lemma {:induction false} TightMember(f: Field)
    ensures MemberText(TightField(f)) == Quote(f.key) + ([':'] + CoreText(Tight(f.value)))
  {
    hide CoreText, Tight, Escape;
    var t := CoreText(Tight(f.value));
    assert [] + (t + []) == t;
    assert [] + ([':'] + t) == [':'] + t;
  }

  lemma {:induction false} ItemsJoin(items: seq<Json>, texts: seq<string>, first: bool)
    requires |texts| == |items| && forall i :: 0 <= i < |items| ==> texts[i] == CoreText(Tight(items[i]))
    ensures ItemTexts(texts, first) == ItemsText(TightItems(items), first)
  {
    hide CoreText, Tight;
    if items != [] {
      assert forall i :: 0 <= i < |items| - 1 ==> texts[1..][i] == texts[i + 1] && items[1..][i] == items[i + 1];
      ItemsJoin(items[1..], texts[1..], false);
      assert TightItems(items)[1..] == TightItems(items[1..]);
      assert SrcText(TightItems(items)[0]) == texts[0] by { TightSrc(items[0]); }
    }
  }

  lemma {:induction false} TightSrc(j: Json)
    ensures SrcText(Src([], Tight(j), [])) == CoreText(Tight(j))
  {
    hide CoreText, Tight;
    var t := CoreText(Tight(j));
    assert [] + (t + []) == t;
  }

  lemma {:induction false} PrintIsTight(j: Json, exact: Exact)
    ensures Print(j, exact).None? <==> Canon(j, exact).None?
    ensures Canon(j, exact).Some? ==> Print(j, exact) == Some(CoreText(Tight(Canon(j, exact).value)))
    decreases j, 1
  {
    match j
    case Arr(items) => ArrayIsTight(items, exact);
    case Obj(fields) => ObjectIsTight(fields, exact);
    case _ => hide Canonical;
  }

  lemma {:induction false} ItemsAreTight(items: seq<Json>, exact: Exact)
    ensures PrintItems(items, exact).None? <==> CanonItems(items, exact).None?
    ensures CanonItems(items, exact).Some? ==>
              && PrintItems(items, exact).Some?
              && |PrintItems(items, exact).value| == |CanonItems(items, exact).value| == |items|
              && forall i :: 0 <= i < |items| ==>
                   PrintItems(items, exact).value[i] == CoreText(Tight(CanonItems(items, exact).value[i]))
    decreases items, 0
  {
    hide Print, Canon, CoreText, Tight;
    if items != [] {
      PrintIsTight(items[0], exact);
      ItemsAreTight(items[1..], exact);
    }
  }

  lemma {:induction false} ArrayIsTight(items: seq<Json>, exact: Exact)
    ensures Print(Arr(items), exact).None? <==> Canon(Arr(items), exact).None?
    ensures Canon(Arr(items), exact).Some? ==>
              Print(Arr(items), exact) == Some(CoreText(Tight(Canon(Arr(items), exact).value)))
    decreases items, 2
  {
    ItemsAreTight(items, exact);
    hide PrintItems, CanonItems;
    if CanonItems(items, exact).Some? {
      var vs, texts := CanonItems(items, exact).value, PrintItems(items, exact).value;
      ItemsJoin(vs, texts, true);
      ArrayText(vs);
    }
  }

  lemma {:induction false} ArrayText(vs: seq<Json>)
    ensures CoreText(Tight(Arr(vs))) == ['['] + ItemsText(TightItems(vs), true)
  {
    assert [] + ItemsText(TightItems(vs), true) == ItemsText(TightItems(vs), true);
  }

  lemma {:induction false} ObjectText(fields: seq<Field>)
    ensures CoreText(Tight(Obj(fields))) == ['{'] + MembersText(TightFields(fields), true)
  {
    assert [] + MembersText(TightFields(fields), true) == MembersText(TightFields(fields), true);
  }

  lemma {:induction false} FieldsAreTight(fields: seq<Field>, exact: Exact)
    ensures PrintFields(fields, exact).None? <==> CanonFields(fields, exact).None?
    ensures CanonFields(fields, exact).Some? ==>
              PrintFields(fields, exact) == Some(TextsOf(CanonFields(fields, exact).value))
    decreases fields, 0
  {
    hide Print, Canon, CoreText, Tight;
    if fields != [] {
      PrintIsTight(fields[0].value, exact);
      FieldsAreTight(fields[1..], exact);
      if CanonFields(fields, exact).Some? {
        assert CanonFields(fields, exact).value[1..] == CanonFields(fields[1..], exact).value;
      }
    }
  }

  lemma {:induction false} ObjectIsTight(fields: seq<Field>, exact: Exact)
    ensures Print(Obj(fields), exact).None? <==> Canon(Obj(fields), exact).None?
    ensures Canon(Obj(fields), exact).Some? ==>
              Print(Obj(fields), exact) == Some(CoreText(Tight(Canon(Obj(fields), exact).value)))
    decreases fields, 2
  {
    FieldsAreTight(fields, exact);
    hide PrintFields, CanonFields, TextsOf, Sort, CoreText;
    if CanonFields(fields, exact).Some? {
      var fs := CanonFields(fields, exact).value;
      SortTexts(fs);
      MembersJoin(Sort(fs), true);
      ObjectText(Sort(fs));
    }
  }

  /* ----- A tight spelling means its value ----- */

  lemma {:induction false} TightMeans(j: Json, depth: nat)
    requires Fits(j, depth)
    ensures WellSpelledCore(Tight(j)) && Meaning(Tight(j), depth) == Some(j)
    decreases j, 1
  {
    match j
    case Arr(items) => TightArrayMeans(items, depth);
    case Obj(fields) => TightObjectMeans(fields, depth);
    case Str(s) =>
      EscapeSpells(s);
      hide Spells, Escape;
    case _ => hide Parse;
  }

  lemma {:induction false} TightArrayMeans(items: seq<Json>, depth: nat)
    requires Fits(Arr(items), depth)
    ensures WellSpelledCore(Tight(Arr(items))) && Meaning(Tight(Arr(items)), depth) == Some(Arr(items))
    decreases items, 1
  {
    TightItemsMean(items, depth + 1);
    hide ItemsValue, TightItems, WellSpelled;
  }

  lemma {:induction false} TightObjectMeans(fields: seq<Field>, depth: nat)
    requires Fits(Obj(fields), depth)
    ensures WellSpelledCore(Tight(Obj(fields))) && Meaning(Tight(Obj(fields)), depth) == Some(Obj(fields))
    decreases fields, 1
  {
    assert [] + fields == fields;
    TightFieldsMean(fields, depth + 1, []);
    hide MembersValue, TightFields, WellSpelledMember;
  }

  lemma {:induction false} TightItemsMean(items: seq<Json>, depth: nat)
    requires forall i :: 0 <= i < |items| ==> Fits(items[i], depth)
    ensures ItemsValue(TightItems(items), depth) == Some(items)
    ensures forall i :: 0 <= i < |TightItems(items)| ==> WellSpelled(TightItems(items)[i])
    decreases items, 0
  {
    hide Fits, Meaning, WellSpelledCore, Tight;
    if items != [] {
      TightMeans(items[0], depth);
      assert forall i :: 0 <= i < |items| - 1 ==> items[1..][i] == items[i + 1];
      TightItemsMean(items[1..], depth);
      assert TightItems(items)[1..] == TightItems(items[1..]);
      assert items == [items[0]] + items[1..];
    }
  }

  lemma {:induction false} NotYet(before: seq<Field>, fields: seq<Field>)
    requires fields != [] && DistinctKeys(before + fields)
    ensures !HasKey(before, fields[0].key)
    ensures (before + [fields[0]]) + fields[1..] == before + fields
  {
    var all := before + fields;
    assert all[|before|] == fields[0];
    forall i | 0 <= i < |before| ensures before[i].key != fields[0].key {
      assert all[i] == before[i];
    }
  }

  lemma {:induction false} TightFieldsMean(fields: seq<Field>, depth: nat, before: seq<Field>)
    requires forall i :: 0 <= i < |fields| ==> Fits(fields[i].value, depth)
    requires DistinctKeys(before + fields)
    ensures MembersValue(TightFields(fields), depth, before) == Some(before + fields)
    ensures forall i :: 0 <= i < |TightFields(fields)| ==> WellSpelledMember(TightFields(fields)[i])
    decreases fields, 0
  {
    hide Fits, Meaning, WellSpelledCore, Tight, DistinctKeys, HasKey, Spells, Escape;
    if fields == [] {
      assert before + [] == before;
    } else {
      TightMeans(fields[0].value, depth);
      EscapeSpells(fields[0].key);
      NotYet(before, fields);
      assert forall i :: 0 <= i < |fields| - 1 ==> fields[1..][i] == fields[i + 1];
      assert Keyed(fields[0].key, fields[0].value) == fields[0];
      TightFieldsMean(fields[1..], depth, before + [fields[0]]);
      assert TightFields(fields)[1..] == TightFields(fields[1..]);
    }
  }

  /* ----- Canonical values fit where the value did ----- */

  lemma {:induction false} PrintedNumberParses(text: string, exact: Exact)
    requires PrintNumber(text, exact).Some?
    ensures Parse(PrintNumber(text, exact).value).Some?
  {
    hide Parse, Canonical;
    CanonicalIsStable(text);
  }

  lemma {:induction false} CanonFits(j: Json, exact: Exact, depth: nat)
    requires Fits(j, depth) && Canon(j, exact).Some?
    ensures Fits(Canon(j, exact).value, depth)
    decreases j, 1
  {
    match j
    case Num(text) => PrintedNumberParses(text, exact);
    case Arr(items) => CanonItemsFit(items, exact, depth + 1);
    case Obj(fields) =>
      CanonFieldsFit(fields, exact, depth + 1);
      SortedFits(CanonFields(fields, exact).value, depth + 1);
      hide Sort;
    case _ =>
  }

  lemma {:induction false} CanonItemsFit(items: seq<Json>, exact: Exact, depth: nat)
    requires (forall i :: 0 <= i < |items| ==> Fits(items[i], depth)) && CanonItems(items, exact).Some?
    ensures forall i :: 0 <= i < |CanonItems(items, exact).value| ==> Fits(CanonItems(items, exact).value[i], depth)
    decreases items, 0
  {
    hide Fits, Canon;
    if items != [] {
      CanonFits(items[0], exact, depth);
      assert forall i :: 0 <= i < |items| - 1 ==> items[1..][i] == items[i + 1];
      CanonItemsFit(items[1..], exact, depth);
    }
  }

  lemma {:induction false} CanonFieldsFit(fields: seq<Field>, exact: Exact, depth: nat)
    requires (forall i :: 0 <= i < |fields| ==> Fits(fields[i].value, depth)) && CanonFields(fields, exact).Some?
    requires DistinctKeys(fields)
    ensures var fs := CanonFields(fields, exact).value;
            && |fs| == |fields| && DistinctKeys(fs)
            && forall i :: 0 <= i < |fs| ==> fs[i].key == fields[i].key && Fits(fs[i].value, depth)
    decreases fields, 0
  {
    hide Fits, Canon;
    if fields != [] {
      CanonFits(fields[0].value, exact, depth);
      assert forall i :: 0 <= i < |fields| - 1 ==> fields[1..][i] == fields[i + 1];
      CanonFieldsFit(fields[1..], exact, depth);
    }
  }

  lemma {:induction false} SortedFits(fields: seq<Field>, depth: nat)
    requires DistinctKeys(fields) && forall i :: 0 <= i < |fields| ==> Fits(fields[i].value, depth)
    ensures DistinctKeys(Sort(fields)) && forall i :: 0 <= i < |Sort(fields)| ==> Fits(Sort(fields)[i].value, depth)
  {
    SortKeeps(fields);
    hide Sort, Fits, KeyLess;
    var s := Sort(fields);
    forall i | 0 <= i < |s| ensures Fits(s[i].value, depth) {
      var e := s[i];
      assert e in s && e in Sort(fields);
      var k := IndexOf(fields, e);
    }
    forall i, k | 0 <= i < k < |s| ensures s[i].key != s[k].key {
      KeyOrderIsTotal(s[i].key, s[k].key);
    }
  }

  lemma {:induction false} ValueReadsBack(j: Json, exact: Exact)
    requires Fits(j, 0) && Print(j, exact).Some?
    ensures Canon(j, exact).Some?
    ensures ReadValue(Print(j, exact).value, 0) == Some((Canon(j, exact).value, []))
  {
    PrintIsTight(j, exact);
    CanonFits(j, exact, 0);
    var c := Canon(j, exact).value;
    TightMeans(c, 0);
    hide Print, Canon, Tight, Fits, ReadValue, Meaning;
    ReadsCore(Tight(c), 0, []);
    assert CoreText(Tight(c)) + [] == CoreText(Tight(c));
  }

  /**
   * The canonical form of every accepted body can be read back, and what comes back is the
   * value of the body with numbers in normal form and members in key order.
   */
  lemma {:induction false} CanonicalReadsBack(body: string, exact: Exact)
    requires CanonicalBody(body, exact).Some?
    ensures var j, out := ReadValue(body, 0).value.0, CanonicalBody(body, exact).value;
            Canon(j, exact).Some? && ReadValue(out, 0) == Some((Canon(j, exact).value, []))
  {
    ReadFits(body, 0);
    ValueReadsBack(ReadValue(body, 0).value.0, exact);
    hide Print, Canon, Fits, ReadValue, SkipBlank;
  }

  /* ----- Canonical bodies are fixed points ----- */

  // Every number is short enough, and its exponent small enough, to be read again.
  ghost predicate Rereadable(j: Json) {
    match j
    case Num(text) => Parse(text).Some? && WithinLimits(text)
    case Arr(items) => forall i :: 0 <= i < |items| ==> Rereadable(items[i])
    case Obj(fields) => forall i :: 0 <= i < |fields| ==> Rereadable(fields[i].value)
    case _ => true
  }

  // What canonical spellings of numbers are like: reading one again gives it back or refuses it.
  ghost predicate SettledNumber(text: string) {
    Parse(text).Some? && Canonical(text) == if WithinLimits(text) then Some(text) else None
  }

  // Every number of a canonical value was accepted by `exact`, and its objects are in key order.
  ghost predicate Approved(j: Json, exact: Exact) {
    match j
    case Num(text) => exact(text) && SettledNumber(text)
    case Arr(items) => forall i :: 0 <= i < |items| ==> Approved(items[i], exact)
    case Obj(fields) => Ascending(fields) && forall i :: 0 <= i < |fields| ==> Approved(fields[i].value, exact)
    case _ => true
  }

  lemma {:induction false} PrintedIsSettled(text: string, exact: Exact)
    requires PrintNumber(text, exact).Some?
    ensures exact(PrintNumber(text, exact).value) && SettledNumber(PrintNumber(text, exact).value)
  {
    hide Parse, Canonical, WithinLimits;
    CanonicalIsStable(text);
  }

  lemma {:induction false} CanonIsApproved(j: Json, exact: Exact, depth: nat)
    requires Fits(j, depth) && Canon(j, exact).Some?
    ensures Approved(Canon(j, exact).value, exact)
    decreases j, 1
  {
    match j
    case Arr(items) => CanonItemsApproved(items, exact, depth + 1);
    case Obj(fields) =>
      CanonFieldsFit(fields, exact, depth + 1);
      CanonFieldsApproved(fields, exact, depth + 1);
      SortedApproved(CanonFields(fields, exact).value, exact);
      hide Sort;
    case Num(text) => PrintedIsSettled(text, exact);
    case _ =>
  }

  lemma {:induction false} CanonItemsApproved(items: seq<Json>, exact: Exact, depth: nat)
    requires (forall i :: 0 <= i < |items| ==> Fits(items[i], depth)) && CanonItems(items, exact).Some?
    ensures forall i :: 0 <= i < |CanonItems(items, exact).value| ==> Approved(CanonItems(items, exact).value[i], exact)
    decreases items, 0
  {
    hide Fits, Canon, Approved;
    if items != [] {
      CanonIsApproved(items[0], exact, depth);
      assert forall i :: 0 <= i < |items| - 1 ==> items[1..][i] == items[i + 1];
      CanonItemsApproved(items[1..], exact, depth);
    }
  }

  lemma {:induction false} CanonFieldsApproved(fields: seq<Field>, exact: Exact, depth: nat)
    requires (forall i :: 0 <= i < |fields| ==> Fits(fields[i].value, depth)) && CanonFields(fields, exact).Some?
    ensures forall i :: 0 <= i < |CanonFields(fields, exact).value| ==>
              Approved(CanonFields(fields, exact).value[i].value, exact)
    decreases fields, 0
  {
    hide Fits, Canon, Approved;
    if fields != [] {
      CanonIsApproved(fields[0].value, exact, depth);
      assert forall i :: 0 <= i < |fields| - 1 ==> fields[1..][i] == fields[i + 1];
      CanonFieldsApproved(fields[1..], exact, depth);
    }
  }

  lemma {:induction false} SortedApproved(fields: seq<Field>, exact: Exact)
    requires DistinctKeys(fields) && forall i :: 0 <= i < |fields| ==> Approved(fields[i].value, exact)
    ensures Ascending(Sort(fields)) && forall i :: 0 <= i < |Sort(fields)| ==> Approved(Sort(fields)[i].value, exact)
  {
    SortKeeps(fields);
    hide Sort, Approved, KeyLess;
    var s := Sort(fields);
    forall i | 0 <= i < |s| ensures Approved(s[i].value, exact) {
      var e := s[i];
      assert e in s && e in Sort(fields);
      var k := IndexOf(fields, e);
    }
  }

  lemma {:induction false} CanonAgain(c: Json, exact: Exact)
    requires Approved(c, exact)
    ensures Canon(c, exact) == if Rereadable(c) then Some(c) else None
    decreases c, 1
  {
    match c
    case Num(text) => hide Canonical, Parse, WithinLimits;
    case Arr(items) => ItemsAgain(items, exact);
    case Obj(fields) =>
      FieldsAgain(fields, exact);
      SortedAlready(fields);
      hide Sort, Ascending;
    case _ =>
  }

  lemma {:induction false} ItemsAgain(items: seq<Json>, exact: Exact)
    requires forall i :: 0 <= i < |items| ==> Approved(items[i], exact)
    ensures CanonItems(items, exact) ==
            if forall i :: 0 <= i < |items| ==> Rereadable(items[i]) then Some(items) else None
    decreases items, 0
  {
    hide Rereadable, Approved, Canon;
    if items != [] {
      var rest := items[1..];
      CanonAgain(items[0], exact);
      assert forall i :: 0 <= i < |rest| ==> rest[i] == items[i + 1];
      assert forall i :: 1 <= i < |items| ==> items[i] == rest[i - 1];
      ItemsAgain(rest, exact);
      assert items == [items[0]] + rest;
    }
  }

  lemma {:induction false} FieldsAgain(fields: seq<Field>, exact: Exact)
    requires forall i :: 0 <= i < |fields| ==> Approved(fields[i].value, exact)
    ensures CanonFields(fields, exact) ==
            if forall i :: 0 <= i < |fields| ==> Rereadable(fields[i].value) then Some(fields) else None
    decreases fields, 0
  {
    hide Rereadable, Approved, Canon;
    if fields != [] {
      var rest := fields[1..];
      CanonAgain(fields[0].value, exact);
      assert forall i :: 0 <= i < |rest| ==> rest[i] == fields[i + 1];
      assert forall i :: 1 <= i < |fields| ==> fields[i] == rest[i - 1];
      FieldsAgain(rest, exact);
      assert fields == [Keyed(fields[0].key, fields[0].value)] + rest;
    }
  }

  lemma {:induction false} SortedAlready(fields: seq<Field>)
    requires Ascending(fields)
    ensures Sort(fields) == fields
  {
    forall i, k | 0 <= i < k < |fields| ensures fields[i].key != fields[k].key {
      KeyOrderIsTotal(fields[i].key, fields[k].key);
    }
    hide KeyLess, Sort;
    SortKeeps(fields);
    AscendingIsUnique(Sort(fields), fields);
  }

  /**
   * A canonical form is its own canonical form exactly if it is short enough for a body and each
   * of its numbers is within the limits put on numbers that are read; otherwise it is refused.
   */
  lemma {:induction false} CanonicalFormIsStable(body: string, exact: Exact)
    requires CanonicalBody(body, exact).Some?
    ensures var out := CanonicalBody(body, exact).value;
            && ReadValue(out, 0).Some?
            && CanonicalBody(out, exact) ==
               if SizeFits(out) && Rereadable(ReadValue(out, 0).value.0) then Some(out) else None
  {
    var j := ReadValue(body, 0).value.0;
    ReadFits(body, 0);
    CanonicalReadsBack(body, exact);
    CanonIsApproved(j, exact, 0);
    var c := Canon(j, exact).value;
    assert c.Obj?;
    CanonAgain(c, exact);
    PrintIsTight(j, exact);
    PrintIsTight(c, exact);
    assert SkipBlank([]) == [];
    hide Print, Canon, ReadValue, Fits, Rereadable, Approved, Tight, CoreText, SkipBlank, SizeFits;
  }
}
