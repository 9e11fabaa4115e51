/**
 * Every text the reader accepts is a spelling of what it reads, so results about spellings
 * cover all accepted bodies.
 */
module JsonCoverage {
  import opened Prelude
  import opened Digits
  import opened CanonicalNumber
  import opened KeyOrder
  import opened JsonText
  import opened JsonStrings
  import opened JsonSpelling

  lemma {:induction false} SkipsFront(s: string) returns (n: nat)
    ensures n <= |s| && Blank(s[..n]) && s[n..] == SkipBlank(s)
  {
    n := 0;
    if s != [] && IsBlank(s[0]) {
      n := SkipsFront(s[1..]);
      hide SkipBlank;
      assert forall i :: 0 <= i < n ==> s[1..][i] == s[i + 1];
      assert s[1..][n..] == s[n + 1..];
      assert forall i :: 0 < i < n + 1 ==> s[i] == s[1..][..n][i - 1];
      n := n + 1;
    }
  }

  lemma {:induction false} BlankInFront(s: string) returns (blank: string)
    ensures Blank(blank) && s == blank + SkipBlank(s)
  {
    hide SkipBlank, Blank;
    var n := SkipsFront(s);
    blank := s[..n];
    assert s == s[..n] + s[n..];
  }

  lemma {:induction false} ScalarIsSpelled(t: string) returns (c: Core)
    requires t != [] && ReadScalar(t).Some?
    ensures WellSpelledCore(c) && t == CoreText(c) + ReadScalar(t).value.1
    ensures forall depth: nat :: depth <= MAX_DEPTH ==> Meaning(c, depth) == Some(ReadScalar(t).value.0)
  {
    hide Parse, Spells, ReadString;
    var r := ReadScalar(t).value;
    if t[0] == '"' {
      var raw := ReadIsSpelled(t[1..]);
      c := Quoted(raw, ReadString(t[1..]).value.0);
      assert t == [t[0]] + t[1..];
      AppendAssoc(raw, ['"'], r.1);
      assert QuotedText(raw) + r.1 == ['"'] + (raw + (['"'] + r.1));
    } else if t[0] == '-' || IsDigit(t[0]) {
      c := Atom(r.0);
    } else {
      c := Atom(r.0);
      var n := |t| - |r.1|;
      assert t == t[..n] + t[n..];
    }
  }

  lemma {:induction false} ValueIsSpelled(s: string, depth: nat) returns (before: string, c: Core)
    requires ReadValue(s, depth).Some?
    ensures Blank(before) && WellSpelledCore(c) && Meaning(c, depth) == Some(ReadValue(s, depth).value.0)
    ensures s == before + (CoreText(c) + ReadValue(s, depth).value.1)
    decreases |s|, 1
  {
    hide ReadScalar, ReadItems, ReadMembers, ItemsText, MembersText, ItemsValue, MembersValue, AtomText, Parse, Spells;
    var t, r := SkipBlank(s), ReadValue(s, depth).value.1;
    before := BlankInFront(s);
    if t[0] == '[' {
      var blank, items := ItemsAreSpelled(t[1..], depth, []);
      c := SrcArr(items, blank);
      assert [] + ItemsValue(items, depth + 1).value == ItemsValue(items, depth + 1).value;
      Opened(t, '[', blank, ItemsText(items, true), r);
    } else if t[0] == '{' {
      var blank, ms := MembersAreSpelled(t[1..], depth, []);
      c := SrcObj(ms, blank);
      Opened(t, '{', blank, MembersText(ms, true), r);
    } else {
      c := ScalarIsSpelled(t);
    }
  }

  lemma {:induction false} Opened(t: string, bracket: char, blank: string, body: string, r: string)
    requires t != [] && t[0] == bracket && t[1..] == blank + (body + r)
    ensures t == ([bracket] + (blank + body)) + r
  {
    AppendAssoc(blank, body, r);
    assert t == [t[0]] + t[1..];
  }

  // One item, the blanks around it, and what follows.
  lemma {:induction false} ItemInFront(
      items: seq<Src>, first: bool, b: string, c: Core, blank: string, u: string, r: string)
    requires u == b + (CoreText(c) + (blank + (ItemsText(items, false) + r)))
    ensures (if first then "" else ",") + u == ItemsText([Src(b, c, blank)] + items, first) + r
  {
    hide CoreText;
    var item, all := Src(b, c, blank), [Src(b, c, blank)] + items;
    assert all[1..] == items && all[0] == item;
    ItemsUnfold(all, first, r);
    Regroup(b, CoreText(c), blank, ItemsText(items, false) + r);
  }

  lemma {:induction false} ItemsAreSpelled(s: string, depth: nat, prior: seq<Json>)
      returns (blank: string, items: seq<Src>)
    requires ReadItems(s, depth, prior).Some?
    ensures Blank(blank) && forall i :: 0 <= i < |items| ==> WellSpelled(items[i])
    ensures ItemsValue(items, depth + 1).Some?
    ensures ReadItems(s, depth, prior).value.0 == Arr(prior + ItemsValue(items, depth + 1).value)
    ensures s == blank + (ItemsText(items, prior == []) + ReadItems(s, depth, prior).value.1)
    decreases |s|, 2
  {
    hide ReadValue, CoreText, Meaning, WellSpelledCore;
    var t, r := SkipBlank(s), ReadItems(s, depth, prior).value.1;
    blank := BlankInFront(s);
    if t[0] == ']' {
      items := [];
      assert prior + [] == prior && t == [']'] + r;
    } else {
      var u := if prior == [] then t else t[1..];
      var x := ReadValue(u, depth + 1).value;
      var b, c := ValueIsSpelled(u, depth + 1);
      var after, others := ItemsAreSpelled(x.1, depth, prior + [x.0]);
      hide ReadItems;
      ItemInFront(others, prior == [], b, c, after, u, r);
      items := [Src(b, c, after)] + others;
      assert items[1..] == others && items[0] == Src(b, c, after);
      assert t == (if prior == [] then "" else ",") + u;
      AppendAssocItems(prior, x.0, ItemsValue(others, depth + 1).value);
    }
  }

  lemma {:induction false} MemberInFront(
      ms: seq<Member>, first: bool, m: Member, u: string, r: string)
    requires u == m.before + (QuotedText(m.raw) + (m.between + ([':'] +
                    (m.value.before + (CoreText(m.value.core) + (m.value.after + (MembersText(ms, false) + r)))))))
    ensures (if first then "" else ",") + u == MembersText([m] + ms, first) + r
  {
    hide CoreText, QuotedText;
    var tail := MembersText(ms, false) + r;
    assert ([m] + ms)[1..] == ms && ([m] + ms)[0] == m;
    MembersUnfold([m] + ms, first, r);
    Regroup(m.value.before, CoreText(m.value.core), m.value.after, tail);
    MemberRegroup(m.before, QuotedText(m.raw), m.between, SrcText(m.value), tail);
  }

  // From the opening quote of a key to the value behind the colon.
  lemma {:induction false} KeyInFront(u: string) returns (raw: string, between: string)
    requires u != [] && u[0] == '"' && ReadString(u[1..]).Some?
    requires var v := SkipBlank(ReadString(u[1..]).value.1); v != [] && v[0] == ':'
    ensures var k := ReadString(u[1..]).value;
            && Spells(raw, k.0) && Blank(between)
            && u == QuotedText(raw) + (between + ([':'] + SkipBlank(k.1)[1..]))
  {
    var k := ReadString(u[1..]).value;
    hide ReadString, Spells;
    raw := ReadIsSpelled(u[1..]);
    between := BlankInFront(k.1);
    var v := SkipBlank(k.1);
    assert v == [':'] + v[1..] && u == ['"'] + u[1..];
    AppendAssoc(raw, ['"'], k.1);
    assert QuotedText(raw) + k.1 == ['"'] + (raw + (['"'] + k.1));
  }

  lemma {:induction false} NoMoreMembers(s: string, depth: nat, fields: seq<Field>)
    requires ReadMembers(s, depth, fields).Some? && SkipBlank(s)[0] == '}'
    ensures ReadMembers(s, depth, fields).value.0 == Obj(fields)
    ensures SkipBlank(s) == ['}'] + ReadMembers(s, depth, fields).value.1
  {
    hide ReadValue, ReadString, HasKey;
  }

  // What reading one member found: w is the text behind the separator.
  lemma {:induction false} NextMember(s: string, depth: nat, fields: seq<Field>) returns (w: string)
    requires ReadMembers(s, depth, fields).Some? && SkipBlank(s)[0] != '}'
    ensures SkipBlank(s) == (if fields == [] then "" else ",") + w
    ensures var u := SkipBlank(w); u != [] && u[0] == '"' && ReadString(u[1..]).Some?
    ensures var k := ReadString(SkipBlank(w)[1..]).value;
            var v := SkipBlank(k.1);
            !HasKey(fields, k.0) && v != [] && v[0] == ':' && ReadValue(v[1..], depth + 1).Some?
            && var x := ReadValue(v[1..], depth + 1).value;
               ReadMembers(s, depth, fields) == ReadMembers(x.1, depth, fields + [Keyed(k.0, x.0)])
  {
    hide ReadValue, ReadString, HasKey;
    var t := SkipBlank(s);
    w := if fields == [] then t else t[1..];
    assert fields == [] ==> SkipBlank(w) == t by { assert "" + t == t; SkipsBlank("", t); }
  }

  lemma {:induction false} MembersAreSpelled(s: string, depth: nat, fields: seq<Field>)
      returns (blank: string, ms: seq<Member>)
    requires ReadMembers(s, depth, fields).Some?
    ensures Blank(blank) && forall i :: 0 <= i < |ms| ==> WellSpelledMember(ms[i])
    ensures MembersValue(ms, depth + 1, fields).Some?
    ensures ReadMembers(s, depth, fields).value.0 == Obj(MembersValue(ms, depth + 1, fields).value)
    ensures s == blank + (MembersText(ms, fields == []) + ReadMembers(s, depth, fields).value.1)
    decreases |s|, 0
  {
    hide ReadValue, CoreText, Meaning, WellSpelledCore, ReadString, Spells, HasKey, QuotedText, SkipBlank;
    var r := ReadMembers(s, depth, fields).value.1;
    assert SkipBlank(s) != [];
    hide ReadMembers;
    blank := BlankInFront(s);
    if SkipBlank(s)[0] == '}' {
      ms := [];
      NoMoreMembers(s, depth, fields);
    } else {
      var w := NextMember(s, depth, fields);
      var front := BlankInFront(w);
      var u := SkipBlank(w);
      var k := ReadString(u[1..]).value;
      var v := SkipBlank(k.1);
      var raw, between := KeyInFront(u);
      var x := ReadValue(v[1..], depth + 1).value;
      var b, c := ValueIsSpelled(v[1..], depth + 1);
      var after, others := MembersAreSpelled(x.1, depth, fields + [Keyed(k.0, x.0)]);
      var m := Member(front, raw, k.0, between, Src(b, c, after));
      MemberInFront(others, fields == [], m, w, r);
      ms := [m] + others;
      assert ms[1..] == others && ms[0] == m;
    }
  }

  /** A body that is read to its end is a spelling, and what is read is its meaning. */
  lemma {:induction false} AcceptedIsSpelled(s: string) returns (src: Src)
    requires ReadValue(s, 0).Some? && SkipBlank(ReadValue(s, 0).value.1) == []
    ensures WellSpelled(src) && SrcText(src) == s && Meaning(src.core, 0) == Some(ReadValue(s, 0).value.0)
  {
    hide ReadValue, CoreText, Meaning, WellSpelledCore;
    var before, c := ValueIsSpelled(s, 0);
    var r := ReadValue(s, 0).value.1;
    var after := BlankInFront(r);
    assert after + [] == after;
    src := Src(before, c, r);
  }

  /* ----- What is read fits ----- */

  // No deeper than allowed, and no key twice; every number obeys the grammar.
  ghost predicate Fits(j: Json, depth: nat) {
    depth <= MAX_DEPTH
    && match j
       case Num(text) => Parse(text).Some?
       case Arr(items) => forall i :: 0 <= i < |items| ==> Fits(items[i], depth + 1)
       case Obj(fields) => DistinctKeys(fields) && forall i :: 0 <= i < |fields| ==> Fits(fields[i].value, depth + 1)
       case _ => true
  }

  lemma {:induction false} MeaningFits(c: Core, depth: nat)
    requires WellSpelledCore(c) && Meaning(c, depth).Some?
    ensures Fits(Meaning(c, depth).value, depth)
    decreases c, 0
  {
    hide Parse, Spells, DistinctKeys;
    match c
    case Atom(v) =>
    case Quoted(_, _) =>
    case SrcArr(items, _) => ItemsFit(items, depth + 1);
    case SrcObj(ms, _) =>
      assert DistinctKeys<Json>([]) by { NoneDistinct(); }
      MembersFit(ms, depth + 1, []);
  }

  lemma {:induction false} NoneDistinct()
    ensures DistinctKeys<Json>([])
  {
  }

  lemma {:induction false} ItemsFit(items: seq<Src>, depth: nat)
    requires (forall i :: 0 <= i < |items| ==> WellSpelled(items[i])) && ItemsValue(items, depth).Some?
    ensures forall i :: 0 <= i < |ItemsValue(items, depth).value| ==> Fits(ItemsValue(items, depth).value[i], depth)
    decreases items
  {
    hide Fits, Meaning, WellSpelledCore;
    if items != [] {
      MeaningFits(items[0].core, depth);
      assert forall i :: 0 <= i < |items| - 1 ==> items[1..][i] == items[i + 1];
      ItemsFit(items[1..], depth);
    }
  }

  lemma {:induction false} MembersFit(ms: seq<Member>, depth: nat, fields: seq<Field>)
    requires (forall i :: 0 <= i < |ms| ==> WellSpelledMember(ms[i])) && MembersValue(ms, depth, fields).Some?
    requires DistinctKeys(fields) && forall i :: 0 <= i < |fields| ==> Fits(fields[i].value, depth)
    ensures var all := MembersValue(ms, depth, fields).value;
            DistinctKeys(all) && forall i :: 0 <= i < |all| ==> Fits(all[i].value, depth)
    decreases ms
  {
    hide Fits, Meaning, WellSpelledCore, Spells;
    if ms != [] {
      assert WellSpelledMember(ms[0]) && WellSpelled(ms[0].value);
      MeaningFits(ms[0].value.core, depth);
      var next := fields + [Keyed(ms[0].key, Meaning(ms[0].value.core, depth).value)];
      assert DistinctKeys(next) by { assert forall i :: 0 <= i < |fields| ==> fields[i].key != ms[0].key; }
      hide DistinctKeys, HasKey;
      assert forall i :: 0 <= i < |ms| - 1 ==> ms[1..][i] == ms[i + 1];
      MembersFit(ms[1..], depth, next);
    }
  }

  /** Whatever is read at a depth fits there. */
  lemma {:induction false} ReadFits(s: string, depth: nat)
    requires ReadValue(s, depth).Some?
    ensures Fits(ReadValue(s, depth).value.0, depth)
  {
    var before, c := ValueIsSpelled(s, depth);
    MeaningFits(c, depth);
    hide ReadValue, Fits, Meaning;
  }
}
