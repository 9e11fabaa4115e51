/**
 * Spellings of JSON values with any whitespace, escapes and member order, and the proof that
 * reading a spelling gives the value it spells.
 */
module JsonSpelling {
  import opened Prelude
  import opened CanonicalNumber
  import opened KeyOrder
  import opened JsonText
  import opened JsonStrings

  // A spelled value with the whitespace around it.
  datatype Src = Src(before: string, core: Core, after: string)

  // A string has the raw text between its quotes and the string that text spells; the blank of
  // a list or object follows its opening bracket.
  datatype Core =
    | Atom(value: Json)
    | Quoted(raw: string, s: string)
    | SrcArr(items: seq<Src>, blank: string)
    | SrcObj(members: seq<Member>, blank: string)

  datatype Member = Member(before: string, raw: string, key: string, between: string, value: Src)

  /* ----- Text ----- */

  function AtomText(v: Json): string {
    match v
    case Null => "null"
    case Bool(b) => if b then "true" else "false"
    case Num(text) => text
    case _ => ""
  }

  function QuotedText(raw: string): string { ['"'] + (raw + ['"']) }

  function CoreText(c: Core): string {
    match c
    case Atom(v) => AtomText(v)
    case Quoted(raw, _) => QuotedText(raw)
    case SrcArr(items, blank) => ['['] + (blank + ItemsText(items, true))
    case SrcObj(members, blank) => ['{'] + (blank + MembersText(members, true))
  }

  function SrcText(s: Src): string { s.before + (CoreText(s.core) + s.after) }

  // From the next item to the closing bracket.
  function ItemsText(items: seq<Src>, first: bool): string {
    if items == [] then [']']
    else (if first then "" else ",") + (SrcText(items[0]) + ItemsText(items[1..], false))
  }

  function MembersText(ms: seq<Member>, first: bool): string {
    if ms == [] then ['}']
    else (if first then "" else ",") + (MemberText(ms[0]) + MembersText(ms[1..], false))
  }

  function MemberText(m: Member): string {
    m.before + (QuotedText(m.raw) + (m.between + ([':'] + SrcText(m.value))))
  }

  /* ----- What a spelling stands for ----- */

  predicate WellSpelledCore(c: Core) {
    match c
    case Atom(v) => v.Null? || v.Bool? || (v.Num? && Parse(v.text).Some?)
    case Quoted(raw, s) => Spells(raw, s)
    case SrcArr(items, blank) => Blank(blank) && forall i :: 0 <= i < |items| ==> WellSpelled(items[i])
    case SrcObj(members, blank) => Blank(blank) && forall i :: 0 <= i < |members| ==> WellSpelledMember(members[i])
  }

  predicate WellSpelled(s: Src) { Blank(s.before) && Blank(s.after) && WellSpelledCore(s.core) }

  predicate WellSpelledMember(m: Member) {
    Blank(m.before) && Blank(m.between) && Spells(m.raw, m.key) && WellSpelled(m.value)
  }

  // Nothing if it is nested too deeply or repeats a key.
  function Meaning(c: Core, depth: nat): Option<Json> {
    if depth > MAX_DEPTH then None
    else
      match c
      case Atom(v) => Some(v)
      case Quoted(_, s) => Some(Str(s))
      case SrcArr(items, _) =>
        var vs := ItemsValue(items, depth + 1);
        if vs.None? then None else Some(Arr(vs.value))
      case SrcObj(members, _) =>
        var fs := MembersValue(members, depth + 1, []);
        if fs.None? then None else Some(Obj(fs.value))
  }

  function ItemsValue(items: seq<Src>, depth: nat): Option<seq<Json>> {
    if items == [] then Some([])
    else
      var v := Meaning(items[0].core, depth);
      if v.None? then None
      else
        var vs := ItemsValue(items[1..], depth);
        if vs.None? then None else Some([v.value] + vs.value)
  }

  function MembersValue(ms: seq<Member>, depth: nat, fields: seq<Field>): Option<seq<Field>>
    decreases ms
  {
    if ms == [] then Some(fields)
    else if HasKey(fields, ms[0].key) then None
    else
      var v := Meaning(ms[0].value.core, depth);
      if v.None? then None else MembersValue(ms[1..], depth, fields + [Keyed(ms[0].key, v.value)])
  }

  /* ----- Reading skips whitespace ----- */

  predicate Ends(rest: string) { rest != [] ==> !NumberChar(rest[0]) }

  lemma {:induction false} ReadAfterBlank(blank: string, s: string, depth: nat)
    requires Blank(blank)
    ensures ReadValue(blank + s, depth) == ReadValue(s, depth)
  {
    SkipsMore(blank, s);
  }

  lemma {:induction false} ItemsAfterBlank(blank: string, s: string, depth: nat, items: seq<Json>)
    requires Blank(blank)
    ensures ReadItems(blank + s, depth, items) == ReadItems(s, depth, items)
  {
    SkipsMore(blank, s);
    hide ReadValue;
  }

  lemma {:induction false} MembersAfterBlank(blank: string, s: string, depth: nat, fields: seq<Field>)
    requires Blank(blank)
    ensures ReadMembers(blank + s, depth, fields) == ReadMembers(s, depth, fields)
  {
    SkipsMore(blank, s);
    hide ReadValue, ReadString, HasKey;
  }

  /* ----- Scalars ----- */

  lemma {:induction false} WordRead(word: string, rest: string)
    ensures StartsWith(word + rest, word) && (word + rest)[|word|..] == rest
  {
  }

  lemma {:induction false} ReadsQuoted(raw: string, s: string, depth: nat, rest: string)
    requires Spells(raw, s) && depth <= MAX_DEPTH
    ensures ReadValue(QuotedText(raw) + rest, depth) == Some((Str(s), rest))
  {
    var t := QuotedText(raw) + rest;
    assert t[1..] == raw + (['"'] + rest) && SkipBlank(t) == t;
    SpelledReads(raw, s, rest);
    hide ReadString, Spells, ReadMembers, ReadItems;
  }

  lemma {:induction false} ReadsNumber(text: string, rest: string)
    requires Parse(text).Some? && Ends(rest)
    ensures ReadScalar(text + rest) == Some((Num(text), rest))
  {
    NumbersAreNumberChars(text);
    NumberRunOf(text, rest);
    var t := text + rest;
    assert t[..|text|] == text && t[|text|..] == rest && t[0] == text[0];
    hide Parse, NumberRun;
  }

  lemma {:induction false} ReadsWord(v: Json, rest: string)
    requires v.Null? || v.Bool?
    ensures ReadScalar(AtomText(v) + rest) == Some((v, rest))
  {
    WordRead(AtomText(v), rest);
    var t := AtomText(v) + rest;
    assert t[0] == AtomText(v)[0];
    hide ReadString, NumberRun, Parse;
  }

  lemma {:induction false} AtomStart(v: Json)
    requires WellSpelledCore(Atom(v))
    ensures AtomText(v) != []
    ensures !IsBlank(AtomText(v)[0]) && AtomText(v)[0] !in {'{', '[', ']', '}', ','}
  {
    if v.Num? { NumbersAreNumberChars(v.text); }
    hide Parse;
  }

  lemma {:induction false} ReadsAtom(v: Json, depth: nat, rest: string)
    requires WellSpelledCore(Atom(v)) && Ends(rest) && depth <= MAX_DEPTH
    ensures ReadValue(AtomText(v) + rest, depth) == Some((v, rest))
  {
    AtomStart(v);
    var t := AtomText(v) + rest;
    assert t[0] == AtomText(v)[0] && SkipBlank(t) == t;
    if v.Num? { ReadsNumber(v.text, rest); } else { ReadsWord(v, rest); }
    hide ReadScalar, AtomText, Parse, ReadMembers, ReadItems;
  }

  lemma {:induction false} CoreStart(c: Core)
    requires WellSpelledCore(c)
    ensures CoreText(c) != [] && !IsBlank(CoreText(c)[0]) && CoreText(c)[0] !in {']', '}', ','}
  {
    if c.Atom? { AtomStart(c.value); }
  }

  /* ----- Reading a spelling ----- */

  function Expected(v: Option<Json>, rest: string): Option<(Json, string)> {
    if v.None? then None else Some((v.value, rest))
  }

  function ExpectedItems(vs: Option<seq<Json>>, before: seq<Json>, rest: string): Option<(Json, string)> {
    if vs.None? then None else Some((Arr(before + vs.value), rest))
  }

  function ExpectedMembers(fs: Option<seq<Field>>, rest: string): Option<(Json, string)> {
    if fs.None? then None else Some((Obj(fs.value), rest))
  }

  lemma {:induction false} TooDeep(s: string, depth: nat)
    requires depth > MAX_DEPTH
    ensures ReadValue(s, depth).None?
  {
  }

  // One spelled value with its whitespace, up to what follows it.
  lemma {:induction false} ReadsSrc(s: Src, depth: nat, rest: string)
    requires WellSpelled(s) && Ends(s.after + rest)
    requires ReadValue(CoreText(s.core) + (s.after + rest), depth) == Expected(Meaning(s.core, depth), s.after + rest)
    ensures ReadValue(SrcText(s) + rest, depth) == Expected(Meaning(s.core, depth), s.after + rest)
  {
    hide ReadValue, Meaning;
    CoreStart(s.core);
    var t := CoreText(s.core) + (s.after + rest);
    ReadAfterBlank(s.before, t, depth);
    assert SrcText(s) + rest == s.before + t by { Regroup(s.before, CoreText(s.core), s.after, rest); }
  }

  lemma {:induction false} Regroup(a: string, b: string, c: string, d: string)
    ensures (a + (b + c)) + d == a + (b + (c + d))
  {
    AppendAssoc(a, b + c, d);
    AppendAssoc(b, c, d);
  }

  lemma {:induction false} BlankEnds(blank: string, rest: string)
    requires Blank(blank) && Ends(rest)
    ensures Ends(blank + rest)
  {
  }

  lemma {:induction false} TailStarts(items: seq<Src>, rest: string)
    ensures var t := ItemsText(items, false) + rest; t != [] && (t[0] == ']' || t[0] == ',') && Ends(t)
  {
  }

  lemma {:induction false} MembersTailStarts(ms: seq<Member>, rest: string)
    ensures var t := MembersText(ms, false) + rest; t != [] && (t[0] == '}' || t[0] == ',') && Ends(t)
  {
  }

  // One more item has been read.
  lemma {:induction false} ItemStep(items: seq<Src>, depth: nat, before: seq<Json>, rest: string)
    requires items != [] && WellSpelled(items[0])
    requires ReadValue(CoreText(items[0].core) + (items[0].after + (ItemsText(items[1..], false) + rest)), depth + 1) ==
             Expected(Meaning(items[0].core, depth + 1), items[0].after + (ItemsText(items[1..], false) + rest))
    ensures ReadItems(ItemsText(items, before == []) + rest, depth, before) ==
            var v := Meaning(items[0].core, depth + 1);
            if v.None? then None else ReadItems(ItemsText(items[1..], false) + rest, depth, before + [v.value])
  {
    hide ReadValue, Meaning, CoreText, WellSpelledCore;
    var s, tail := items[0], ItemsText(items[1..], false) + rest;
    TailStarts(items[1..], rest);
    BlankEnds(s.after, tail);
    ReadsSrc(s, depth + 1, tail);
    var v := Meaning(s.core, depth + 1);
    if v.Some? { ItemsAfterBlank(s.after, tail, depth, before + [v.value]); }
    hide ItemsText, SrcText;
    assert ItemsText(items, before == []) + rest ==
           (if before == [] then "" else ",") + (SrcText(s) + tail) by { ItemsUnfold(items, before == [], rest); }
    if before == [] {
      FirstItem(s, tail, depth);
    } else {
      NextItem(SrcText(s) + tail, depth, before);
    }
  }

  lemma {:induction false} ItemsUnfold(items: seq<Src>, first: bool, rest: string)
    requires items != []
    ensures ItemsText(items, first) + rest ==
            (if first then "" else ",") + (SrcText(items[0]) + (ItemsText(items[1..], false) + rest))
  {
    Regroup(if first then "" else ",", SrcText(items[0]), ItemsText(items[1..], false), rest);
    hide SrcText;
  }

  lemma {:induction false} NextItem(t: string, depth: nat, before: seq<Json>)
    requires before != []
    ensures ReadItems("," + t, depth, before) ==
            if t == [] || ReadValue(t, depth + 1).None? then None
            else ReadItems(ReadValue(t, depth + 1).value.1, depth, before + [ReadValue(t, depth + 1).value.0])
  {
    assert ("," + t)[1..] == t && SkipBlank("," + t) == "," + t;
    hide ReadValue;
  }

  lemma {:induction false} FirstItem(s: Src, tail: string, depth: nat)
    requires WellSpelled(s)
    ensures ReadItems("" + (SrcText(s) + tail), depth, []) ==
            var x := ReadValue(SrcText(s) + tail, depth + 1);
            if x.None? then None else ReadItems(x.value.1, depth, [] + [x.value.0])
  {
    CoreStart(s.core);
    var t := CoreText(s.core) + (s.after + tail);
    Regroup(s.before, CoreText(s.core), s.after, tail);
    SkipsBlank(s.before, t);
    ReadAfterBlank(s.before, t, depth + 1);
    assert "" + (SrcText(s) + tail) == s.before + t;
    hide ReadValue, CoreText, SrcText;
  }

  /* ----- Members ----- */

  // After the separator: the key, the colon, and the value's text.
  lemma {:induction false} QuoteOpens(raw: string, key: string, next: string)
    requires Spells(raw, key)
    ensures (QuotedText(raw) + next) != [] && (QuotedText(raw) + next)[0] == '"'
    ensures ReadString((QuotedText(raw) + next)[1..]) == Some((key, next))
  {
    SpelledReads(raw, key, next);
    assert (QuotedText(raw) + next)[1..] == raw + (['"'] + next);
    hide ReadString, Spells;
  }

  lemma {:induction false} MemberHead(m: Member, tail: string) returns (t: string, v: string)
    requires WellSpelledMember(m)
    ensures t == QuotedText(m.raw) + (m.between + v)
    ensures MemberText(m) + tail == m.before + t
    ensures t != [] && t[0] == '"' && ReadString(t[1..]) == Some((m.key, m.between + v))
            && SkipBlank(m.between + v) == v
    ensures v == [':'] + (SrcText(m.value) + tail) && v[0] == ':' && v[1..] == SrcText(m.value) + tail
  {
    hide ReadString, SrcText, QuotedText, Spells;
    v := [':'] + (SrcText(m.value) + tail);
    t := QuotedText(m.raw) + (m.between + v);
    SkipsBlank(m.between, v);
    QuoteOpens(m.raw, m.key, m.between + v);
    assert v[1..] == SrcText(m.value) + tail;
    MemberRegroup(m.before, QuotedText(m.raw), m.between, SrcText(m.value), tail);
  }

  lemma {:induction false} MemberRegroup(a: string, b: string, c: string, d: string, e: string)
    ensures (a + (b + (c + ([':'] + d)))) + e == a + (b + (c + ([':'] + (d + e))))
  {
    AppendAssoc(a, b + (c + ([':'] + d)), e);
    AppendAssoc(b, c + ([':'] + d), e);
    AppendAssoc(c, [':'] + d, e);
    AppendAssoc([':'], d, e);
  }

  lemma {:induction false} MembersUnfold(ms: seq<Member>, first: bool, rest: string)
    requires ms != []
    ensures MembersText(ms, first) + rest ==
            (if first then "" else ",") + (MemberText(ms[0]) + (MembersText(ms[1..], false) + rest))
  {
    Regroup(if first then "" else ",", MemberText(ms[0]), MembersText(ms[1..], false), rest);
    hide MemberText;
  }

  // What reading a member does, given where its parts begin.
  lemma {:induction false} ReadsMember(sep: string, m: Member, tail: string, depth: nat, fields: seq<Field>)
    requires WellSpelledMember(m) && sep == (if fields == [] then "" else ",")
    ensures ReadMembers(sep + (MemberText(m) + tail), depth, fields) ==
            if HasKey(fields, m.key) then None
            else
              var x := ReadValue(SrcText(m.value) + tail, depth + 1);
              if x.None? then None else ReadMembers(x.value.1, depth, fields + [Keyed(m.key, x.value.0)])
  {
    var t, v := MemberHead(m, tail);
    hide ReadString, SrcText, MemberText, QuotedText, HasKey, ReadValue, Spells;
    SkipsBlank(m.before, t);
    SkipsBlank([], t);
    assert [] + t == t;
    if fields == [] {
      assert sep + (m.before + t) == m.before + t;
    } else {
      assert ("," + (m.before + t))[1..] == m.before + t && SkipBlank("," + (m.before + t)) == "," + (m.before + t);
    }
  }

  lemma {:induction false} MemberStep(ms: seq<Member>, depth: nat, fields: seq<Field>, rest: string)
    requires ms != [] && WellSpelledMember(ms[0])
    requires ReadValue(
               CoreText(ms[0].value.core) + (ms[0].value.after + (MembersText(ms[1..], false) + rest)), depth + 1) ==
             Expected(Meaning(ms[0].value.core, depth + 1), ms[0].value.after + (MembersText(ms[1..], false) + rest))
    ensures ReadMembers(MembersText(ms, fields == []) + rest, depth, fields) ==
            if HasKey(fields, ms[0].key) then None
            else
              var v := Meaning(ms[0].value.core, depth + 1);
              if v.None? then None
              else ReadMembers(MembersText(ms[1..], false) + rest, depth, fields + [Keyed(ms[0].key, v.value)])
  {
    hide ReadValue, Meaning, CoreText, WellSpelledCore, HasKey, ReadMembers;
    var s, tail := ms[0].value, MembersText(ms[1..], false) + rest;
    MembersTailStarts(ms[1..], rest);
    BlankEnds(s.after, tail);
    ReadsSrc(s, depth + 1, tail);
    var v := Meaning(s.core, depth + 1);
    if v.Some? { MembersAfterBlank(s.after, tail, depth, fields + [Keyed(ms[0].key, v.value)]); }
    MembersUnfold(ms, fields == [], rest);
    ReadsMember(if fields == [] then "" else ",", ms[0], tail, depth, fields);
  }

  /* ----- The induction ----- */

  lemma {:induction false} ReadsCore(c: Core, depth: nat, rest: string)
    requires WellSpelledCore(c) && Ends(rest)
    ensures ReadValue(CoreText(c) + rest, depth) == Expected(Meaning(c, depth), rest)
    decreases c
  {
    if depth > MAX_DEPTH {
      TooDeep(CoreText(c) + rest, depth);
    } else {
      match c
      case Atom(v) => ReadsAtom(v, depth, rest);
      case Quoted(raw, t) => ReadsQuoted(raw, t, depth, rest);
      case SrcArr(items, blank) =>
        ArrayOpens(items, blank, depth, rest);
        ReadsItems(items, depth, [], rest);
        StartsEmpty(ItemsValue(items, depth + 1), rest);
      case SrcObj(members, blank) =>
        ObjectOpens(members, blank, depth, rest);
        ReadsMembers(members, depth, [], rest);
    }
  }

  lemma {:induction false} StartsEmpty(vs: Option<seq<Json>>, rest: string)
    ensures ExpectedItems(vs, [], rest) == if vs.None? then None else Some((Arr(vs.value), rest))
  {
    if vs.Some? { assert [] + vs.value == vs.value; }
  }

  lemma {:induction false} ArrayOpens(items: seq<Src>, blank: string, depth: nat, rest: string)
    requires depth <= MAX_DEPTH && Blank(blank)
    ensures ReadValue(CoreText(SrcArr(items, blank)) + rest, depth) ==
            ReadItems(ItemsText(items, true) + rest, depth, [])
  {
    var body := ItemsText(items, true);
    var t := (['['] + (blank + body)) + rest;
    assert t[0] == '[' && SkipBlank(t) == t;
    assert t[1..] == blank + (body + rest) by { AppendAssoc(blank, body, rest); }
    ItemsAfterBlank(blank, body + rest, depth, []);
    hide ReadItems, ItemsText;
  }

  lemma {:induction false} ObjectOpens(members: seq<Member>, blank: string, depth: nat, rest: string)
    requires depth <= MAX_DEPTH && Blank(blank)
    ensures ReadValue(CoreText(SrcObj(members, blank)) + rest, depth) ==
            ReadMembers(MembersText(members, true) + rest, depth, [])
  {
    var body := MembersText(members, true);
    var t := (['{'] + (blank + body)) + rest;
    assert t[0] == '{' && SkipBlank(t) == t;
    assert t[1..] == blank + (body + rest) by { AppendAssoc(blank, body, rest); }
    MembersAfterBlank(blank, body + rest, depth, []);
    hide ReadMembers, MembersText;
  }

  lemma {:induction false} ItemsClose(depth: nat, before: seq<Json>, rest: string)
    ensures ReadItems(ItemsText([], before == []) + rest, depth, before) == Some((Arr(before), rest))
  {
    var t := [']'] + rest;
    assert SkipBlank(t) == t && t[1..] == rest;
    hide ReadValue;
  }

  lemma {:induction false} MembersClose(depth: nat, fields: seq<Field>, rest: string)
    ensures ReadMembers(MembersText([], fields == []) + rest, depth, fields) == Some((Obj(fields), rest))
  {
    var t := ['}'] + rest;
    assert SkipBlank(t) == t && t[1..] == rest;
    hide ReadValue, ReadString;
  }

  lemma {:induction false} ReadsItems(items: seq<Src>, depth: nat, before: seq<Json>, rest: string)
    requires forall i :: 0 <= i < |items| ==> WellSpelled(items[i])
    ensures ReadItems(ItemsText(items, before == []) + rest, depth, before) ==
            ExpectedItems(ItemsValue(items, depth + 1), before, rest)
    decreases items
  {
    hide ReadItems, ReadValue, ItemsText, CoreText, Meaning, WellSpelledCore;
    if items == [] {
      ItemsClose(depth, before, rest);
      assert before + [] == before;
    } else {
      var s, tail := items[0], ItemsText(items[1..], false) + rest;
      TailStarts(items[1..], rest);
      BlankEnds(s.after, tail);
      ReadsCore(s.core, depth + 1, s.after + tail);
      ItemStep(items, depth, before, rest);
      var v := Meaning(s.core, depth + 1);
      if v.Some? {
        assert forall i :: 0 <= i < |items| - 1 ==> items[1..][i] == items[i + 1];
        ReadsItems(items[1..], depth, before + [v.value], rest);
        if ItemsValue(items[1..], depth + 1).Some? {
          AppendAssocItems(before, v.value, ItemsValue(items[1..], depth + 1).value);
        }
      }
    }
  }

  lemma {:induction false} AppendAssocItems(before: seq<Json>, v: Json, vs: seq<Json>)
    ensures (before + [v]) + vs == before + ([v] + vs)
  {
  }

  lemma {:induction false} ReadsMembers(ms: seq<Member>, depth: nat, fields: seq<Field>, rest: string)
    requires forall i :: 0 <= i < |ms| ==> WellSpelledMember(ms[i])
    ensures ReadMembers(MembersText(ms, fields == []) + rest, depth, fields) ==
            ExpectedMembers(MembersValue(ms, depth + 1, fields), rest)
    decreases ms
  {
    hide ReadMembers, ReadValue, MembersText, CoreText, Meaning, WellSpelledCore, HasKey;
    if ms == [] {
      MembersClose(depth, fields, rest);
    } else {
      var s, tail := ms[0].value, MembersText(ms[1..], false) + rest;
      assert WellSpelledMember(ms[0]);
      assert forall i :: 0 <= i < |ms| - 1 ==> ms[1..][i] == ms[i + 1];
      MembersTailStarts(ms[1..], rest);
      BlankEnds(s.after, tail);
      ReadsCore(s.core, depth + 1, s.after + tail);
      MemberStep(ms, depth, fields, rest);
      var v := Meaning(s.core, depth + 1);
      if v.Some? && !HasKey(fields, ms[0].key) {
        ReadsMembers(ms[1..], depth, fields + [Keyed(ms[0].key, v.value)], rest);
      }
    }
  }

  /**
   * Reading any spelling of a value, with any whitespace, gives that value and leaves what
   * follows; a repeated key or a 34th level is turned down.
   */
  lemma {:induction false} ReadingIsExact(s: Src, rest: string)
    requires WellSpelled(s) && Ends(rest)
    ensures ReadValue(SrcText(s) + rest, 0) == Expected(Meaning(s.core, 0), s.after + rest)
  {
    BlankEnds(s.after, rest);
    ReadsCore(s.core, 0, s.after + rest);
    ReadsSrc(s, 0, rest);
  }
}
