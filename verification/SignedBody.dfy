/** Which bodies have a canonical form at all, told by what they consist of. */
module SignedBody {
  import opened Prelude
  import opened CanonicalNumber
  import opened KeyOrder
  import opened JsonText
  import opened JsonStrings
  import opened JsonSpelling
  import opened JsonCoverage
  import opened JsonMeaning
  import opened CanonicalJson

  // Every number has a normal form, and one that survives a trip through a double.
  ghost predicate NumbersPass(c: Core, exact: Exact) {
    match c
    case Atom(v) => v.Num? ==> Canonical(v.text).Some? && exact(Canonical(v.text).value)
    case Quoted(_, _) => true
    case SrcArr(items, _) => forall i :: 0 <= i < |items| ==> NumbersPass(items[i].core, exact)
    case SrcObj(ms, _) => forall i :: 0 <= i < |ms| ==> NumbersPass(ms[i].value.core, exact)
  }

  lemma {:induction false} PrintsIff(c: Core, j: Json, exact: Exact)
    requires WellSpelledCore(c) && Denotes(c, j)
    ensures Print(j, exact).Some? <==> NumbersPass(c, exact)
    decreases c
  {
    hide Canonical, Spells, Parse;
    match c
    case Atom(_) =>
    case Quoted(_, _) =>
    case SrcArr(items, _) =>
      PrintItemsAre(j.items, exact);
      hide PrintItems;
      forall i | 0 <= i < |items| ensures Print(j.items[i], exact).Some? <==> NumbersPass(items[i].core, exact) {
        PrintsIff(items[i].core, j.items[i], exact);
      }
    case SrcObj(ms, _) =>
      PrintFieldsAre(j.fields, exact);
      hide PrintFields, MemberTexts, Sort;
      forall i | 0 <= i < |ms|
        ensures Print(j.fields[i].value, exact).Some? <==> NumbersPass(ms[i].value.core, exact)
      {
        assert WellSpelledMember(ms[i]) && WellSpelled(ms[i].value);
        PrintsIff(ms[i].value.core, j.fields[i].value, exact);
      }
  }

  /**
   * A well-spelled body has a canonical form exactly if it is one object of at most 128 KiB,
   * nested no deeper than 32 levels below the outermost, without a repeated key and with
   * numbers that pass.
   */
  lemma {:induction false} AcceptedIff(s: Src, exact: Exact)
    requires WellSpelled(s)
    ensures CanonicalBody(SrcText(s), exact).Some? <==>
              && 0 < Bytes(SrcText(s)) <= 131_072
              && s.core.SrcObj? && Height(s.core) <= 32 && KeysApart(s.core) && NumbersPass(s.core, exact)
  {
    BodyOf(s, exact);
    MeansIff(s.core, 0);
    hide Meaning, Height, KeysApart, NumbersPass, Print, CanonicalBody, Bytes, SrcText, Denotes, WellSpelledCore;
    if Meaning(s.core, 0).Some? { PrintsIff(s.core, Meaning(s.core, 0).value, exact); }
  }

  /** And only well-spelled bodies have one. */
  lemma {:induction false} AcceptedIsBody(body: string, exact: Exact) returns (s: Src)
    requires CanonicalBody(body, exact).Some?
    ensures WellSpelled(s) && SrcText(s) == body
  {
    hide ReadValue, Print, SizeFits, WellSpelled, SrcText, Meaning;
    s := AcceptedIsSpelled(body);
  }

  /* ----- What counts as the same document ----- */

  lemma {:induction false} AlikeItself(c: Core)
    ensures Alike(c, c)
    decreases c
  {
    match c
    case Atom(_) =>
    case Quoted(_, _) =>
    case SrcArr(items, _) =>
      forall i | 0 <= i < |items| ensures Alike(items[i].core, items[i].core) { AlikeItself(items[i].core); }
    case SrcObj(ms, _) =>
      forall i | 0 <= i < |ms| ensures AlikeMembers(ms[i], ms[i]) { AlikeItself(ms[i].value.core); }
  }

  /** Exchanging two members of an object, and any spacing, leaves the same document. */
  lemma {:induction false} AlikeExchanged(
      ms: seq<Member>, ns: seq<Member>, i: nat, j: nat, blank: string, other: string)
    requires i < |ms| && j < |ms| && |ns| == |ms| && ns[i] == ms[j] && ns[j] == ms[i]
    requires forall k :: 0 <= k < |ms| && k != i && k != j ==> ns[k] == ms[k]
    ensures Alike(SrcObj(ms, blank), SrcObj(ns, other))
  {
    hide Alike, AlikeMembers, PairedLeft, PairedRight;
    forall k | 0 <= k < |ms| ensures PairedLeft(ms[k], ns) && PairedRight(ms, ns[k]) {
      MemberPairs(ms, ns, k, if k == i then j else if k == j then i else k);
    }
    AlikeObjects(ms, ns, blank, other);
  }

  lemma {:induction false} MemberPairs(ms: seq<Member>, ns: seq<Member>, k: nat, l: nat)
    requires k < |ms| && l < |ms| && |ns| == |ms| && ns[l] == ms[k] && ns[k] == ms[l]
    ensures PairedLeft(ms[k], ns) && PairedRight(ms, ns[k])
  {
    AlikeItself(ms[k].value.core);
    AlikeItself(ms[l].value.core);
    hide Alike;
    assert AlikeMembers(ms[k], ns[l]) && AlikeMembers(ms[l], ns[k]);
  }

  lemma {:induction false} AlikeObjects(ms: seq<Member>, ns: seq<Member>, blank: string, other: string)
    requires |ms| == |ns| && Paired(ms, ns)
    ensures Alike(SrcObj(ms, blank), SrcObj(ns, other))
  {
    hide Paired;
  }

  /** Two accepted spellings of one number are the same document. */
  lemma {:induction false} AlikeNumbers(a: string, b: string)
    requires Canonical(a).Some? && Canonical(b).Some? && Parse(a).Some? && Parse(b).Some?
    requires Same(NumberOf(a), NumberOf(b))
    ensures Alike(Atom(Num(a)), Atom(Num(b)))
  {
    hide Canonical, Same, NumberOf, Parse;
    CanonicalIsComplete(a, b);
  }

  // Whitespace is blank, tab, line feed and carriage return.
  lemma {:induction false} BlankIs(s: string)
    ensures Blank(s) <==> forall i :: 0 <= i < |s| ==> s[i] as int in {9, 10, 13, 32}
  {
    assert forall c: char :: IsBlank(c) <==> c as int in {9, 10, 13, 32};
  }

  // The size of a body is that of its UTF-8 encoding.
  lemma {:induction false} BytesAre(s: string, c: char)
    ensures Bytes([]) == 0
    ensures Bytes(s + [c]) ==
            Bytes(s) + (if c as int < 128 then 1 else if c as int < 2048 then 2 else if c as int < 65_536 then 3 else 4)
  {
    if s == [] {
      assert [] + [c] == [c] && [c][1..] == [];
    } else {
      assert (s + [c])[1..] == s[1..] + [c];
      BytesAre(s[1..], c);
    }
  }
}
