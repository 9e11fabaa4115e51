/**
 * What a spelled document stands for, told without the reader: its structure member by member,
 * how deep it is, and that no object has two members of one name.
 */
module JsonMeaning {
  import opened Prelude
  import opened KeyOrder
  import opened JsonText
  import opened JsonSpelling

  // Levels of values inside the outermost one.
  function Height(c: Core): nat {
    match c
    case Atom(_) => 0
    case Quoted(_, _) => 0
    case SrcArr(items, _) => ItemsHeight(items)
    case SrcObj(ms, _) => MembersHeight(ms)
  }

  function ItemsHeight(items: seq<Src>): nat {
    if items == [] then 0 else Max(1 + Height(items[0].core), ItemsHeight(items[1..]))
  }

  function MembersHeight(ms: seq<Member>): nat {
    if ms == [] then 0 else Max(1 + Height(ms[0].value.core), MembersHeight(ms[1..]))
  }

  ghost predicate KeysApart(c: Core) {
    match c
    case Atom(_) => true
    case Quoted(_, _) => true
    case SrcArr(items, _) => forall i :: 0 <= i < |items| ==> KeysApart(items[i].core)
    case SrcObj(ms, _) =>
      && (forall i :: 0 <= i < |ms| ==> KeysApart(ms[i].value.core))
      && forall i, j :: 0 <= i < j < |ms| ==> ms[i].key != ms[j].key
  }

  // The value has the structure of the spelling: same items, same members in the same order.
  ghost predicate Denotes(c: Core, j: Json) {
    match c
    case Atom(v) => j == v
    case Quoted(_, s) => j == Str(s)
    case SrcArr(items, _) =>
      j.Arr? && |j.items| == |items| && forall i :: 0 <= i < |items| ==> Denotes(items[i].core, j.items[i])
    case SrcObj(ms, _) =>
      && j.Obj? && |j.fields| == |ms|
      && forall i :: 0 <= i < |ms| ==>
           j.fields[i].key == ms[i].key && Denotes(ms[i].value.core, j.fields[i].value)
  }

  /**
   * A document means something exactly if nothing in it lies deeper than 32 levels and no
   * object repeats a key, and then it means what it is made of.
   */
  lemma {:induction false} MeansIff(c: Core, depth: nat)
    ensures Meaning(c, depth).Some? <==> depth + Height(c) <= 32 && KeysApart(c)
    ensures Meaning(c, depth).Some? ==> Denotes(c, Meaning(c, depth).value)
    decreases c, 0
  {
    if depth <= 32 {
      match c
      case Atom(_) =>
      case Quoted(_, _) =>
      case SrcArr(items, _) => ItemsMean(items, depth + 1);
      case SrcObj(ms, _) => MembersMean(ms, depth + 1, []);
    }
  }

  lemma {:induction false} ItemsMean(items: seq<Src>, depth: nat)
    ensures ItemsValue(items, depth).Some? <==>
              && (items == [] || depth - 1 + ItemsHeight(items) <= 32)
              && forall i :: 0 <= i < |items| ==> KeysApart(items[i].core)
    ensures ItemsValue(items, depth).Some? ==>
              var vs := ItemsValue(items, depth).value;
              |vs| == |items| && forall i :: 0 <= i < |items| ==> Denotes(items[i].core, vs[i])
    decreases items, 1
  {
    hide Meaning, KeysApart, Denotes, Height;
    if items != [] {
      MeansIff(items[0].core, depth);
      ItemsMean(items[1..], depth);
      assert forall i :: 1 <= i < |items| ==> items[i] == items[1..][i - 1];
    }
  }

  lemma {:induction false} MembersMean(ms: seq<Member>, depth: nat, fields: seq<Field>)
    ensures MembersValue(ms, depth, fields).Some? <==>
              && (ms == [] || depth - 1 + MembersHeight(ms) <= 32)
              && (forall i :: 0 <= i < |ms| ==> KeysApart(ms[i].value.core))
              && (forall i, j :: 0 <= i < j < |ms| ==> ms[i].key != ms[j].key)
              && (forall i, k :: 0 <= i < |ms| && 0 <= k < |fields| ==> ms[i].key != fields[k].key)
    ensures MembersValue(ms, depth, fields).Some? ==>
              var all := MembersValue(ms, depth, fields).value;
              && |all| == |fields| + |ms| && all[..|fields|] == fields
              && forall i :: 0 <= i < |ms| ==>
                   all[|fields| + i].key == ms[i].key && Denotes(ms[i].value.core, all[|fields| + i].value)
    decreases ms, 1
  {
    hide Meaning, KeysApart, Denotes, Height;
    if ms != [] {
      MeansIff(ms[0].value.core, depth);
      assert forall i :: 1 <= i < |ms| ==> ms[i] == ms[1..][i - 1];
      if !HasKey(fields, ms[0].key) && Meaning(ms[0].value.core, depth).Some? {
        var next := fields + [Keyed(ms[0].key, Meaning(ms[0].value.core, depth).value)];
        MembersMean(ms[1..], depth, next);
        if MembersValue(ms[1..], depth, next).Some? {
          var all := MembersValue(ms[1..], depth, next).value;
          assert all[|fields|] == all[..|next|][|fields|];
          assert all[..|fields|] == all[..|next|][..|fields|];
          forall i | 0 <= i < |ms|
            ensures all[|fields| + i].key == ms[i].key && Denotes(ms[i].value.core, all[|fields| + i].value)
          {
            if i > 0 { assert all[|fields| + i] == all[|next| + (i - 1)]; }
          }
        }
      }
    }
  }
}
