/**
 * Raw strings: what stands between the quotes, with any escapes, and the string it spells.
 */
module JsonStrings {
  import opened Prelude
  import opened JsonText

  predicate Spells(raw: string, s: string) { ReadString(raw + ['"']) == Some((s, [])) }

  // The signer's own escapes are one spelling.
  lemma {:induction false} EscapeSpells(s: string)
    ensures Spells(Escape(s), s)
  {
    StringRoundTrip(s, []);
    assert ['"'] + [] == ['"'];
    hide ReadString, Escape;
  }

  lemma {:induction false} EscapeSuffix(s: string)
    requires ReadEscape(s).Some?
    ensures var u := ReadEscape(s).value.1; |u| < |s| && u == s[|s| - |u|..]
  {
    var u := ReadEscape(s).value.1;
    assert u == s[1..] || (|s| >= 5 && u == s[5..]) || (|s| >= 11 && u == s[11..]) by { hide Hex4; }
    hide ReadEscape;
    assert s[|s| - |u|..] == if u == s[1..] then s[1..] else if |s| >= 5 && u == s[5..] then s[5..] else s[11..];
  }

  lemma {:induction false} QuoteIsNoHex(s: string, i: nat)
    requires i < 4 && i < |s| && s[i] == '"'
    ensures Hex4(s).None?
  {
  }

  lemma {:induction false} HexOfLonger(s: string, rest: string)
    requires |s| >= 4
    ensures Hex4(s + rest) == Hex4(s)
  {
    assert forall i :: 0 <= i < 4 ==> (s + rest)[i] == s[i];
    hide HexValue;
  }

  // Whether a second escape follows is settled before the next quote.
  predicate PairFollows(s: string) { |s| >= 11 && s[5] == '\\' && s[6] == 'u' && Hex4(s[7..]).Some? }

  lemma {:induction false} PairIgnoresRest(x: string, rest: string)
    requires |x| >= 6 && x[|x| - 1] == '"'
    ensures PairFollows(x + rest) == PairFollows(x)
    ensures PairFollows(x) ==> Hex4((x + rest)[7..]) == Hex4(x[7..])
  {
    var y := x + rest;
    if |x| >= 11 {
      assert y[7..] == x[7..] + rest;
      HexOfLonger(x[7..], rest);
    } else if |x| >= 8 && |y| >= 11 {
      assert y[7..][|x| - 8] == '"';
      QuoteIsNoHex(y[7..], |x| - 8);
    }
    hide Hex4;
  }

  // What an escape reads does not depend on what follows the quote behind it.
  lemma {:induction false} EscapeIgnoresRest(x: string, rest: string)
    requires x != [] && x[|x| - 1] == '"'
    ensures |x| == 1 ==> ReadEscape(x + rest) == Some(('"', rest)) && ReadEscape(x) == Some(('"', []))
    ensures |x| > 1 ==>
              ReadEscape(x + rest) ==
              if ReadEscape(x).None? then None else Some((ReadEscape(x).value.0, ReadEscape(x).value.1 + rest))
  {
    var y := x + rest;
    assert y[0] == x[0] && y[1..] == x[1..] + rest;
    if x[0] == 'u' && |x| > 1 {
      if |x| < 6 {
        QuoteIsNoHex(x[1..], |x| - 2);
        QuoteIsNoHex(y[1..], |x| - 2);
        hide Hex4;
      } else {
        HexOfLonger(x[1..], rest);
        PairIgnoresRest(x, rest);
        hide Hex4;
        assert y[5..] == x[5..] + rest;
        if |x| >= 11 { assert y[11..] == x[11..] + rest; }
      }
    }
  }

  lemma {:induction false} ReadsQuote(rest: string)
    ensures ReadString(['"'] + rest) == Some(("", rest))
  {
    assert (['"'] + rest)[1..] == rest;
  }

  // Reading a string stops at its closing quote, whatever follows.
  lemma {:induction false} StringIgnoresRest(x: string, rest: string)
    requires x != [] && x[|x| - 1] == '"' && ReadString(x).Some? && ReadString(x).value.1 == []
    ensures ReadString(x + rest) == Some((ReadString(x).value.0, rest))
    decreases |x|
  {
    var y := x + rest;
    if x[0] == '"' {
      assert x == ['"'];
      ReadsQuote(rest);
    } else if x[0] == '\\' {
      var p := ReadEscape(x[1..]).value.1;
      EscapeSuffix(x[1..]);
      EscapeIgnoresRest(x[1..], rest);
      assert y[1..] == x[1..] + rest;
      hide ReadEscape;
      assert p != [] && p[|p| - 1] == '"';
      StringIgnoresRest(p, rest);
    } else {
      assert y[1..] == x[1..] + rest;
      hide ReadEscape;
      StringIgnoresRest(x[1..], rest);
    }
  }

  lemma {:induction false} SpelledReads(raw: string, s: string, rest: string)
    requires Spells(raw, s)
    ensures ReadString(raw + (['"'] + rest)) == Some((s, rest))
  {
    StringIgnoresRest(raw + ['"'], rest);
    AppendAssoc(raw, ['"'], rest);
    hide ReadString;
  }

  lemma {:induction false} SamePrefix(e: Option<(char, string)>, u: string, p: string, rest: string)
    requires e.Some? && e.value.1 + rest == u && u == p + rest
    ensures e.value.1 == p
  {
    assert |e.value.1| == |p|;
    assert u[..|p|] == p && u[..|e.value.1|] == e.value.1;
  }

  lemma {:induction false} PlainInFront(c: char, raw: string, s: string)
    requires c >= ' ' && c != '"' && c != '\\' && Spells(raw, s)
    ensures Spells([c] + raw, [c] + s)
  {
    var x := raw + ['"'];
    AppendAssoc([c], raw, ['"']);
    assert ([c] + x)[0] == c && ([c] + x)[1..] == x;
    hide ReadEscape;
  }

  // An escape of the raw text p, in front of a string already spelled.
  lemma {:induction false} EscapeInFront(p: string, c: char, raw: string, s: string, r: string)
    requires p != [] && Spells(raw, s)
    requires ReadEscape(p + (raw + (['"'] + r))) == Some((c, raw + (['"'] + r)))
    ensures Spells(['\\'] + (p + raw), [c] + s)
  {
    var x, y := p + (raw + ['"']), (['\\'] + (p + raw)) + ['"'];
    AppendAssoc(raw, ['"'], r);
    AppendAssoc(p, raw + ['"'], r);
    EscapeIgnoresRest(x, r);
    hide ReadEscape;
    SamePrefix(ReadEscape(x), raw + (['"'] + r), raw + ['"'], r);
    AppendAssoc(p, raw, ['"']);
    AppendAssoc(['\\'], p + raw, ['"']);
    assert y == ['\\'] + x && y[0] == '\\' && y[1..] == x;
  }

  lemma {:induction false} NothingSpelled(t: string)
    requires t != [] && t[0] == '"'
    ensures t == "" + (['"'] + t[1..]) && Spells("", "")
  {
    ReadsQuote([]);
    assert "" + ['"'] == ['"'] + [];
  }

  /** Whatever is read as a string is a raw string spelling it, a quote, and the rest. */
  lemma {:induction false} ReadIsSpelled(t: string) returns (raw: string)
    requires ReadString(t).Some?
    ensures t == raw + (['"'] + ReadString(t).value.1)
    ensures Spells(raw, ReadString(t).value.0)
    decreases |t|
  {
    hide Spells, ReadEscape;
    var r := ReadString(t).value.1;
    if t[0] == '"' {
      raw := "";
      NothingSpelled(t);
    } else if t[0] == '\\' {
      var e := ReadEscape(t[1..]).value;
      EscapeSuffix(t[1..]);
      var p := t[1..][..|t| - 1 - |e.1|];
      var inner := ReadIsSpelled(e.1);
      var s := ReadString(e.1).value.0;
      hide ReadString;
      raw := ['\\'] + (p + inner);
      assert t[1..] == p + e.1;
      EscapeInFront(p, e.0, inner, s, r);
      AppendAssoc(p, inner, ['"'] + r);
      AppendAssoc(['\\'], p + inner, ['"'] + r);
      assert t == ['\\'] + t[1..];
    } else {
      var inner := ReadIsSpelled(t[1..]);
      var s := ReadString(t[1..]).value.0;
      raw := [t[0]] + inner;
      PlainInFront(t[0], inner, s);
      AppendAssoc([t[0]], inner, ['"'] + r);
      assert t == [t[0]] + t[1..];
    }
  }
}
