/**
 * What a JSON string says, piece by piece: characters that stand for themselves, short escapes,
 * and escapes by code, two of which may name one character.
 */
module JsonPieces {
  import opened Prelude
  import opened JsonText

  datatype Piece = Itself(c: char) | Short(c: char) | Code(hex: string) | Pair(high: string, low: string)

  const LOWER := "0123456789abcdef"
  const UPPER := "0123456789ABCDEF"

  // The four hexadecimal digits, in either case, of a number.
  ghost predicate Names(hex: string, n: int) {
    exists a: nat, b: nat, c: nat, d: nat :: NamesBy(hex, n, a, b, c, d)
  }

  predicate NamesBy(hex: string, n: int, a: nat, b: nat, c: nat, d: nat) {
    && |hex| == 4 && a < 16 && b < 16 && c < 16 && d < 16
    && hex[0] in {LOWER[a], UPPER[a]} && hex[1] in {LOWER[b], UPPER[b]}
    && hex[2] in {LOWER[c], UPPER[c]} && hex[3] in {LOWER[d], UPPER[d]}
    && n == 4096 * a + 256 * b + 16 * c + d
  }

  predicate IsHigh(n: int) { 0xD800 <= n <= 0xDBFF }

  predicate IsLow(n: int) { 0xDC00 <= n <= 0xDFFF }

  // Half of a pair standing alone names the replacement character.
  ghost predicate Says(p: Piece, c: char) {
    match p
    case Itself(d) => c == d && d != '"' && d != '\\' && ' ' <= d
    case Short(d) =>
      || (d in {'"', '\\', '/'} && c == d)
      || (d == 'b' && c == 8 as char) || (d == 't' && c == 9 as char) || (d == 'n' && c == 10 as char)
      || (d == 'f' && c == 12 as char) || (d == 'r' && c == 13 as char)
    case Code(hex) =>
      exists n :: Names(hex, n) && if IsHigh(n) || IsLow(n) then c == 0xFFFD as char else n == c as int
    case Pair(high, low) =>
      exists n, m :: Names(high, n) && Names(low, m) && IsHigh(n) && IsLow(m)
                     && c as int == 0x1_0000 + (n - 0xD800) * 0x400 + (m - 0xDC00)
  }

  // What stands behind the backslash of an escape.
  function Body(p: Piece): string
    requires !p.Itself?
  {
    match p
    case Short(c) => [c]
    case Code(hex) => ['u'] + hex
    case Pair(high, low) => ['u'] + (high + (['\\'] + (['u'] + low)))
  }

  function TextOf(p: Piece): string { if p.Itself? then [p.c] else ['\\'] + Body(p) }

  function Text(ps: seq<Piece>): string { if ps == [] then [] else TextOf(ps[0]) + Text(ps[1..]) }

  ghost predicate IsHighCode(p: Piece) { p.Code? && exists n :: Names(p.hex, n) && IsHigh(n) }

  ghost predicate IsLowCode(p: Piece) { p.Code? && exists n :: Names(p.hex, n) && IsLow(n) }

  // Two halves in a row are a pair.
  ghost predicate Spell(ps: seq<Piece>, s: string) {
    && |ps| == |s| && (forall i :: 0 <= i < |ps| ==> Says(ps[i], s[i]))
    && forall i :: 0 <= i < |ps| - 1 && IsHighCode(ps[i]) ==> !IsLowCode(ps[i + 1])
  }

  /* ----- Hexadecimal digits ----- */

  lemma {:induction false} DigitIff(c: char, v: int)
    ensures HexValue(c) == Some(v) <==> 0 <= v < 16 && c in {LOWER[v], UPPER[v]}
  {
  }

  lemma {:induction false} NamesIff(hex: string, rest: string, n: int)
    requires |hex| == 4
    ensures Hex4(hex + rest) == Some(n) <==> Names(hex, n)
  {
    assert forall i :: 0 <= i < 4 ==> (hex + rest)[i] == hex[i];
    var x, y, z, w := HexValue(hex[0]), HexValue(hex[1]), HexValue(hex[2]), HexValue(hex[3]);
    hide HexValue;
    if Hex4(hex + rest) == Some(n) {
      DigitIff(hex[0], x.value);
      DigitIff(hex[1], y.value);
      DigitIff(hex[2], z.value);
      DigitIff(hex[3], w.value);
      assert NamesBy(hex, n, x.value, y.value, z.value, w.value);
    }
    if Names(hex, n) {
      var a: nat, b: nat, c: nat, d: nat :| NamesBy(hex, n, a, b, c, d);
      DigitIff(hex[0], a);
      DigitIff(hex[1], b);
      DigitIff(hex[2], c);
      DigitIff(hex[3], d);
    }
  }

  lemma {:induction false} HexIsFour(s: string)
    requires Hex4(s).Some?
    ensures |s| >= 4 && Names(s[..4], Hex4(s).value) && 0 <= Hex4(s).value < 0x1_0000
  {
    assert s == s[..4] + s[4..];
    NamesIff(s[..4], s[4..], Hex4(s).value);
    hide Hex4;
  }

  lemma {:induction false} NameIsUnique(hex: string, n: int, m: int)
    requires Names(hex, n) && Names(hex, m)
    ensures n == m
  {
    NamesIff(hex, [], n);
    NamesIff(hex, [], m);
    hide Hex4, Names;
  }

  /* ----- Pieces are read as what they say ----- */

  ghost predicate LowCodeAt(s: string) {
    |s| >= 5 && s[0] == 'u' && Hex4(s[1..]).Some? && IsLow(Hex4(s[1..]).value)
  }

  // What stands behind a lone first half is not a second half.
  ghost predicate NoLowBehind(next: string) { next != [] ==> !(next[0] == '\\' && LowCodeAt(next[1..])) }

  lemma {:induction false} ShortReads(d: char, c: char, next: string)
    requires Says(Short(d), c)
    ensures ReadEscape([d] + next) == Some((c, next))
  {
    assert ([d] + next)[1..] == next;
  }

  lemma {:induction false} LoneEscape(s: string, n: int)
    requires |s| >= 5 && s[0] == 'u' && Hex4(s[1..]) == Some(n) && 0 <= n < 0x1_0000
    requires IsHigh(n) ==> NoLowBehind(s[5..])
    ensures ReadEscape(s) == Some((if IsHigh(n) || IsLow(n) then 0xFFFD as char else n as char, s[5..]))
  {
    if |s| >= 11 {
      assert s[5..][1..][1..] == s[7..];
      assert s[5..][0] == s[5] && s[5..][1] == s[6];
    }
    hide Hex4;
  }

  lemma {:induction false} CodeReads(hex: string, n: int, next: string)
    requires Names(hex, n) && (IsHigh(n) ==> NoLowBehind(next))
    ensures ReadEscape((['u'] + hex) + next) ==
            Some((if IsHigh(n) || IsLow(n) then 0xFFFD as char else n as char, next))
  {
    assert |hex| == 4;
    hide Names, Hex4, ReadEscape, NoLowBehind;
    var s := (['u'] + hex) + next;
    NamesIff(hex, next, n);
    assert s[1..] == hex + next && s[5..] == next;
    HexIsFour(hex + next);
    LoneEscape(s, n);
  }

  lemma {:induction false} PairEscape(s: string, n: int, m: int)
    requires |s| >= 11 && s[0] == 'u' && Hex4(s[1..]) == Some(n) && IsHigh(n)
    requires s[5] == '\\' && s[6] == 'u' && Hex4(s[7..]) == Some(m) && IsLow(m)
    ensures ReadEscape(s) == Some(((0x1_0000 + (n - 0xD800) * 0x400 + (m - 0xDC00)) as char, s[11..]))
  {
    hide Hex4;
  }

  // Where the parts of a pair stand.
  lemma {:induction false} PairParts(high: string, low: string, next: string)
    requires |high| == 4 && |low| == 4
    ensures var s := Body(Pair(high, low)) + next;
            && |s| >= 11 && s[0] == 'u' && s[1..] == high + ((['\\'] + (['u'] + low)) + next)
            && s[5] == '\\' && s[6] == 'u' && s[7..] == low + next && s[11..] == next
  {
    var second := ['\\'] + (['u'] + low);
    var s := (['u'] + (high + second)) + next;
    Behind(['u'], high + second, next);
    AppendAssoc(high, second, next);
    Behind(['u'] + high, second, next);
    AppendAssoc(['u'], high, second);
    Behind(['u'] + high + ['\\', 'u'], low, next);
    assert ['u'] + (high + second) == ['u'] + high + ['\\', 'u'] + low;
    Behind(['u'] + high + ['\\', 'u'] + low, [], next);
    assert [] + next == next;
    assert ['u'] + (high + second) + [] == ['u'] + (high + second);
  }

  lemma {:induction false} Behind(a: string, b: string, next: string)
    ensures ((a + b) + next)[|a|..] == b + next
  {
  }

  lemma {:induction false} PairReads(high: string, low: string, n: int, m: int, next: string)
    requires Names(high, n) && Names(low, m) && IsHigh(n) && IsLow(m)
    ensures ReadEscape(Body(Pair(high, low)) + next) ==
            Some(((0x1_0000 + (n - 0xD800) * 0x400 + (m - 0xDC00)) as char, next))
  {
    assert |high| == 4 && |low| == 4;
    hide Names, Hex4, ReadEscape, Body;
    PairParts(high, low, next);
    NamesIff(high, (['\\'] + (['u'] + low)) + next, n);
    NamesIff(low, next, m);
    PairEscape(Body(Pair(high, low)) + next, n, m);
  }

  lemma {:induction false} BodyReads(p: Piece, c: char, next: string)
    requires !p.Itself? && Says(p, c) && (IsHighCode(p) ==> NoLowBehind(next))
    ensures ReadEscape(Body(p) + next) == Some((c, next))
  {
    hide ReadEscape, Names, NoLowBehind;
    match p
    case Short(d) => ShortReads(d, c, next);
    case Code(hex) =>
      var n :| Names(hex, n) && if IsHigh(n) || IsLow(n) then c == 0xFFFD as char else n == c as int;
      CodeReads(hex, n, next);
    case Pair(high, low) =>
      var n, m :| Names(high, n) && Names(low, m) && IsHigh(n) && IsLow(m)
                  && c as int == 0x1_0000 + (n - 0xD800) * 0x400 + (m - 0xDC00);
      PairReads(high, low, n, m, next);
  }

  // A piece in front of a string that is read on.
  lemma {:induction false} PieceReads(p: Piece, c: char, next: string)
    requires Says(p, c) && ReadString(next).Some? && (IsHighCode(p) ==> NoLowBehind(next))
    ensures ReadString(TextOf(p) + next) == Some(([c] + ReadString(next).value.0, ReadString(next).value.1))
  {
    if p.Itself? {
      ReadPlain(c, next);
    } else {
      hide ReadString, ReadEscape, NoLowBehind, Body, Says, IsHighCode;
      BodyReads(p, c, next);
      assert (['\\'] + Body(p))[1..] == Body(p);
      ReadAfterBackslash(c, TextOf(p), next);
    }
  }

  lemma {:induction false} CodeAt(hex: string, n: int, rest: string)
    requires Names(hex, n)
    ensures LowCodeAt((['u'] + hex) + rest) <==> IsLow(n)
  {
    assert |hex| == 4;
    hide Names, Hex4;
    NamesIff(hex, rest, n);
    assert ((['u'] + hex) + rest)[1..] == hex + rest;
  }

  lemma {:induction false} PairAt(high: string, low: string, n: int, m: int, rest: string)
    requires Names(high, n) && Names(low, m) && IsHigh(n)
    ensures !LowCodeAt(Body(Pair(high, low)) + rest)
  {
    assert |high| == 4 && |low| == 4;
    hide Names, Hex4, Body;
    PairParts(high, low, rest);
    NamesIff(high, (['\\'] + (['u'] + low)) + rest, n);
  }

  // The text of a piece that is no second half does not look like one.
  lemma {:induction false} NoLowBody(p: Piece, c: char, rest: string)
    requires !p.Itself? && Says(p, c) && !IsLowCode(p)
    ensures !LowCodeAt(Body(p) + rest)
  {
    hide Names, LowCodeAt;
    match p
    case Short(d) => NoCode(d, rest);
    case Code(hex) =>
      var n :| Names(hex, n);
      CodeAt(hex, n, rest);
    case Pair(high, low) =>
      var n, m :| Names(high, n) && Names(low, m) && IsHigh(n);
      PairAt(high, low, n, m, rest);
  }

  lemma {:induction false} NoCode(d: char, rest: string)
    ensures d != 'u' ==> !LowCodeAt([d] + rest)
  {
  }

  lemma {:induction false} NoLowText(p: Piece, c: char, rest: string)
    requires Says(p, c) && !IsLowCode(p)
    ensures NoLowBehind(TextOf(p) + rest)
  {
    hide LowCodeAt, Body, Names, Hex4;
    if p.Itself? {
      assert ([p.c] + rest)[0] == p.c;
    } else {
      NoLowBody(p, c, rest);
      hide Says, IsLowCode;
      Behind(['\\'], Body(p), rest);
    }
  }

  lemma {:induction false} SpellRest(ps: seq<Piece>, s: string)
    requires Spell(ps, s) && ps != []
    ensures Spell(ps[1..], s[1..])
  {
    hide Says, IsHighCode, IsLowCode;
    assert forall i :: 0 <= i < |ps| - 1 ==> ps[1..][i] == ps[i + 1] && s[1..][i] == s[i + 1];
  }

  lemma {:induction false} TextAhead(ps: seq<Piece>, tail: string)
    requires ps != []
    ensures Text(ps) + tail == TextOf(ps[0]) + (Text(ps[1..]) + tail)
  {
    hide TextOf;
    AppendAssoc(TextOf(ps[0]), Text(ps[1..]), tail);
  }

  // Behind a lone first half no second half follows.
  lemma {:induction false} NoLowAhead(ps: seq<Piece>, s: string, rest: string)
    requires Spell(ps, s) && ps != [] && IsHighCode(ps[0])
    ensures NoLowBehind(Text(ps[1..]) + (['"'] + rest))
  {
    hide Says, IsHighCode, IsLowCode, LowCodeAt, TextOf;
    var tail := ['"'] + rest;
    if |ps| > 1 {
      hide NoLowBehind;
      NoLowText(ps[1], s[1], Text(ps[1..][1..]) + tail);
      TextAhead(ps[1..], tail);
    } else {
      assert Text(ps[1..]) + tail == tail;
    }
  }

  /** Any pieces between quotes are read as what they say, and the reading stops at the quote. */
  lemma {:induction false} PiecesRead(ps: seq<Piece>, s: string, rest: string)
    requires Spell(ps, s)
    ensures ReadString(Text(ps) + (['"'] + rest)) == Some((s, rest))
    decreases |ps|
  {
    var tail := ['"'] + rest;
    if ps == [] {
      assert Text(ps) + tail == tail && tail[1..] == rest;
    } else {
      hide ReadString, Says, IsHighCode, IsLowCode, TextOf, Text, LowCodeAt, NoLowBehind;
      SpellRest(ps, s);
      PiecesRead(ps[1..], s[1..], rest);
      TextAhead(ps, tail);
      if IsHighCode(ps[0]) { NoLowAhead(ps, s, rest); }
      PieceReads(ps[0], s[0], Text(ps[1..]) + tail);
      assert s == [s[0]] + s[1..];
    }
  }

  /* ----- Nothing else is read ----- */

  lemma {:induction false} CodeRead(x: string, n: int) returns (p: Piece)
    requires 0 <= n < 0x1_0000 && |x| >= 5 && x[0] == 'u' && Hex4(x[1..]) == Some(n)
    requires IsHigh(n) ==> NoLowBehind(x[5..])
    ensures !p.Itself? && x == Body(p) + x[5..] && (IsHighCode(p) ==> NoLowBehind(x[5..]))
    ensures Says(p, if IsHigh(n) || IsLow(n) then 0xFFFD as char else n as char)
  {
    HexIsFour(x[1..]);
    var hex := x[1..][..4];
    p := Code(hex);
    assert x == (['u'] + hex) + x[5..];
    hide Hex4, NoLowBehind, Names;
    if m :| Names(hex, m) && IsHigh(m) { NameIsUnique(hex, n, m); }
  }

  lemma {:induction false} PairRead(x: string, n: int, m: int) returns (p: Piece)
    requires |x| >= 11 && x[0] == 'u' && Hex4(x[1..]) == Some(n) && IsHigh(n)
    requires x[5] == '\\' && x[6] == 'u' && Hex4(x[7..]) == Some(m) && IsLow(m)
    ensures p.Pair? && x == Body(p) + x[11..]
    ensures Says(p, (0x1_0000 + (n - 0xD800) * 0x400 + (m - 0xDC00)) as char)
  {
    hide Hex4, Names, Body;
    HexIsFour(x[1..]);
    HexIsFour(x[7..]);
    var high, low := x[1..][..4], x[7..][..4];
    p := Pair(high, low);
    PairStands(x, high, low);
  }

  lemma {:induction false} PairStands(x: string, high: string, low: string)
    requires |x| >= 11 && x[0] == 'u' && x[5] == '\\' && x[6] == 'u' && high == x[1..][..4] && low == x[7..][..4]
    ensures x == Body(Pair(high, low)) + x[11..]
  {
    hide Body;
    var rest, second := x[11..], ['\\'] + (['u'] + low);
    var s := Body(Pair(high, low)) + rest;
    PairParts(high, low, rest);
    assert second + rest == x[5..];
    assert s[1..] == x[1..];
    assert s == [s[0]] + s[1..] && x == [x[0]] + x[1..];
  }

  lemma {:induction false} ShortRead(x: string, c: char, next: string)
    requires ReadEscape(x) == Some((c, next)) && x[0] != 'u'
    ensures Says(Short(x[0]), c) && x == [x[0]] + next
  {
  }

  lemma {:induction false} CodeIsHex(x: string, c: char, next: string)
    requires x != [] && x[0] == 'u' && ReadEscape(x) == Some((c, next))
    ensures Hex4(x[1..]).Some?
  {
    hide Hex4, CharOf;
  }

  lemma {:induction false} EscapeInPieces(x: string, c: char, next: string) returns (p: Piece)
    requires ReadEscape(x) == Some((c, next))
    ensures !p.Itself? && Says(p, c) && x == Body(p) + next && (IsHighCode(p) ==> NoLowBehind(next))
  {
    if x[0] != 'u' {
      p := Short(x[0]);
      ShortRead(x, c, next);
    } else {
      hide Says, ReadEscape, Names, NoLowBehind, Body, Hex4;
      CodeIsHex(x, c, next);
      HexIsFour(x[1..]);
      var n := Hex4(x[1..]).value;
      if IsHigh(n) && |x| >= 11 && x[5] == '\\' && x[6] == 'u' && Hex4(x[7..]).Some? && IsLow(Hex4(x[7..]).value) {
        PairEscape(x, n, Hex4(x[7..]).value);
        p := PairRead(x, n, Hex4(x[7..]).value);
      } else {
        if IsHigh(n) { NotPaired(x); }
        LoneEscape(x, n);
        p := CodeRead(x, n);
      }
    }
  }

  lemma {:induction false} NotPaired(x: string)
    requires |x| >= 5
    requires !(|x| >= 11 && x[5] == '\\' && x[6] == 'u' && Hex4(x[7..]).Some? && IsLow(Hex4(x[7..]).value))
    ensures NoLowBehind(x[5..])
  {
    hide Hex4;
    if |x| >= 11 { assert x[5..][1..][1..] == x[7..]; }
  }

  lemma {:induction false} LowIsBehind(p: Piece, rest: string)
    requires IsLowCode(p)
    ensures !NoLowBehind(TextOf(p) + rest)
  {
    hide Names, LowCodeAt;
    var n :| Names(p.hex, n) && IsLow(n);
    CodeAt(p.hex, n, rest);
    Behind(['\\'], ['u'] + p.hex, rest);
  }

  // The pieces of a string that was read.
  lemma {:induction false} ReadInPieces(s: string) returns (ps: seq<Piece>)
    requires ReadString(s).Some?
    ensures var (t, rest) := ReadString(s).value;
            Spell(ps, t) && s == Text(ps) + (['"'] + rest)
    decreases |s|
  {
    if s[0] == '"' {
      ps := [];
      assert s == [] + (['"'] + s[1..]);
    } else {
      var p: Piece, c: char, next: string;
      if s[0] == '\\' {
        c, next := ReadEscape(s[1..]).value.0, ReadEscape(s[1..]).value.1;
        p := EscapeInPieces(s[1..], c, next);
        assert s == ['\\'] + (Body(p) + next);
        AppendAssoc(['\\'], Body(p), next);
      } else {
        p, c, next := Itself(s[0]), s[0], s[1..];
        assert s == [s[0]] + s[1..];
      }
      hide ReadEscape, Body;
      var qs := ReadInPieces(next);
      var (t, rest) := ReadString(next).value;
      assert ReadString(s).value == ([c] + t, rest);
      hide ReadString;
      InFront(p, c, qs, t, ['"'] + rest);
      ps := [p] + qs;
    }
  }

  lemma {:induction false} InFront(p: Piece, c: char, qs: seq<Piece>, t: string, tail: string)
    requires Says(p, c) && Spell(qs, t) && (IsHighCode(p) ==> NoLowBehind(Text(qs) + tail))
    ensures Spell([p] + qs, [c] + t) && Text([p] + qs) + tail == TextOf(p) + (Text(qs) + tail)
  {
    hide TextOf, NoLowBehind, Says, IsHighCode;
    assert ([p] + qs)[1..] == qs;
    TextAhead([p] + qs, tail);
    if IsHighCode(p) && qs != [] && IsLowCode(qs[0]) {
      LowIsBehind(qs[0], Text(qs[1..]) + tail);
      TextAhead(qs, tail);
    }
    hide IsLowCode;
  }

  /* ----- What is written ----- */

  // How the signer writes a character: quotes, backslashes and five controls in short, other
  // controls by their code in lower case, and everything else as itself.
  lemma {:induction false} EscapeIs(c: char)
    ensures c == '"' || c == '\\' ==> EscapeChar(c) == ['\\', c]
    ensures c as int == 8 ==> EscapeChar(c) == ['\\', 'b']
    ensures c as int == 9 ==> EscapeChar(c) == ['\\', 't']
    ensures c as int == 10 ==> EscapeChar(c) == ['\\', 'n']
    ensures c as int == 12 ==> EscapeChar(c) == ['\\', 'f']
    ensures c as int == 13 ==> EscapeChar(c) == ['\\', 'r']
    ensures c < ' ' && c as int !in {8, 9, 10, 12, 13} ==>
              EscapeChar(c) == ['\\', 'u', '0', '0', LOWER[c as int / 16], LOWER[c as int % 16]]
    ensures ' ' <= c && c != '"' && c != '\\' ==> EscapeChar(c) == [c]
  {
  }

  /** A string is written character by character, between quotes. */
  lemma {:induction false} QuoteIs(s: string, t: string)
    ensures Quote([]) == ['"', '"'] && Escape(s + t) == Escape(s) + Escape(t)
    ensures Quote(s) == ['"'] + Escape(s) + ['"'] && forall c: char :: Escape([c]) == EscapeChar(c)
  {
    hide EscapeChar;
    if s == [] {
      assert s + t == t;
    } else {
      QuoteIs(s[1..], t);
      assert (s + t)[1..] == s[1..] + t;
    }
    forall c: char ensures Escape([c]) == EscapeChar(c) { assert [c][1..] == []; }
  }
}
