/** Reading JSON text: whitespace, strings with escapes, numbers, and nested values. */
module JsonText {
  import opened Prelude
  import opened Digits
  import opened CanonicalNumber
  import opened KeyOrder

  const MAX_DEPTH := 32

  datatype Json =
    | Null | Bool(b: bool) | Num(text: string) | Str(s: string) | Arr(items: seq<Json>) | Obj(fields: seq<Field>)

  // Members in the order they were read; keys are distinct.
  type Field = Keyed<Json>

  /* ----- Whitespace ----- */

  predicate IsBlank(c: char) { c == ' ' || c == '\t' || c == '\n' || c == '\r' }

  predicate Blank(s: string) { forall i :: 0 <= i < |s| ==> IsBlank(s[i]) }

  function SkipBlank(s: string): (t: string)
    ensures |t| <= |s| && (t != [] ==> !IsBlank(t[0]))
  {
    if s != [] && IsBlank(s[0]) then SkipBlank(s[1..]) else s
  }

  lemma {:induction false} SkipsBlank(blank: string, rest: string)
    requires Blank(blank) && (rest != [] ==> !IsBlank(rest[0]))
    ensures SkipBlank(blank + rest) == rest
  {
    if blank == [] {
      assert blank + rest == rest;
    } else {
      assert (blank + rest)[1..] == blank[1..] + rest;
      SkipsBlank(blank[1..], rest);
    }
  }

  lemma {:induction false} SkipsMore(blank: string, rest: string)
    requires Blank(blank)
    ensures SkipBlank(blank + rest) == SkipBlank(rest)
  {
    if blank == [] {
      assert blank + rest == rest;
    } else {
      assert (blank + rest)[1..] == blank[1..] + rest;
      SkipsMore(blank[1..], rest);
    }
  }

  /* ----- Strings ----- */

  const BACKSPACE: char := 8 as char
  const FORM_FEED: char := 12 as char

  function HexDigit(n: int): char
    requires 0 <= n < 16
  {
    "0123456789abcdef"[n]
  }

  function HexValue(c: char): Option<int> {
    if '0' <= c <= '9' then Some(c as int - '0' as int)
    else if 'a' <= c <= 'f' then Some(c as int - 'a' as int + 10)
    else if 'A' <= c <= 'F' then Some(c as int - 'A' as int + 10)
    else None
  }

  // The escapes of JSON.stringify: the short forms, and \u00xx for other controls.
  function EscapeChar(c: char): string {
    if c == '"' then "\\\"" else if c == '\\' then "\\\\"
    else if c == BACKSPACE then "\\b" else if c == FORM_FEED then "\\f"
    else if c == '\n' then "\\n" else if c == '\r' then "\\r" else if c == '\t' then "\\t"
    else if c < ' ' then "\\u00" + [HexDigit(c as int / 16), HexDigit(c as int % 16)]
    else [c]
  }

  function Escape(s: string): string {
    if s == [] then [] else EscapeChar(s[0]) + Escape(s[1..])
  }

  function Quote(s: string): string { ['"'] + (Escape(s) + ['"']) }

  function Hex4(s: string): Option<int> {
    if |s| < 4 || HexValue(s[0]).None? || HexValue(s[1]).None? || HexValue(s[2]).None? || HexValue(s[3]).None? then None
    else Some(((HexValue(s[0]).value * 16 + HexValue(s[1]).value) * 16 + HexValue(s[2]).value) * 16
        + HexValue(s[3]).value)
  }

  predicate IsSurrogate(n: int) { 0xD800 <= n < 0xE000 }

  function CharOf(n: int): char {
    if 0 <= n < 0x11_0000 && !IsSurrogate(n) then n as char else 0xFFFD as char
  }

  // One character after a backslash, and what follows it. A surrogate pair is one character, a
  // lone surrogate becomes the replacement character.
  function ReadEscape(s: string): (r: Option<(char, string)>)
    ensures r.Some? ==> |r.value.1| < |s|
  {
    if s == [] then None
    else
      match s[0]
      case '"' => Some(('"', s[1..]))
      case '\\' => Some(('\\', s[1..]))
      case '/' => Some(('/', s[1..]))
      case 'b' => Some((BACKSPACE, s[1..]))
      case 'f' => Some((FORM_FEED, s[1..]))
      case 'n' => Some(('\n', s[1..]))
      case 'r' => Some(('\r', s[1..]))
      case 't' => Some(('\t', s[1..]))
      case 'u' =>
        var n := Hex4(s[1..]);
        if n.None? then None
        else if IsSurrogate(n.value) && |s| >= 11 && s[5] == '\\' && s[6] == 'u' && Hex4(s[7..]).Some?
                && n.value < 0xDC00 && 0xDC00 <= Hex4(s[7..]).value < 0xE000 then
          Some((CharOf(0x1_0000 + (n.value - 0xD800) * 0x400 + (Hex4(s[7..]).value - 0xDC00)), s[11..]))
        else Some((CharOf(n.value), s[5..]))
      case _ => None
  }

  // The characters up to the closing quote, and what follows it.
  function ReadString(s: string): (r: Option<(string, string)>)
    ensures r.Some? ==> |r.value.1| < |s|
    decreases |s|
  {
    if s == [] || s[0] < ' ' then None
    else if s[0] == '"' then Some(("", s[1..]))
    else if s[0] == '\\' then
      var e := ReadEscape(s[1..]);
      if e.None? then None
      else
        var r := ReadString(e.value.1);
        if r.None? then None else Some(([e.value.0] + r.value.0, r.value.1))
    else
      var r := ReadString(s[1..]);
      if r.None? then None else Some(([s[0]] + r.value.0, r.value.1))
  }

  lemma {:induction false} HexRoundTrip(n: int)
    requires 0 <= n < 32
    ensures Hex4("00" + [HexDigit(n / 16), HexDigit(n % 16)]) == Some(n)
  {
    assert HexValue(HexDigit(n / 16)) == Some(n / 16) && HexValue(HexDigit(n % 16)) == Some(n % 16) by {
      HexDigitValue(n / 16);
      HexDigitValue(n % 16);
    }
  }

  lemma {:induction false} HexDigitValue(n: int)
    requires 0 <= n < 16
    ensures HexValue(HexDigit(n)) == Some(n)
  {
  }

  lemma {:induction false} Hex4Prefix(s: string, rest: string)
    requires |s| == 4
    ensures Hex4(s + rest) == Hex4(s)
  {
  }

  lemma {:induction false} ReadHexEscape(n: int, hex: string, rest: string)
    requires |hex| == 4 && Hex4(hex) == Some(n) && 0 <= n < 32
    ensures ReadEscape(['u'] + (hex + rest)) == Some((n as char, rest))
  {
    var s := ['u'] + (hex + rest);
    Hex4Prefix(hex, rest);
    hide Hex4;
    assert s[0] == 'u' && s[1..] == hex + rest && s[5..] == rest;
  }

  lemma {:induction false} ControlText(c: char)
    requires c < ' ' && c !in {BACKSPACE, FORM_FEED, '\n', '\r', '\t'}
    ensures EscapeChar(c) == ['\\', 'u'] + ("00" + [HexDigit(c as int / 16), HexDigit(c as int % 16)])
  {
    hide HexDigit;
  }

  lemma {:induction false} ControlEscape(c: char, rest: string)
    requires c < ' ' && c !in {BACKSPACE, FORM_FEED, '\n', '\r', '\t'}
    ensures ReadEscape(EscapeChar(c)[1..] + rest) == Some((c, rest)) && EscapeChar(c)[0] == '\\'
  {
    var n := c as int;
    var hex := "00" + [HexDigit(n / 16), HexDigit(n % 16)];
    HexRoundTrip(n);
    ControlText(c);
    ReadHexEscape(n, hex, rest);
    hide Hex4, HexDigit, EscapeChar, ReadEscape;
    assert (['\\', 'u'] + hex)[1..] + rest == ['u'] + (hex + rest);
  }

  lemma {:induction false} ShortEscape(c: char, rest: string)
    requires c in {'"', '\\', BACKSPACE, FORM_FEED, '\n', '\r', '\t'}
    ensures ReadEscape(EscapeChar(c)[1..] + rest) == Some((c, rest)) && EscapeChar(c)[0] == '\\'
  {
    var e := EscapeChar(c);
    var s := e[1..] + rest;
    assert |e| == 2 && s[0] == e[1] && s[1..] == rest;
  }

  lemma {:induction false} ReadAfterBackslash(c: char, e: string, next: string)
    requires e != [] && e[0] == '\\' && ReadEscape(e[1..] + next) == Some((c, next)) && ReadString(next).Some?
    ensures ReadString(e + next) == Some(([c] + ReadString(next).value.0, ReadString(next).value.1))
  {
    assert (e + next)[1..] == e[1..] + next && (e + next)[0] == '\\';
    hide ReadEscape;
  }

  lemma {:induction false} ReadPlain(c: char, next: string)
    requires c >= ' ' && c != '"' && c != '\\' && ReadString(next).Some?
    ensures ReadString([c] + next) == Some(([c] + ReadString(next).value.0, ReadString(next).value.1))
  {
    assert ([c] + next)[1..] == next;
  }

  lemma {:induction false} ReadEscaped(c: char, next: string)
    requires ReadString(next).Some?
    ensures ReadString(EscapeChar(c) + next) == Some(([c] + ReadString(next).value.0, ReadString(next).value.1))
  {
    if c in {'"', '\\', BACKSPACE, FORM_FEED, '\n', '\r', '\t'} {
      hide EscapeChar, ReadString, ReadEscape;
      ShortEscape(c, next);
      NotEmpty(c);
      ReadAfterBackslash(c, EscapeChar(c), next);
    } else if c < ' ' {
      hide EscapeChar, ReadString, ReadEscape;
      ControlEscape(c, next);
      NotEmpty(c);
      ReadAfterBackslash(c, EscapeChar(c), next);
    } else {
      hide ReadString, ReadEscape;
      ReadPlain(c, next);
    }
  }

  lemma {:induction false} NotEmpty(c: char)
    ensures EscapeChar(c) != []
  {
  }

  // Escaping loses nothing.
  lemma {:induction false} StringRoundTrip(s: string, rest: string)
    ensures ReadString(Escape(s) + (['"'] + rest)) == Some((s, rest))
  {
    var tail := ['"'] + rest;
    if s == [] {
      assert Escape(s) + tail == tail && tail[1..] == rest;
    } else {
      hide ReadString, EscapeChar;
      StringRoundTrip(s[1..], rest);
      ReadEscaped(s[0], Escape(s[1..]) + tail);
      AppendAssoc(EscapeChar(s[0]), Escape(s[1..]), tail);
      assert s == [s[0]] + s[1..];
    }
  }

  /* ----- Numbers ----- */

  predicate NumberChar(c: char) { IsDigit(c) || c == '+' || c == '-' || c == '.' || c == 'e' || c == 'E' }

  predicate AllNumberChars(s: string) { forall i :: 0 <= i < |s| ==> NumberChar(s[i]) }

  function NumberRun(s: string): (n: nat)
    ensures n <= |s|
  {
    if s == [] || !NumberChar(s[0]) then 0 else 1 + NumberRun(s[1..])
  }

  lemma {:induction false} NumberRunOf(text: string, rest: string)
    requires AllNumberChars(text) && (rest != [] ==> !NumberChar(rest[0]))
    ensures NumberRun(text + rest) == |text|
  {
    if text == [] {
      assert text + rest == rest;
    } else {
      assert (text + rest)[1..] == text[1..] + rest;
      NumberRunOf(text[1..], rest);
    }
  }

  lemma {:induction false} PartsAreNumberChars(p: Parts)
    requires WellFormed(p)
    ensures AllNumberChars(Compose(p)) && Compose(p) != [] && (Compose(p)[0] == '-' || IsDigit(Compose(p)[0]))
  {
    assert AllNumberChars(ExponentText(p.exponent));
    assert AllNumberChars(FractionText(p.fraction));
    hide ExponentText, FractionText, IsExponent;
  }

  lemma {:induction false} NumbersAreNumberChars(text: string)
    requires Parse(text).Some?
    ensures AllNumberChars(text) && text != [] && (text[0] == '-' || IsDigit(text[0]))
  {
    hide Parse, WellFormed, Compose;
    ParsedIsWellFormed(text);
    PartsAreNumberChars(Parse(text).value);
  }

  /* ----- Values ----- */

  predicate HasKey(fields: seq<Field>, key: string) { exists i :: 0 <= i < |fields| && fields[i].key == key }

  predicate StartsWith(s: string, word: string) { |word| <= |s| && s[..|word|] == word }

  function ReadScalar(t: string): (r: Option<(Json, string)>)
    requires t != []
    ensures r.Some? ==> |r.value.1| < |t|
  {
    if t[0] == '"' then
      var r := ReadString(t[1..]);
      if r.None? then None else Some((Str(r.value.0), r.value.1))
    else if t[0] == '-' || IsDigit(t[0]) then
      var n := NumberRun(t);
      if n == 0 || Parse(t[..n]).None? then None else Some((Num(t[..n]), t[n..]))
    else if StartsWith(t, "null") then Some((Null, t[4..]))
    else if StartsWith(t, "true") then Some((Bool(true), t[4..]))
    else if StartsWith(t, "false") then Some((Bool(false), t[5..]))
    else None
  }

  function ReadValue(s: string, depth: nat): (r: Option<(Json, string)>)
    ensures r.Some? ==> |r.value.1| < |s|
    decreases |s|, 1
  {
    var t := SkipBlank(s);
    if depth > MAX_DEPTH || t == [] then None
    else if t[0] == '{' then ReadMembers(t[1..], depth, [])
    else if t[0] == '[' then ReadItems(t[1..], depth, [])
    else ReadScalar(t)
  }

  // After the opening brace, or after a member.
  function ReadMembers(s: string, depth: nat, fields: seq<Field>): (r: Option<(Json, string)>)
    ensures r.Some? ==> |r.value.1| < |s|
    decreases |s|, 0
  {
    var t := SkipBlank(s);
    if t == [] then None
    else if t[0] == '}' then Some((Obj(fields), t[1..]))
    else
      var u := if fields == [] then t else if t[0] == ',' then SkipBlank(t[1..]) else [];
      if u == [] || u[0] != '"' then None
      else
        var k := ReadString(u[1..]);
        if k.None? || HasKey(fields, k.value.0) then None
        else
          var v := SkipBlank(k.value.1);
          if v == [] || v[0] != ':' then None
          else
            var x := ReadValue(v[1..], depth + 1);
            if x.None? then None
            else ReadMembers(x.value.1, depth, fields + [Keyed(k.value.0, x.value.0)])
  }

  function ReadItems(s: string, depth: nat, items: seq<Json>): (r: Option<(Json, string)>)
    ensures r.Some? ==> |r.value.1| < |s|
    decreases |s|, 2
  {
    var t := SkipBlank(s);
    if t == [] then None
    else if t[0] == ']' then Some((Arr(items), t[1..]))
    else
      var u := if items == [] then t else if t[0] == ',' then t[1..] else [];
      if u == [] then None
      else
        var x := ReadValue(u, depth + 1);
        if x.None? then None else ReadItems(x.value.1, depth, items + [x.value.0])
  }
}
