/**
 * Decimal numbers in signed JSON bodies: the number grammar, the normal form of a spelling,
 * and the proof that the normal form is complete.
 */
module CanonicalNumber {
  import opened Prelude
  import opened Digits

  const MAX_LENGTH := 512
  const MAX_EXPONENT := 1000

  /* ----- Digits ----- */

  // How many digits s starts with.
  function DigitRun(s: string): (n: nat)
    ensures n <= |s| && AllDigits(s[..n]) && (n < |s| ==> !IsDigit(s[n]))
  {
    if s == [] || !IsDigit(s[0]) then 0
    else
      var n := DigitRun(s[1..]);
      assert forall i :: 0 < i <= n ==> s[i] == s[1..][i - 1];
      n + 1
  }

  lemma {:induction false} DigitRunOf(digits: string, rest: string)
    requires AllDigits(digits) && (rest != [] ==> !IsDigit(rest[0]))
    ensures DigitRun(digits + rest) == |digits|
  {
    if digits == [] {
      assert digits + rest == rest;
    } else {
      assert (digits + rest)[1..] == digits[1..] + rest;
      DigitRunOf(digits[1..], rest);
    }
  }

  function Zeros(n: nat): (s: string)
    ensures |s| == n && AllDigits(s)
  {
    if n == 0 then [] else ['0'] + Zeros(n - 1)
  }

  function TrimLeft(s: string): string {
    if s != [] && s[0] == '0' then TrimLeft(s[1..]) else s
  }

  function TrimRight(s: string): string {
    if s != [] && s[|s| - 1] == '0' then TrimRight(s[..|s| - 1]) else s
  }

  /* ----- The grammar ----- */

  // exponent: its marker and its digits with an optional sign.
  datatype Parts = Parts(negative: bool, whole: string, fraction: string, exponent: Option<(char, string)>)

  predicate IsExponent(x: string) {
    if x != [] && (x[0] == '+' || x[0] == '-') then |x| > 1 && AllDigits(x[1..]) else x != [] && AllDigits(x)
  }

  predicate WellFormed(p: Parts) {
    && p.whole != [] && AllDigits(p.whole) && (p.whole[0] == '0' ==> |p.whole| == 1)
    && AllDigits(p.fraction)
    && (p.exponent.Some? ==> p.exponent.value.0 in {'e', 'E'} && IsExponent(p.exponent.value.1))
  }

  function SignText(negative: bool): string { if negative then "-" else "" }

  function FractionText(fraction: string): string { if fraction == [] then [] else ['.'] + fraction }

  function ExponentText(exponent: Option<(char, string)>): string {
    if exponent.None? then [] else [exponent.value.0] + exponent.value.1
  }

  function Compose(p: Parts): string {
    SignText(p.negative) + (p.whole + (FractionText(p.fraction) + ExponentText(p.exponent)))
  }

  function ParseExponent(s: string): Option<Option<(char, string)>> {
    if s == [] then Some(None)
    else if (s[0] == 'e' || s[0] == 'E') && IsExponent(s[1..]) then Some(Some((s[0], s[1..])))
    else None
  }

  // What follows the whole part.
  function ParseTail(negative: bool, whole: string, r: string): Option<Parts> {
    if r != [] && r[0] == '.' then
      var f := DigitRun(r[1..]);
      var exponent := ParseExponent(r[1..][f..]);
      if f == 0 || exponent.None? then None else Some(Parts(negative, whole, r[1..][..f], exponent.value))
    else
      var exponent := ParseExponent(r);
      if exponent.None? then None else Some(Parts(negative, whole, [], exponent.value))
  }

  function ParseUnsigned(t: string, negative: bool): Option<Parts> {
    var w := DigitRun(t);
    if w == 0 || (t[0] == '0' && w > 1) then None else ParseTail(negative, t[..w], t[w..])
  }

  function Parse(s: string): Option<Parts> {
    if s != [] && s[0] == '-' then ParseUnsigned(s[1..], true) else ParseUnsigned(s, false)
  }

  lemma {:induction false} ParseExponentText(exponent: Option<(char, string)>)
    requires exponent.Some? ==> exponent.value.0 in {'e', 'E'} && IsExponent(exponent.value.1)
    ensures ParseExponent(ExponentText(exponent)) == Some(exponent)
    ensures ExponentText(exponent) != [] ==> ExponentText(exponent)[0] in {'e', 'E'}
  {
    if exponent.Some? { assert ExponentText(exponent)[1..] == exponent.value.1; }
  }

  lemma {:induction false} ParseTailText(p: Parts)
    requires WellFormed(p)
    ensures ParseTail(p.negative, p.whole, FractionText(p.fraction) + ExponentText(p.exponent)) == Some(p)
  {
    var x := ExponentText(p.exponent);
    ParseExponentText(p.exponent);
    hide ParseExponent, ExponentText, IsExponent;
    var r := FractionText(p.fraction) + x;
    if p.fraction == [] {
      assert r == x;
    } else {
      assert r[1..] == p.fraction + x;
      DigitRunOf(p.fraction, x);
      assert (p.fraction + x)[|p.fraction|..] == x && (p.fraction + x)[..|p.fraction|] == p.fraction;
    }
  }

  lemma {:induction false} NoDigitAfterWhole(p: Parts)
    requires WellFormed(p)
    ensures var r := FractionText(p.fraction) + ExponentText(p.exponent); r != [] ==> !IsDigit(r[0])
  {
  }

  lemma {:induction false} ParseUnsignedText(p: Parts)
    requires WellFormed(p)
    ensures ParseUnsigned(p.whole + (FractionText(p.fraction) + ExponentText(p.exponent)), p.negative) == Some(p)
  {
    var r := FractionText(p.fraction) + ExponentText(p.exponent);
    NoDigitAfterWhole(p);
    ParseTailText(p);
    hide ParseTail, FractionText, ExponentText, IsExponent;
    DigitRunOf(p.whole, r);
    var t := p.whole + r;
    assert t[|p.whole|..] == r && t[..|p.whole|] == p.whole;
  }

  // Parsing accepts exactly the grammar and loses nothing.
  lemma {:induction false} ParseCompose(p: Parts)
    requires WellFormed(p)
    ensures Parse(Compose(p)) == Some(p)
  {
    ParseUnsignedText(p);
    hide ParseUnsigned;
    var t := p.whole + (FractionText(p.fraction) + ExponentText(p.exponent));
    if p.negative {
      assert Compose(p)[1..] == t;
    } else {
      assert Compose(p) == t;
      assert t[0] == p.whole[0] && IsDigit(p.whole[0]);
    }
  }

  lemma {:induction false} ParsedExponent(s: string)
    requires ParseExponent(s).Some?
    ensures var x := ParseExponent(s).value;
            ExponentText(x) == s && (x.Some? ==> x.value.0 in {'e', 'E'} && IsExponent(x.value.1))
  {
  }

  lemma {:induction false} ParsedTail(negative: bool, whole: string, r: string)
    requires ParseTail(negative, whole, r).Some?
    ensures var p := ParseTail(negative, whole, r).value;
            && r == FractionText(p.fraction) + ExponentText(p.exponent)
            && p.negative == negative && p.whole == whole && AllDigits(p.fraction)
            && (p.exponent.Some? ==> p.exponent.value.0 in {'e', 'E'} && IsExponent(p.exponent.value.1))
  {
    hide IsExponent, ParseExponent, ExponentText;
    if r != [] && r[0] == '.' {
      var f := DigitRun(r[1..]);
      var fraction, rest := r[1..][..f], r[1..][f..];
      ParsedExponent(rest);
      assert r == ['.'] + (fraction + rest);
      AppendAssoc(['.'], fraction, rest);
    } else {
      ParsedExponent(r);
      assert [] + r == r;
    }
  }

  lemma {:induction false} ParsedUnsigned(t: string, negative: bool)
    requires ParseUnsigned(t, negative).Some?
    ensures var p := ParseUnsigned(t, negative).value;
            WellFormed(p) && p.negative == negative
                && t == p.whole + (FractionText(p.fraction) + ExponentText(p.exponent))
  {
    hide IsExponent, ParseTail, ExponentText, FractionText;
    var w := DigitRun(t);
    ParsedTail(negative, t[..w], t[w..]);
    assert t == t[..w] + t[w..];
  }

  lemma {:induction false} ParsedIsWellFormed(s: string)
    requires Parse(s).Some?
    ensures WellFormed(Parse(s).value) && Compose(Parse(s).value) == s
  {
    hide ParseUnsigned, WellFormed;
    if s != [] && s[0] == '-' {
      ParsedUnsigned(s[1..], true);
      assert s == "-" + s[1..];
    } else {
      ParsedUnsigned(s, false);
      assert [] + s == s;
    }
  }

  /* ----- The number a spelling denotes ----- */

  // m times ten to the e.
  datatype Decimal = Decimal(m: int, e: int)

  function Signed(negative: bool, m: nat): int { if negative then -(m as int) else m }

  function ExponentValue(x: string): int
    requires IsExponent(x)
  {
    if x[0] == '-' then -(NatOf(x[1..]) as int) else if x[0] == '+' then NatOf(x[1..]) else NatOf(x)
  }

  function ExponentOf(p: Parts): int
    requires WellFormed(p)
  {
    if p.exponent.None? then 0 else ExponentValue(p.exponent.value.1)
  }

  function ValueOf(p: Parts): Decimal
    requires WellFormed(p)
  {
    Decimal(Signed(p.negative, NatOf(p.whole + p.fraction)), ExponentOf(p) - |p.fraction|)
  }

  // The multiple of ten to the l that a decimal is.
  function AtLevel(d: Decimal, l: int): int
    requires l <= d.e
  {
    d.m * Pow10(d.e - l)
  }

  predicate Same(a: Decimal, b: Decimal) { AtLevel(a, Min(a.e, b.e)) == AtLevel(b, Min(a.e, b.e)) }

  lemma {:induction false} TenTimes(x: int, p: int)
    ensures x * (10 * p) == 10 * (x * p)
  {
  }

  lemma {:induction false} PowSplit(i: nat, k: nat)
    ensures Pow10(i + k) == Pow10(i) * Pow10(k) && 0 < Pow10(k)
  {
    if k > 0 {
      PowSplit(i, k - 1);
      TenTimes(Pow10(i), Pow10(k - 1));
    } else {
      assert Pow10(i + k) == Pow10(i);
    }
  }

  lemma {:induction false} LevelDown(d: Decimal, l: int, l': int)
    requires l' <= l <= d.e
    ensures AtLevel(d, l') == AtLevel(d, l) * Pow10(l - l')
  {
    PowSplit(d.e - l, l - l');
    assert d.e - l + (l - l') == d.e - l';
    hide Pow10;
  }

  lemma {:induction false} Positive(x: int, k: int)
    ensures 0 < x && 0 < k ==> 0 < x * k
  {
  }

  lemma {:induction false} CancelFactor(x: int, y: int, k: nat)
    requires 0 < k
    ensures x * k == y * k ==> x == y
  {
    Positive(y - x, k);
    Positive(x - y, k);
    assert (y - x) * k == y * k - x * k && (x - y) * k == x * k - y * k;
  }

  // Sameness can be seen at any common level.
  lemma {:induction false} SameAtLevel(a: Decimal, b: Decimal, l: int)
    requires l <= a.e && l <= b.e
    ensures Same(a, b) <==> AtLevel(a, l) == AtLevel(b, l)
  {
    var m := Min(a.e, b.e);
    LevelDown(a, m, l);
    LevelDown(b, m, l);
    PowSplit(0, m - l);
    hide AtLevel, Pow10;
    CancelFactor(AtLevel(a, m), AtLevel(b, m), Pow10(m - l));
  }

  lemma {:induction false} SameIsTransitive(a: Decimal, b: Decimal, c: Decimal)
    requires Same(a, b) && Same(b, c)
    ensures Same(a, c) && Same(b, a)
  {
    hide Same, AtLevel;
    var l := Min(a.e, Min(b.e, c.e));
    SameAtLevel(a, b, l);
    SameAtLevel(b, a, l);
    SameAtLevel(b, c, l);
    SameAtLevel(a, c, l);
  }

  /* ----- The normal form ----- */

  // Zero, or 0.digits times ten to the point, the digits neither led nor trailed by zeros.
  datatype Normal = Zero | Number(negative: bool, digits: string, point: int)

  predicate IsNormal(n: Normal) {
    n.Number? ==>
      && n.digits != [] && AllDigits(n.digits)
      && n.digits[0] != '0' && n.digits[|n.digits| - 1] != '0'
  }

  function Normalize(p: Parts): Normal
    requires WellFormed(p)
  {
    var digits := TrimLeft(p.whole + p.fraction);
    if digits == [] then Zero
    else Number(p.negative, TrimRight(digits), |digits| + ExponentOf(p) - |p.fraction|)
  }

  function NormalValue(n: Normal): Decimal
    requires IsNormal(n)
  {
    if n.Zero? then Decimal(0, 0) else Decimal(Signed(n.negative, NatOf(n.digits)), n.point - |n.digits|)
  }

  lemma {:induction false} NatConcat(a: string, b: string)
    requires AllDigits(a) && AllDigits(b)
    ensures AllDigits(a + b) && NatOf(a + b) == NatOf(a) * Pow10(|b|) + NatOf(b)
  {
    if b == [] {
      assert a + b == a;
    } else {
      var b' := b[..|b| - 1];
      assert (a + b)[..|a + b| - 1] == a + b';
      NatConcat(a, b');
      TenTimes(NatOf(a), Pow10(|b'|));
    }
  }

  function Scale(m: nat, k: nat): nat { m * Pow10(k) }

  lemma {:induction false} TrimLeftKeeps(s: string)
    requires AllDigits(s)
    ensures var t := TrimLeft(s);
            && |t| <= |s| && AllDigits(t) && NatOf(t) == NatOf(s) && (t != [] ==> t[0] != '0')
            && t == s[|s| - |t|..]
  {
    if s != [] && s[0] == '0' {
      TrimLeftKeeps(s[1..]);
      assert s == [s[0]] + s[1..];
      NatConcat([s[0]], s[1..]);
      assert NatOf([s[0]]) == 0 by { assert [s[0]][..0] == []; }
    }
  }

  lemma {:induction false} TrimRightKeeps(s: string)
    requires AllDigits(s) && s != [] && s[0] != '0'
    ensures var t := TrimRight(s);
            && 0 < |t| <= |s| && AllDigits(t) && t[0] == s[0] && t[|t| - 1] != '0'
            && NatOf(s) == Scale(NatOf(t), |s| - |t|)
  {
    if s[|s| - 1] == '0' {
      var s' := s[..|s| - 1];
      TrimRightKeeps(s');
      var k := |s'| - |TrimRight(s')|;
      TenTimes(NatOf(TrimRight(s')), Pow10(k));
    }
  }

  lemma {:induction false} NormalizedShape(p: Parts) returns (k: nat)
    requires WellFormed(p) && TrimLeft(p.whole + p.fraction) != []
    ensures var n := Normalize(p);
            && IsNormal(n) && n.Number? && n.negative == p.negative
            && NatOf(p.whole + p.fraction) == Scale(NatOf(n.digits), k)
            && n.point - |n.digits| == ExponentOf(p) - |p.fraction| + k
  {
    var all := p.whole + p.fraction;
    TrimLeftKeeps(all);
    TrimRightKeeps(TrimLeft(all));
    k := |TrimLeft(all)| - |TrimRight(TrimLeft(all))|;
    hide ExponentOf, TrimLeft, TrimRight, AllDigits, NatOf, Scale, WellFormed;
  }

  lemma {:induction false} NormalizeNumber(p: Parts)
    requires WellFormed(p) && TrimLeft(p.whole + p.fraction) != []
    ensures IsNormal(Normalize(p)) && Same(ValueOf(p), NormalValue(Normalize(p)))
  {
    hide Normalize, ExponentOf, TrimLeft, Same, NatOf, Scale, WellFormed, Signed, AllDigits;
    var k := NormalizedShape(p);
    var n := Normalize(p);
    ScaledIsSame(p.negative, NatOf(n.digits), k, ExponentOf(p) - |p.fraction|);
  }

  // Normalizing changes the spelling, not the number.
  lemma {:induction false} NormalizeKeepsValue(p: Parts)
    requires WellFormed(p)
    ensures IsNormal(Normalize(p)) && Same(ValueOf(p), NormalValue(Normalize(p)))
  {
    if TrimLeft(p.whole + p.fraction) == [] {
      TrimLeftKeeps(p.whole + p.fraction);
      hide ExponentOf, TrimLeft, Same;
      NatOfNothing();
      ZeroIsSame(ExponentOf(p) - |p.fraction|);
    } else {
      NormalizeNumber(p);
    }
  }

  lemma {:induction false} NatOfNothing()
    ensures NatOf([]) == 0
  {
  }

  lemma {:induction false} ZeroIsSame(e: int)
    ensures Same(Decimal(0, e), Decimal(0, 0))
  {
  }

  lemma {:induction false} ScaledIsSame(negative: bool, m: nat, k: nat, e: int)
    ensures Same(Decimal(Signed(negative, Scale(m, k)), e), Decimal(Signed(negative, m), e + k))
  {
    var x := m * Pow10(k);
    assert Pow10(0) == 1 && x * 1 == x;
    assert (0 - m) * Pow10(k) == 0 - x;
  }

  /* ----- A number has one normal form ----- */

  lemma {:induction false} NatPositive(s: string)
    requires AllDigits(s) && s != [] && s[0] != '0'
    ensures 0 < NatOf(s)
  {
    if |s| > 1 { NatPositive(s[..|s| - 1]); }
  }

  lemma {:induction false} NatInjective(s: string, t: string)
    requires AllDigits(s) && AllDigits(t) && NatOf(s) == NatOf(t)
    requires (s != [] ==> s[0] != '0') && (t != [] ==> t[0] != '0')
    ensures s == t
    decreases |s|
  {
    if s == [] {
      if t != [] { NatPositive(t); }
    } else if t == [] {
      NatPositive(s);
    } else {
      NatInjective(s[..|s| - 1], t[..|t| - 1]);
      assert s == s[..|s| - 1] + [s[|s| - 1]] && t == t[..|t| - 1] + [t[|t| - 1]];
    }
  }

  lemma {:induction false} TimesTen(m: nat, k: nat)
    requires 0 < k
    ensures (m * Pow10(k)) % 10 == 0
  {
    TenTimes(m, Pow10(k - 1));
  }

  lemma {:induction false} LastDigit(s: string)
    requires AllDigits(s) && s != []
    ensures NatOf(s) % 10 == DigitValue(s[|s| - 1])
  {
  }

  lemma {:induction false} NoTrailingFactor(s: string, m: nat, k: nat)
    requires AllDigits(s) && s != [] && s[|s| - 1] != '0' && NatOf(s) == m * Pow10(k)
    ensures k == 0
  {
    LastDigit(s);
    hide NatOf, Pow10;
    if k > 0 { TimesTen(m, k); }
  }

  lemma {:induction false} SignedTimes(negative: bool, x: nat, k: int)
    ensures Signed(negative, x) * k == if negative then -(x * k) else x * k
  {
  }

  lemma {:induction false} SignsAgree(na: bool, nb: bool, x: nat, y: nat, j: nat, k: nat)
    requires 0 < x && 0 < y && Signed(na, x) * Pow10(j) == Signed(nb, y) * Pow10(k)
    ensures na == nb && x * Pow10(j) == y * Pow10(k)
  {
    PowSplit(0, j);
    PowSplit(0, k);
    hide Pow10;
    SignedTimes(na, x, Pow10(j));
    SignedTimes(nb, y, Pow10(k));
    hide Signed;
    Positive(x, Pow10(j));
    Positive(y, Pow10(k));
  }

  lemma {:induction false} SameNumbers(a: Normal, b: Normal)
    requires IsNormal(a) && IsNormal(b) && a.Number? && b.Number? && Same(NormalValue(a), NormalValue(b))
    ensures a == b
  {
    var x, y := NormalValue(a), NormalValue(b);
    var l := Min(x.e, y.e);
    NatPositive(a.digits);
    NatPositive(b.digits);
    SignsAgree(a.negative, b.negative, NatOf(a.digits), NatOf(b.digits), x.e - l, y.e - l);
    assert Pow10(0) == 1;
    if x.e <= y.e {
      NoTrailingFactor(a.digits, NatOf(b.digits), y.e - l);
    } else {
      NoTrailingFactor(b.digits, NatOf(a.digits), x.e - l);
    }
    NatInjective(a.digits, b.digits);
  }

  lemma {:induction false} NormalIsUnique(a: Normal, b: Normal)
    requires IsNormal(a) && IsNormal(b)
    ensures Same(NormalValue(a), NormalValue(b)) <==> a == b
  {
    if a.Number? { ZeroIsNotNumber(a); }
    if b.Number? { ZeroIsNotNumber(b); }
    if a.Number? && b.Number? && Same(NormalValue(a), NormalValue(b)) { SameNumbers(a, b); }
  }

  lemma {:induction false} ZeroIsNotNumber(n: Normal)
    requires IsNormal(n) && n.Number?
    ensures !Same(Decimal(0, 0), NormalValue(n)) && !Same(NormalValue(n), Decimal(0, 0))
  {
    NatPositive(n.digits);
    var v := NormalValue(n);
    var k := v.e - Min(0, v.e);
    PowSplit(0, k);
    hide Pow10, NatOf;
    assert v.m * Pow10(k) != 0;
  }

  /* ----- Rendering ----- */

  function NatText(n: nat): (s: string)
    ensures s != [] && AllDigits(s) && NatOf(s) == n
  {
    if n < 10 then
      assert [DigitChar(n)][..0] == [];
      [DigitChar(n)]
    else
      var s := NatText(n / 10) + [DigitChar(n % 10)];
      assert s[..|s| - 1] == NatText(n / 10);
      s
  }

  function ExponentLabel(e: int): string {
    if e >= 0 then "+" + NatText(e) else "-" + NatText(-e)
  }

  function Render(n: Normal): string
    requires IsNormal(n)
  {
    match n
    case Zero => "0"
    case Number(negative, digits, point) =>
      var sign := SignText(negative);
      if 0 < point <= 21 then
        if point >= |digits| then sign + (digits + Zeros(point - |digits|))
        else sign + (digits[..point] + (['.'] + digits[point..]))
      else if -6 < point <= 0 then sign + ("0" + (['.'] + (Zeros(-point) + digits)))
      else if |digits| > 1 then sign + (digits[..1] + ((['.'] + digits[1..]) + (['e'] + ExponentLabel(point - 1))))
      else sign + (digits[..1] + (['e'] + ExponentLabel(point - 1)))
  }

  // The grammar's reading of a rendered number.
  function RenderParts(n: Normal): Parts
    requires IsNormal(n)
  {
    match n
    case Zero => Parts(false, "0", [], None)
    case Number(negative, digits, point) =>
      if 0 < point <= 21 then
        if point >= |digits| then Parts(negative, digits + Zeros(point - |digits|), [], None)
        else Parts(negative, digits[..point], digits[point..], None)
      else if -6 < point <= 0 then Parts(negative, "0", Zeros(-point) + digits, None)
      else Parts(negative, digits[..1], digits[1..], Some(('e', ExponentLabel(point - 1))))
  }

  lemma {:induction false} LabelIsExponent(e: int)
    ensures IsExponent(ExponentLabel(e)) && ExponentValue(ExponentLabel(e)) == e
  {
    var x := ExponentLabel(e);
    assert x[1..] == NatText(if e >= 0 then e else -e);
  }

  lemma {:induction false} ComposeWhole(negative: bool, whole: string)
    ensures Compose(Parts(negative, whole, [], None)) == SignText(negative) + whole
  {
    assert whole + ([] + []) == whole;
  }

  lemma {:induction false} ComposeFraction(negative: bool, whole: string, fraction: string)
    requires fraction != []
    ensures Compose(Parts(negative, whole, fraction, None)) == SignText(negative) + (whole + (['.'] + fraction))
  {
    assert (['.'] + fraction) + [] == ['.'] + fraction;
  }

  lemma {:induction false} ComposeExponent(negative: bool, whole: string, x: string)
    ensures Compose(Parts(negative, whole, [], Some(('e', x)))) == SignText(negative) + (whole + (['e'] + x))
  {
    assert [] + (['e'] + x) == ['e'] + x;
  }

  lemma {:induction false} RenderedIsWellFormed(n: Normal)
    requires IsNormal(n)
    ensures WellFormed(RenderParts(n))
  {
    hide IsExponent, ExponentLabel, Zeros;
    if n.Number? { LabelIsExponent(n.point - 1); }
  }

  lemma {:induction false} RenderIsParts(n: Normal)
    requires IsNormal(n)
    ensures Compose(RenderParts(n)) == Render(n)
  {
    hide IsExponent, ExponentLabel, Zeros, AllDigits, SignText;
    if n.Zero? {
      ComposeWhole(false, "0");
      assert SignText(false) + "0" == "0" by { NoSign("0"); }
    } else {
      var digits, point := n.digits, n.point;
      if 0 < point <= 21 && point >= |digits| {
        ComposeWhole(n.negative, digits + Zeros(point - |digits|));
      } else if 0 < point <= 21 {
        ComposeFraction(n.negative, digits[..point], digits[point..]);
      } else if -6 < point <= 0 {
        ComposeFraction(n.negative, "0", Zeros(-point) + digits);
      } else if |digits| == 1 {
        assert digits[1..] == [];
        ComposeExponent(n.negative, digits[..1], ExponentLabel(point - 1));
      }
    }
  }

  lemma {:induction false} NoSign(s: string)
    ensures SignText(false) + s == s
  {
  }

  lemma {:induction false} TrimLeftZeros(k: nat, s: string)
    requires s != [] && s[0] != '0'
    ensures TrimLeft(Zeros(k) + s) == s
  {
    if k == 0 {
      assert Zeros(0) + s == s;
    } else {
      assert (Zeros(k) + s)[1..] == Zeros(k - 1) + s;
      TrimLeftZeros(k - 1, s);
    }
  }

  lemma {:induction false} ZerosRight(k: nat)
    requires 0 < k
    ensures Zeros(k)[k - 1] == '0' && Zeros(k)[..k - 1] == Zeros(k - 1)
  {
    if k > 1 {
      ZerosRight(k - 1);
      assert Zeros(k)[1..] == Zeros(k - 1);
      assert Zeros(k)[..k - 1] == ['0'] + Zeros(k - 1)[..k - 2];
    }
  }

  lemma {:induction false} TrimRightZeros(s: string, k: nat)
    requires s != [] && s[|s| - 1] != '0'
    ensures TrimRight(s + Zeros(k)) == s
  {
    var t := s + Zeros(k);
    if k == 0 {
      assert t == s;
    } else {
      ZerosRight(k);
      assert t[..|t| - 1] == s + Zeros(k - 1);
      TrimRightZeros(s, k - 1);
    }
  }

  // Reading a rendered number and normalizing it gives the number back.
  lemma {:induction false} RenderRoundTrip(n: Normal)
    requires IsNormal(n)
    ensures WellFormed(RenderParts(n)) && Parse(Render(n)) == Some(RenderParts(n)) && Normalize(RenderParts(n)) == n
  {
    RenderIsParts(n);
    RenderedIsWellFormed(n);
    ParseCompose(RenderParts(n));
    hide Parse, Compose, Render, WellFormed;
    if n.Zero? {
      assert TrimLeft("0" + []) == [] by { assert "0" + [] == "0" && "0"[1..] == []; }
    } else {
      NumberRoundTrip(n);
    }
  }

  // The digits alone decide the normal form, whatever zeros surround them.
  lemma {:induction false} NormalizeDigits(p: Parts, n: Normal, left: nat, right: nat)
    requires WellFormed(p) && IsNormal(n) && n.Number? && p.negative == n.negative
    requires p.whole + p.fraction == Zeros(left) + (n.digits + Zeros(right))
    requires |n.digits| + right + ExponentOf(p) - |p.fraction| == n.point
    ensures Normalize(p) == n
  {
    TrimLeftZeros(left, n.digits + Zeros(right));
    TrimRightZeros(n.digits, right);
    hide TrimLeft, TrimRight, ExponentOf, WellFormed, AllDigits;
  }

  lemma {:induction false} NoZeros(s: string)
    ensures Zeros(0) + s == s && s + Zeros(0) == s
  {
  }

  lemma {:induction false} PaddedRoundTrip(n: Normal)
    requires IsNormal(n) && n.Number? && WellFormed(RenderParts(n)) && 0 < n.point <= 21 && n.point >= |n.digits|
    ensures Normalize(RenderParts(n)) == n
  {
    hide ExponentLabel, WellFormed, AllDigits, Normalize, Zeros;
    var p := RenderParts(n);
    NoZeros(n.digits + Zeros(n.point - |n.digits|));
    assert p.whole + [] == p.whole;
    NormalizeDigits(p, n, 0, n.point - |n.digits|);
  }

  lemma {:induction false} SmallRoundTrip(n: Normal)
    requires IsNormal(n) && n.Number? && WellFormed(RenderParts(n)) && -6 < n.point <= 0
    ensures Normalize(RenderParts(n)) == n
  {
    assert Zeros(1 - n.point) == "0" + Zeros(-n.point);
    hide ExponentLabel, WellFormed, AllDigits, Normalize, Zeros;
    NoZeros(n.digits);
    AppendAssoc("0", Zeros(-n.point), n.digits);
    NormalizeDigits(RenderParts(n), n, 1 - n.point, 0);
  }

  lemma {:induction false} SplitRoundTrip(n: Normal)
    requires IsNormal(n) && n.Number? && WellFormed(RenderParts(n)) && 0 < n.point <= 21 && n.point < |n.digits|
    ensures Normalize(RenderParts(n)) == n
  {
    hide ExponentLabel, WellFormed, AllDigits, Normalize, Zeros;
    NoZeros(n.digits);
    assert n.digits[..n.point] + n.digits[n.point..] == n.digits;
    NormalizeDigits(RenderParts(n), n, 0, 0);
  }

  lemma {:induction false} ScientificRoundTrip(n: Normal)
    requires IsNormal(n) && n.Number? && WellFormed(RenderParts(n)) && !(-6 < n.point <= 21)
    ensures Normalize(RenderParts(n)) == n
  {
    hide ExponentLabel, WellFormed, AllDigits, Normalize, Zeros, ExponentValue;
    NoZeros(n.digits);
    assert n.digits[..1] + n.digits[1..] == n.digits;
    LabelIsExponent(n.point - 1);
    NormalizeDigits(RenderParts(n), n, 0, 0);
  }

  lemma {:induction false} NumberRoundTrip(n: Normal)
    requires IsNormal(n) && n.Number? && WellFormed(RenderParts(n))
    ensures Normalize(RenderParts(n)) == n
  {
    hide RenderParts, WellFormed, Normalize, IsNormal;
    if 0 < n.point <= 21 && n.point >= |n.digits| {
      PaddedRoundTrip(n);
    } else if 0 < n.point <= 21 {
      SplitRoundTrip(n);
    } else if -6 < n.point <= 0 {
      SmallRoundTrip(n);
    } else {
      ScientificRoundTrip(n);
    }
  }

  /* ----- The canonical spelling ----- */

  predicate WithinLimits(s: string)
    requires Parse(s).Some?
  {
    ParsedIsWellFormed(s);
    |s| <= MAX_LENGTH && -MAX_EXPONENT <= ExponentOf(Parse(s).value) <= MAX_EXPONENT
  }

  function Canonical(raw: string): Option<string> {
    if |raw| == 0 || |raw| > MAX_LENGTH || Parse(raw).None? then None
    else
      ParsedIsWellFormed(raw);
      var p := Parse(raw).value;
      if ExponentOf(p) < -MAX_EXPONENT || ExponentOf(p) > MAX_EXPONENT then None
      else
        NormalizeKeepsValue(p);
        Some(Render(Normalize(p)))
  }

  function NumberOf(s: string): Decimal
    requires Parse(s).Some?
  {
    ParsedIsWellFormed(s);
    ValueOf(Parse(s).value)
  }

  lemma {:induction false} AcceptedForm(raw: string)
    requires Canonical(raw).Some?
    ensures Parse(raw).Some? && WellFormed(Parse(raw).value) && IsNormal(Normalize(Parse(raw).value))
    ensures Canonical(raw).value == Render(Normalize(Parse(raw).value))
    ensures Same(NumberOf(raw), NormalValue(Normalize(Parse(raw).value)))
  {
    hide Parse, WellFormed, Normalize, Render, ValueOf, ExponentOf, Same;
    ParsedIsWellFormed(raw);
    NormalizeKeepsValue(Parse(raw).value);
  }

  /** The canonical spelling obeys the number grammar and denotes the same number. */
  lemma {:induction false} CanonicalKeepsValue(raw: string)
    requires Canonical(raw).Some?
    ensures Parse(raw).Some? && Parse(Canonical(raw).value).Some?
    ensures Same(NumberOf(raw), NumberOf(Canonical(raw).value))
  {
    hide Parse, WellFormed, Normalize, Render, ValueOf, Same, Canonical, NormalValue;
    AcceptedForm(raw);
    var n := Normalize(Parse(raw).value);
    RenderRoundTrip(n);
    NormalizeKeepsValue(RenderParts(n));
    SameItself(NormalValue(n));
    SameIsTransitive(ValueOf(RenderParts(n)), NormalValue(n), NormalValue(n));
    SameIsTransitive(NumberOf(raw), NormalValue(n), ValueOf(RenderParts(n)));
  }

  /** Two spellings have the same canonical spelling exactly when they denote the same number. */
  lemma {:induction false} CanonicalIsComplete(a: string, b: string)
    requires Canonical(a).Some? && Canonical(b).Some?
    ensures Parse(a).Some? && Parse(b).Some?
    ensures Canonical(a) == Canonical(b) <==> Same(NumberOf(a), NumberOf(b))
  {
    hide Parse, WellFormed, Normalize, Render, ValueOf, Same, Canonical, NormalValue, NumberOf, IsNormal, RenderParts;
    AcceptedForm(a);
    AcceptedForm(b);
    var na, nb := Normalize(Parse(a).value), Normalize(Parse(b).value);
    RenderRoundTrip(na);
    RenderRoundTrip(nb);
    NormalIsUnique(na, nb);
    SameThrough(NumberOf(a), NormalValue(na), NumberOf(b), NormalValue(nb));
  }

  lemma {:induction false} SameThrough(a: Decimal, a': Decimal, b: Decimal, b': Decimal)
    requires Same(a, a') && Same(b, b')
    ensures Same(a, b) <==> Same(a', b')
  {
    hide Same;
    SameIsTransitive(a, a', a') by { SameItself(a'); }
    SameIsTransitive(b, b', b') by { SameItself(b'); }
    if Same(a, b) {
      SameIsTransitive(a', a, b);
      SameIsTransitive(a', b, b');
    }
    if Same(a', b') {
      SameIsTransitive(a, a', b');
      SameIsTransitive(a, b', b);
    }
  }

  lemma {:induction false} SameItself(a: Decimal)
    ensures Same(a, a)
  {
  }

  /** Canonical spellings are fixed points, exactly as far as the limits on input reach. */
  lemma {:induction false} CanonicalIsStable(raw: string)
    requires Canonical(raw).Some?
    ensures var out := Canonical(raw).value;
            Parse(out).Some? && Canonical(out) == if WithinLimits(out) then Some(out) else None
  {
    hide Parse, WellFormed, Normalize, ValueOf, NormalValue;
    AcceptedForm(raw);
    var n := Normalize(Parse(raw).value);
    RenderRoundTrip(n);
    RenderNotEmpty(n);
    hide Render;
  }

  lemma {:induction false} RenderNotEmpty(n: Normal)
    requires IsNormal(n)
    ensures Render(n) != []
  {
  }

  lemma {:induction false} ThousandText()
    ensures NatText(1000) == "1000" && IsExponent("1000") && ExponentValue("1000") == 1000
  {
    assert NatText(10) == NatText(1) + "0";
    assert NatText(100) == NatText(10) + "0";
    assert NatText(1000) == NatText(100) + "0";
  }

  lemma {:induction false} TenIsOne()
    ensures TrimLeft("10" + []) == "10" && TrimRight("10") == "1"
  {
    assert "10" + [] == "10";
    assert "10"[..1] == "1";
  }

  lemma {:induction false} TenThousandfold() returns (p: Parts)
    ensures Parse("10e1000") == Some(p) && WellFormed(p) && ExponentOf(p) == 1000
    ensures Normalize(p) == Number(false, "1", 1002)
  {
    p := Parts(false, "10", [], Some(('e', "1000")));
    ThousandText();
    ParseCompose(p);
    assert Compose(p) == "10e1000";
    TenIsOne();
    hide Parse, Compose, TrimLeft, TrimRight, NatText, NatOf, ExponentValue;
  }

  // Trailing zeros before a large exponent push the canonical exponent over the limit.
  lemma {:induction false} CanonicalCanLeaveLimits()
    ensures Canonical("10e1000").Some? && Canonical(Canonical("10e1000").value).None?
  {
    var p := TenThousandfold();
    var n := Number(false, "1", 1002);
    assert IsNormal(n);
    hide Parse, Normalize, Render, WellFormed, ExponentOf, RenderParts;
    CanonicalIsStable("10e1000");
    RenderRoundTrip(n);
    assert ExponentOf(RenderParts(n)) == 1001 by { BigExponent(); }
  }

  lemma {:induction false} BigExponent()
    ensures var n := Number(false, "1", 1002);
            IsNormal(n) && WellFormed(RenderParts(n)) && ExponentOf(RenderParts(n)) == 1001
  {
    hide NatText;
    RenderedIsWellFormed(Number(false, "1", 1002));
    LabelIsExponent(1001);
  }
}
