/**
 * What a canonical number looks like: the notation follows from the size of the number alone,
 * and nothing in the spelling is left to choose.
 */
module CanonicalNotation {
  import opened Prelude
  import opened Digits
  import opened CanonicalNumber

  /* ----- The size of a number ----- */

  function Abs(x: int): nat { if x < 0 then -x else x }

  // Ten to the k or more, apart from its sign.
  predicate AtLeast(d: Decimal, k: int) { Pow10(Max(0, k - d.e)) <= Abs(d.m) * Pow10(Max(0, d.e - k)) }

  lemma {:induction false} AbsTimes(x: int, k: nat)
    ensures Abs(x * k) == Abs(x) * k
  {
    if x < 0 {
      NoSignLoss(-x, k);
      assert x * k == -(-x * k);
    } else {
      NoSignLoss(x, k);
    }
  }

  lemma {:induction false} NoSignLoss(x: nat, k: nat)
    ensures 0 <= x * k
  {
  }

  lemma {:induction false} ScaleOrder(x: nat, y: nat, k: nat)
    requires 0 < k
    ensures x <= y <==> x * k <= y * k
  {
    if x <= y { MulOrder(x, y, k); } else { MulOrder(y + 1, x, k); assert (y + 1) * k == y * k + k; }
  }

  lemma {:induction false} MulOrder(x: nat, y: nat, k: nat)
    requires x <= y
    ensures x * k <= y * k
  {
  }

  lemma {:induction false} Regroup(x: nat, y: nat, z: nat)
    ensures x * (y * z) == x * y * z
  {
  }

  // The size shows at any level below.
  lemma {:induction false} AtLeastAtLevel(d: Decimal, k: int, l: int)
    requires l <= d.e && l <= k
    ensures AtLeast(d, k) <==> Pow10(k - l) <= Abs(AtLevel(d, l))
  {
    AbsTimes(d.m, Pow10(d.e - l));
    if d.e <= k {
      PowSplit(k - d.e, d.e - l);
      assert k - d.e + (d.e - l) == k - l;
      hide Pow10, Abs;
      assert Pow10(0) == 1 by { PowSplit(0, 0); PowZero(); }
      ScaleOrder(Pow10(k - d.e), Abs(d.m) * 1, Pow10(d.e - l));
    } else {
      PowSplit(d.e - k, k - l);
      assert d.e - k + (k - l) == d.e - l;
      hide Pow10, Abs;
      PowZero();
      Regroup(Abs(d.m), Pow10(d.e - k), Pow10(k - l));
      ScaleOrder(1, Abs(d.m) * Pow10(d.e - k), Pow10(k - l));
    }
  }

  lemma {:induction false} PowZero()
    ensures Pow10(0) == 1
  {
  }

  lemma {:induction false} SameSize(a: Decimal, b: Decimal, k: int)
    requires Same(a, b)
    ensures AtLeast(a, k) <==> AtLeast(b, k)
  {
    hide Same, AtLevel, AtLeast, Abs, Pow10;
    var l := Min(k, Min(a.e, b.e));
    SameAtLevel(a, b, l);
    AtLeastAtLevel(a, k, l);
    AtLeastAtLevel(b, k, l);
  }

  lemma {:induction false} PowGrows(i: nat, j: nat)
    requires i <= j
    ensures Pow10(i) <= Pow10(j)
  {
    PowSplit(i, j - i);
    PowSplit(0, i);
    hide Pow10;
    MulOrder(1, Pow10(j - i), Pow10(i));
  }

  lemma {:induction false} DigitsSize(s: string)
    requires AllDigits(s) && s != [] && s[0] != '0'
    ensures Pow10(|s| - 1) <= NatOf(s) < Pow10(|s|)
  {
    if |s| > 1 { DigitsSize(s[..|s| - 1]); } else { assert s[..0] == []; }
  }

  // 0.digits times ten to the point lies just below ten to the point.
  lemma {:induction false} NormalSize(n: Normal, k: int)
    requires IsNormal(n) && n.Number?
    ensures AtLeast(NormalValue(n), k) <==> k < n.point
  {
    var d := NormalValue(n);
    DigitsSize(n.digits);
    assert Abs(d.m) == NatOf(n.digits);
    PowZero();
    hide Pow10, NatOf, AllDigits, Abs;
    if d.e <= k {
      if k < n.point { PowGrows(k - d.e, |n.digits| - 1); } else { PowGrows(|n.digits|, k - d.e); }
    } else {
      PowSplit(0, |n.digits| - 1);
      PowSplit(0, d.e - k);
      ScaleOrder(1, NatOf(n.digits), Pow10(d.e - k));
    }
  }

  /* ----- The spelling ----- */

  // No superfluous zero, sign or digit: in scientific notation a small e, a signed exponent
  // without leading zeros, and one digit before the point; fractions never end in a zero.
  ghost predicate Plain(p: Parts) {
    && (p.fraction == [] || p.fraction[|p.fraction| - 1] != '0')
    && (p.exponent.Some? ==>
          && p.exponent.value.0 == 'e' && |p.exponent.value.1| >= 2 && p.exponent.value.1[0] in {'+', '-'}
          && p.exponent.value.1[1] != '0' && |p.whole| == 1 && p.whole[0] != '0')
  }

  lemma {:induction false} NatTextLeads(n: nat)
    requires 0 < n
    ensures NatText(n)[0] != '0'
  {
    if n < 10 { assert DigitChar(n) != '0'; } else { NatTextLeads(n / 10); }
  }

  lemma {:induction false} LabelIsPlain(e: int)
    requires e != 0
    ensures var x := ExponentLabel(e); |x| >= 2 && x[0] in {'+', '-'} && x[1] != '0'
  {
    NatTextLeads(if e < 0 then -e else e);
    hide NatText;
  }

  lemma {:induction false} RenderedIsPlain(n: Normal)
    requires IsNormal(n)
    ensures Plain(RenderParts(n))
    ensures n.Zero? ==> Render(n) == "0"
    ensures n.Number? ==>
              && (RenderParts(n).exponent.Some? <==> !(-6 < n.point <= 21)) && RenderParts(n).negative == n.negative
  {
    hide ExponentLabel, Zeros, AllDigits, Render;
    if n.Zero? {
      ZeroText();
    } else if !(-6 < n.point <= 21) {
      LabelIsPlain(n.point - 1);
    } else if n.point <= 0 {
      var fraction := Zeros(-n.point) + n.digits;
      assert fraction[|fraction| - 1] == n.digits[|n.digits| - 1];
    }
  }

  lemma {:induction false} ZeroText()
    ensures Render(Zero) == "0"
  {
  }

  lemma {:induction false} SignOf(a: Decimal, b: Decimal)
    requires Same(a, b)
    ensures (a.m < 0 <==> b.m < 0) && (a.m == 0 <==> b.m == 0)
  {
    var l := Min(a.e, b.e);
    PowSplit(0, a.e - l);
    PowSplit(0, b.e - l);
    hide Pow10;
    SignTimes(a.m, Pow10(a.e - l));
    SignTimes(b.m, Pow10(b.e - l));
  }

  lemma {:induction false} SignTimes(x: int, k: nat)
    requires 0 < k
    ensures (x * k < 0 <==> x < 0) && (x * k == 0 <==> x == 0)
  {
    Positive(x, k);
    Positive(-x, k);
    assert -x * k == -(x * k);
  }

  /**
   * The canonical spelling of a number: zero is "0" whatever its sign; from 10^-6 on and below
   * 10^21 a number is written in plain notation and otherwise in scientific, negative exactly
   * if it is below zero, and without a superfluous character.
   */
  lemma {:induction false} NotationFollowsSize(raw: string)
    requires Canonical(raw).Some?
    ensures Parse(raw).Some? && Parse(Canonical(raw).value).Some?
    ensures var d, out := NumberOf(raw), Canonical(raw).value;
            var p := Parse(out).value;
            && Plain(p)
            && (d.m == 0 ==> out == "0")
            && (d.m != 0 ==>
                  && (p.negative <==> d.m < 0)
                  && (p.exponent.None? <==> AtLeast(d, -6) && !AtLeast(d, 21)))
  {
    hide Parse, WellFormed, Normalize, Render, Same, Canonical, NumberOf, RenderParts, AtLeast, Plain, Compose;
    AcceptedForm(raw);
    var n := Normalize(Parse(raw).value);
    RenderRoundTrip(n);
    RenderedIsPlain(n);
    var d, v := NumberOf(raw), NormalValue(n);
    SignOf(d, v);
    if n.Number? {
      NatPositive(n.digits);
      hide NatOf, AllDigits;
      SameSize(d, v, -6);
      SameSize(d, v, 21);
      NormalSize(n, -6);
      NormalSize(n, 21);
    }
  }

  // The number grammar: digits without a leading zero, then perhaps a point and digits, then
  // perhaps an exponent with at least one digit, signed or not.
  lemma {:induction false} GrammarIs(p: Parts)
    ensures WellFormed(p) <==>
              && |p.whole| >= 1 && (forall i :: 0 <= i < |p.whole| ==> '0' <= p.whole[i] <= '9')
              && (|p.whole| > 1 ==> p.whole[0] != '0')
              && (forall i :: 0 <= i < |p.fraction| ==> '0' <= p.fraction[i] <= '9')
              && (p.exponent.Some? ==>
                    var (marker, x) := p.exponent.value;
                    var digits := if x != [] && x[0] in {'+', '-'} then x[1..] else x;
                    && marker in {'e', 'E'} && |digits| >= 1
                    && forall i :: 0 <= i < |digits| ==> '0' <= digits[i] <= '9')
    ensures WellFormed(p) && p.exponent.Some? ==>
              var x := p.exponent.value.1;
              ExponentOf(p) == if x[0] == '-' then -(NatOf(x[1..]) as int)
                               else if x[0] == '+' then NatOf(x[1..]) else NatOf(x)
  {
  }

  // Digits count by their place.
  lemma {:induction false} PlaceValue(s: string, d: nat)
    requires AllDigits(s) && d < 10
    ensures AllDigits(s + ["0123456789"[d]]) && NatOf([]) == 0
    ensures NatOf(s + ["0123456789"[d]]) == 10 * NatOf(s) + d
  {
    var c := "0123456789"[d];
    assert (s + [c])[..|s|] == s;
  }

  /** Accepted are the spellings of at most 512 characters with an exponent from -1000 to 1000. */
  lemma {:induction false} AcceptedIff(p: Parts)
    requires WellFormed(p)
    ensures Canonical(Compose(p)).Some? <==> |Compose(p)| <= 512 && -1000 <= ExponentOf(p) <= 1000
  {
    ParseCompose(p);
    hide Parse, Render, Normalize;
    assert |Compose(p)| > 0;
    hide Compose, WellFormed, ExponentOf;
  }
}
