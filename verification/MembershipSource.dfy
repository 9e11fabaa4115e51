/** Reviewed membership facts: exact costs per payment method, in ten-thousandths of a dollar. */
module MembershipSource {
  import opened Prelude
  import opened Digits
  import opened FifoSlices
  import opened FifoAllocation

  type Int64 = x: int | -MAX_INT64 - 1 <= x <= MAX_INT64

  datatype SourceInput = SourceInput(
    id: string, kind: string, currency: string, grossUsd: string, feeUsd: string, netUsd: string,
    pv: Int64, effectiveAt: int)

  datatype SourceError = InvalidSource | SourceCost

  function FirstDot(s: string): (i: nat)
    ensures i <= |s| && (i < |s| ==> s[i] == '.')
    ensures forall k :: 0 <= k < i ==> s[k] != '.'
  {
    if s == [] || s[0] == '.' then 0 else 1 + FirstDot(s[1..])
  }

  // Plain decimals only: no sign, no leading zero, no exponent, at most `places` decimals.
  function Money(value: string, places: nat): Option<nat>
    requires places <= 4
  {
    var dot := FirstDot(value);
    var whole := value[..dot];
    if |value| > 30 || whole == "" || !AllDigits(whole) || (whole[0] == '0' && |whole| > 1) then None
    else if dot == |value| then Some(10_000 * NatOf(whole))
    else
      var decimals := value[dot + 1..];
      if decimals == "" || !AllDigits(decimals) || |decimals| > places then None
      else Some(10_000 * NatOf(whole) + NatOf(decimals) * Pow10(4 - |decimals|))
  }

  predicate IsLowerHex(c: char) { IsDigit(c) || 'a' <= c <= 'f' }

  // A lower-case version 4 identifier.
  predicate CanonicalId(id: string) {
    && |id| == 36
    && (forall i :: 0 <= i < 36 ==> if i in {8, 13, 18, 23} then id[i] == '-' else IsLowerHex(id[i]))
    && id[14] == '4' && id[19] in "89ab"
  }

  function KindOf(name: string): Option<Kind> {
    if name == "nowpayments" then Some(NOWPayments) else if name == "manual" then Some(Manual) else None
  }

  const HUNDRED_USD: int := 1_000_000

  function NewSource(input: SourceInput): Result<Source, SourceError> {
    if !CanonicalId(input.id) || input.currency != "usd" || input.pv <= 0 || !ValidTime(input.effectiveAt)
       || KindOf(input.kind).None? then Err(InvalidSource)
    else
      var kind := KindOf(input.kind).value;
      var gross, fee, net := Money(input.grossUsd, 2), Money(input.feeUsd, 4), Money(input.netUsd, 4);
      if gross.None? || gross.value == 0 || fee.None? || net.None? || net.value == 0 then Err(InvalidSource)
      else if kind == Manual && (gross.value != HUNDRED_USD || input.pv != 100) then Err(InvalidSource)
      else if fee.value * 10_000 != gross.value * FeeBps(kind) || net.value != gross.value - fee.value
      then Err(SourceCost)
      else Ok(RawSource(input.id, kind, gross.value, fee.value, net.value, input.pv,
                        input.effectiveAt, 10_000 - FeeBps(kind), true))
  }

  /**
   * An accepted source's net amount is exactly its gross amount times its commission factor,
   * and the only manual source ever accepted is the USD 100 / 100 PV one with a USD 97 net.
   */
  lemma {:induction false} AcceptedSourceIsExact(input: SourceInput)
    requires NewSource(input).Ok?
    ensures var s := NewSource(input).value;
            && s.valid && 0 < s.pv
            && s.net * 10_000 == s.gross * s.factorBps
            && s.fee + s.net == s.gross
            && (s.kind == Manual ==> s.gross == 1_000_000 && s.net == 970_000 && s.pv == 100)
  {
  }

  // The text of an amount: whole dollars, and up to four decimals behind a point.
  function MoneyText(whole: string, decimals: string): string {
    if decimals == [] then whole else whole + (['.'] + decimals)
  }

  predicate MoneyParts(whole: string, decimals: string, places: nat) {
    && whole != [] && AllDigits(whole) && (whole[0] == '0' ==> |whole| == 1)
    && AllDigits(decimals) && |decimals| <= places && |MoneyText(whole, decimals)| <= 30
  }

  lemma {:induction false} FirstDotIs(digits: string, rest: string)
    requires AllDigits(digits) && (rest != [] ==> rest[0] == '.')
    ensures FirstDot(digits + rest) == |digits|
  {
    if digits == [] {
      assert digits + rest == rest;
    } else {
      assert (digits + rest)[1..] == digits[1..] + rest;
      FirstDotIs(digits[1..], rest);
    }
  }

  /** A well-formed amount reads as its dollars and decimals, in ten-thousandths of a dollar. */
  lemma {:induction false} MoneyReads(whole: string, decimals: string, places: nat)
    requires places <= 4 && MoneyParts(whole, decimals, places)
    ensures Money(MoneyText(whole, decimals), places) ==
            Some(10_000 * NatOf(whole) + NatOf(decimals) * (match |decimals|
              case 0 => 10_000 case 1 => 1000 case 2 => 100 case 3 => 10 case _ => 1))
  {
    var text := MoneyText(whole, decimals);
    var dot := FirstDot(text);
    FirstDotIs(whole, if decimals == [] then [] else ['.'] + decimals);
    assert whole + [] == whole;
    assert text[..dot] == whole && (decimals != [] ==> text[dot + 1..] == decimals);
    assert Pow10(0) == 1 && Pow10(1) == 10 && Pow10(2) == 100 && Pow10(3) == 1000;
    hide Pow10, NatOf, FirstDot;
  }

  /** And nothing else reads as an amount. */
  lemma {:induction false} MoneyIsText(value: string, places: nat) returns (whole: string, decimals: string)
    requires places <= 4 && Money(value, places).Some?
    ensures value == MoneyText(whole, decimals) && MoneyParts(whole, decimals, places)
  {
    var dot := FirstDot(value);
    whole, decimals := value[..dot], if dot == |value| then [] else value[dot + 1..];
    if dot < |value| {
      assert value == whole + (['.'] + decimals);
    } else {
      assert value == whole;
    }
  }

  // The gross amount is in whole cents, so printing it with two decimals loses nothing.
  lemma {:induction false} GrossIsWholeCents(value: string)
    requires Money(value, 2).Some?
    ensures Money(value, 2).value % 100 == 0
  {
    hide Money, NatOf, MoneyText, AllDigits;
    var whole, decimals := MoneyIsText(value, 2);
    MoneyReads(whole, decimals, 2);
    Hundreds(NatOf(whole), NatOf(decimals), |decimals|);
  }

  lemma {:induction false} Hundreds(whole: nat, decimals: nat, places: nat)
    requires places <= 2
    ensures (10_000 * whole + decimals * (match places case 0 => 10_000 case 1 => 1000 case _ => 100)) % 100 == 0
  {
    if places == 0 {
      assert 10_000 * whole + decimals * 10_000 == 100 * (100 * whole + 100 * decimals);
    } else if places == 1 {
      assert 10_000 * whole + decimals * 1000 == 100 * (100 * whole + 10 * decimals);
    } else {
      assert 10_000 * whole + decimals * 100 == 100 * (100 * whole + decimals);
    }
  }

  /** An identifier is five groups of lower-case hexadecimal digits with version and variant. */
  lemma {:induction false} IdReads(a: string, b: string, c: string, d: string, e: string)
    requires |a| == 8 && |b| == 4 && |c| == 4 && |d| == 4 && |e| == 12
    ensures CanonicalId(a + ("-" + (b + ("-" + (c + ("-" + (d + ("-" + e)))))))) <==>
              && (forall i :: 0 <= i < 8 ==> a[i] in HEX) && (forall i :: 0 <= i < 4 ==> b[i] in HEX)
              && (forall i :: 0 <= i < 4 ==> c[i] in HEX) && (forall i :: 0 <= i < 4 ==> d[i] in HEX)
              && (forall i :: 0 <= i < 12 ==> e[i] in HEX)
              && c[0] == '4' && d[0] in {'8', '9', 'a', 'b'}
  {
    var id := a + ("-" + (b + ("-" + (c + ("-" + (d + ("-" + e)))))));
    assert forall i :: 0 <= i < 8 ==> id[i] == a[i];
    assert forall i :: 0 <= i < 4 ==> id[9 + i] == b[i];
    assert forall i :: 0 <= i < 4 ==> id[14 + i] == c[i];
    assert forall i :: 0 <= i < 4 ==> id[19 + i] == d[i];
    assert forall i :: 0 <= i < 12 ==> id[24 + i] == e[i];
    assert forall x: char :: IsLowerHex(x) <==> x in HEX;
  }

  const HEX: string := "0123456789abcdef"

  /**
   * A source is accepted exactly for a known payment method in dollars, a positive PV, a
   * reviewable instant and amounts that add up to the method's exact cost: one per cent through
   * the provider, and USD 3.00 of the one USD 100 / 100 PV membership taken by hand.
   */
  lemma {:induction false} SourceIff(input: SourceInput)
    ensures var gross, fee, net := Money(input.grossUsd, 2), Money(input.feeUsd, 4), Money(input.netUsd, 4);
            var stated := && CanonicalId(input.id) && input.currency == "usd" && 0 < input.pv
                          && 0 < input.effectiveAt < 3_651_694 * 86_400_000_000_000
                          && gross.Some? && fee.Some? && net.Some? && 0 < gross.value && 0 < net.value
                          && (input.kind == "nowpayments"
                              || (input.kind == "manual" && gross.value == 1_000_000 && input.pv == 100));
            var exact := stated && gross.value == fee.value + net.value
                         && if input.kind == "manual" then fee.value == 30_000 else 100 * fee.value == gross.value;
            && (NewSource(input).Ok? <==> exact)
            && (NewSource(input) == Err(SourceCost) <==> stated && !exact)
            && (exact ==>
                  var s := NewSource(input).value;
                  && s.id == input.id && s.kind == (if input.kind == "manual" then Manual else NOWPayments)
                  && s.gross == gross.value && s.fee == fee.value && s.net == net.value && s.pv == input.pv
                  && s.effectiveAt == input.effectiveAt && s.valid
                  && s.factorBps == if input.kind == "manual" then 9700 else 9900)
  {
    hide CanonicalId, Money;
  }
}
