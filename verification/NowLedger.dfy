/**
 * The scoped compensation ledger: obligations, the payments that settle them, and the
 * package caps that return payments and binary payments share. Amounts are cents.
 */
module NowLedger {
  import opened Prelude
  import opened PackageCap

  datatype Kind = Roi | Binary | Direct | Royalty

  // Referrals and royalties never consume the package cap.
  predicate UsesCap(kind: Kind) { kind == Roi || kind == Binary }

  // External references, unique over all obligations.
  datatype Ref =
    | RoiRef(cd: int, day: int)
    | SaleRef(kind: Kind, period: int, sale: int)
    | BinaryRef(period: int, affiliate: int)

  datatype Obligation = Obligation(
    ref: Ref, kind: Kind, pkg: int, entitlement: int, excluded: int, paid: int)

  datatype Payment = Payment(obligation: nat, kind: Kind, pkg: int, amount: int, posted: int)

  datatype Ledger = Ledger(obligations: seq<Obligation>, payments: seq<Payment>, caps: map<int, Cap>)

  /* ----- Totals over payments ----- */

  datatype Selection =
    | OfObligation(id: nat) | OfPackage(pkg: int) | RoiBefore(time: int) | OthersBefore(time: int)

  predicate Picks(s: Selection, p: Payment) {
    match s
    case OfObligation(id) => p.obligation == id
    case OfPackage(pkg) => UsesCap(p.kind) && p.pkg == pkg
    case RoiBefore(time) => p.kind == Roi && p.posted < time
    case OthersBefore(time) => p.kind != Roi && p.posted < time
  }

  function TotalOf(s: Selection, payments: seq<Payment>): int {
    if payments == [] then 0
    else
      var p := payments[|payments| - 1];
      TotalOf(s, payments[..|payments| - 1]) + if Picks(s, p) then p.amount else 0
  }

  lemma {:induction false} TotalAppend(s: Selection, payments: seq<Payment>, p: Payment)
    ensures TotalOf(s, payments + [p]) == TotalOf(s, payments) + if Picks(s, p) then p.amount else 0
  {
    assert (payments + [p])[..|payments|] == payments;
  }

  lemma {:induction false} NothingPicked(s: Selection, payments: seq<Payment>)
    requires forall i :: 0 <= i < |payments| ==> !Picks(s, payments[i])
    ensures TotalOf(s, payments) == 0
  {
    if payments != [] { NothingPicked(s, payments[..|payments| - 1]); }
  }

  /* ----- What always holds ----- */

  ghost predicate ObligationSound(l: Ledger, id: nat)
    requires id < |l.obligations|
  {
    var o := l.obligations[id];
    && 0 <= o.paid && 0 <= o.excluded && o.paid + o.excluded <= o.entitlement
    && o.paid == TotalOf(OfObligation(id), l.payments)
    && o.pkg in l.caps
  }

  ghost predicate PaymentSound(l: Ledger, p: Payment) {
    && p.obligation < |l.obligations| && 0 < p.amount
    && p.kind == l.obligations[p.obligation].kind && p.pkg == l.obligations[p.obligation].pkg
  }

  ghost predicate CapSound(l: Ledger, pkg: int)
    requires pkg in l.caps
  {
    l.caps[pkg].paid == TotalOf(OfPackage(pkg), l.payments) && 0 <= l.caps[pkg].paid <= l.caps[pkg].total
  }

  ghost predicate Sound(l: Ledger) {
    && (forall id: nat :: id < |l.obligations| ==> ObligationSound(l, id))
    && (forall i :: 0 <= i < |l.payments| ==> PaymentSound(l, l.payments[i]))
    && (forall pkg :: pkg in l.caps ==> CapSound(l, pkg))
    && (forall i, j :: 0 <= i < j < |l.obligations| ==> l.obligations[i].ref != l.obligations[j].ref)
  }

  // A return obligation is settled the moment it is created.
  ghost predicate RoiSettled(l: Ledger) {
    forall i :: 0 <= i < |l.obligations| && l.obligations[i].kind == Roi ==>
      l.obligations[i].paid + l.obligations[i].excluded == l.obligations[i].entitlement
  }

  /* ----- Creating and posting ----- */

  predicate HasRef(l: Ledger, ref: Ref) { exists i :: 0 <= i < |l.obligations| && l.obligations[i].ref == ref }

  function Open(ref: Ref, kind: Kind, pkg: int, entitlement: int, excluded: int): Obligation {
    Obligation(ref, kind, pkg, entitlement, excluded, 0)
  }

  // A reference that exists already creates nothing.
  function Create(l: Ledger, o: Obligation): Ledger {
    if HasRef(l, o.ref) then l else l.(obligations := l.obligations + [o])
  }

  function Remaining(l: Ledger, pkg: int): int
    requires pkg in l.caps
  {
    l.caps[pkg].total - l.caps[pkg].paid
  }

  function Outstanding(l: Ledger, id: nat): int
    requires id < |l.obligations|
  {
    l.obligations[id].entitlement - l.obligations[id].paid - l.obligations[id].excluded
  }

  // The part of an amount that a package can still take.
  function Clip(l: Ledger, id: nat, amount: int): int
    requires id < |l.obligations| && l.obligations[id].pkg in l.caps
  {
    if UsesCap(l.obligations[id].kind) then Min(amount, Remaining(l, l.obligations[id].pkg)) else amount
  }

  function Post(l: Ledger, id: nat, requested: int, posted: int): Ledger
    requires id < |l.obligations| && l.obligations[id].pkg in l.caps
  {
    if requested <= 0 || Clip(l, id, requested) <= 0 then l
    else
      var amount := Clip(l, id, requested);
      var o := l.obligations[id];
      Ledger(l.obligations[id := o.(paid := o.paid + amount)],
             l.payments + [Payment(id, o.kind, o.pkg, amount, posted)],
             if UsesCap(o.kind) then l.caps[o.pkg := l.caps[o.pkg].(paid := l.caps[o.pkg].paid + amount)] else l.caps)
  }

  function Exclude(l: Ledger, id: nat, amount: int): Ledger
    requires id < |l.obligations|
  {
    l.(obligations := l.obligations[id := l.obligations[id].(excluded := l.obligations[id].excluded + amount)])
  }

  lemma {:induction false} CreateKeepsSound(l: Ledger, o: Obligation)
    requires Sound(l) && o.pkg in l.caps && 0 <= o.excluded <= o.entitlement && o.paid == 0
    ensures Sound(Create(l, o))
  {
    hide TotalOf;
    var l' := Create(l, o);
    if !HasRef(l, o.ref) {
      forall i | 0 <= i < |l.payments| ensures !Picks(OfObligation(|l.obligations|), l.payments[i]) {
        assert PaymentSound(l, l.payments[i]);
      }
      NothingPicked(OfObligation(|l.obligations|), l.payments);
      forall id: nat | id < |l'.obligations| ensures ObligationSound(l', id) {
        if id < |l.obligations| { assert ObligationSound(l, id); }
      }
      forall i | 0 <= i < |l'.payments| ensures PaymentSound(l', l'.payments[i]) {
        assert PaymentSound(l, l.payments[i]);
      }
      forall pkg | pkg in l'.caps ensures CapSound(l', pkg) {
        assert CapSound(l, pkg);
      }
    }
  }

  lemma {:induction false} PostObligation(l: Ledger, id: nat, requested: int, posted: int, i: nat)
    requires Sound(l) && id < |l.obligations| && l.obligations[id].pkg in l.caps && requested <= Outstanding(l, id)
    requires i < |l.obligations|
    ensures var l' := Post(l, id, requested, posted); i < |l'.obligations| && ObligationSound(l', i)
  {
    assert ObligationSound(l, i) && ObligationSound(l, id);
    if 0 < requested && 0 < Clip(l, id, requested) {
      var o := l.obligations[id];
      TotalAppend(OfObligation(i), l.payments, Payment(id, o.kind, o.pkg, Clip(l, id, requested), posted));
    }
    hide TotalOf, Sound;
  }

  lemma {:induction false} PostCap(l: Ledger, id: nat, requested: int, posted: int, pkg: int)
    requires Sound(l) && id < |l.obligations| && l.obligations[id].pkg in l.caps && pkg in l.caps
    ensures var l' := Post(l, id, requested, posted); l'.caps.Keys == l.caps.Keys && CapSound(l', pkg)
  {
    assert CapSound(l, pkg) && CapSound(l, l.obligations[id].pkg);
    if 0 < requested && 0 < Clip(l, id, requested) {
      var o := l.obligations[id];
      TotalAppend(OfPackage(pkg), l.payments, Payment(id, o.kind, o.pkg, Clip(l, id, requested), posted));
    }
    hide TotalOf, Sound;
  }

  lemma {:induction false} PostPayments(l: Ledger, id: nat, requested: int, posted: int, i: nat)
    requires Sound(l) && id < |l.obligations| && l.obligations[id].pkg in l.caps
    requires i < |Post(l, id, requested, posted).payments|
    ensures var l' := Post(l, id, requested, posted); PaymentSound(l', l'.payments[i])
  {
    if i < |l.payments| { assert PaymentSound(l, l.payments[i]); }
    hide TotalOf, Sound;
  }

  lemma {:induction false} PostRefs(l: Ledger, id: nat, requested: int, posted: int, i: nat)
    requires id < |l.obligations| && l.obligations[id].pkg in l.caps && i < |l.obligations|
    ensures var l' := Post(l, id, requested, posted);
            && |l'.obligations| == |l.obligations|
            && l'.obligations[i] == l.obligations[i].(paid := l'.obligations[i].paid)
            && (i != id ==> l'.obligations[i] == l.obligations[i])
  {
  }

  /**
   * Posting up to what is outstanding keeps every balance: obligations never overpaid, caps
   * never exceeded, both equal to the sums of their payments.
   */
  lemma {:induction false} PostKeepsSound(l: Ledger, id: nat, requested: int, posted: int)
    requires Sound(l) && id < |l.obligations| && l.obligations[id].pkg in l.caps && requested <= Outstanding(l, id)
    ensures Sound(Post(l, id, requested, posted))
  {
    hide Post, ObligationSound, CapSound, PaymentSound;
    var l' := Post(l, id, requested, posted);
    PostRefs(l, id, requested, posted, id);
    forall i: nat | i < |l'.obligations| ensures ObligationSound(l', i) {
      PostObligation(l, id, requested, posted, i);
    }
    PostCap(l, id, requested, posted, l.obligations[id].pkg);
    forall pkg | pkg in l'.caps ensures CapSound(l', pkg) {
      PostCap(l, id, requested, posted, pkg);
    }
    forall i | 0 <= i < |l'.payments| ensures PaymentSound(l', l'.payments[i]) {
      PostPayments(l, id, requested, posted, i);
    }
    forall i, j | 0 <= i < j < |l'.obligations| ensures l'.obligations[i].ref != l'.obligations[j].ref {
      PostRefs(l, id, requested, posted, i);
      PostRefs(l, id, requested, posted, j);
    }
  }

  lemma {:induction false} ExcludeKeepsSound(l: Ledger, id: nat, amount: int)
    requires Sound(l) && id < |l.obligations| && 0 <= amount <= Outstanding(l, id)
    ensures Sound(Exclude(l, id, amount))
  {
    hide TotalOf;
    var l' := Exclude(l, id, amount);
    forall i: nat | i < |l'.obligations| ensures ObligationSound(l', i) {
      assert ObligationSound(l, i);
    }
    forall i | 0 <= i < |l'.payments| ensures PaymentSound(l', l'.payments[i]) {
      assert PaymentSound(l, l.payments[i]);
    }
    forall pkg | pkg in l'.caps ensures CapSound(l', pkg) {
      assert CapSound(l, pkg);
    }
  }

  // A package with a cap of its own joins the ledger.
  lemma {:induction false} NewCapKeepsSound(l: Ledger, pkg: int, total: int)
    requires Sound(l) && pkg !in l.caps && 0 <= total
    ensures Sound(l.(caps := l.caps[pkg := Cap(total, 0)]))
  {
    hide TotalOf;
    var l' := l.(caps := l.caps[pkg := Cap(total, 0)]);
    forall i | 0 <= i < |l.payments| ensures !Picks(OfPackage(pkg), l.payments[i]) && PaymentSound(l', l'.payments[i]) {
      assert PaymentSound(l, l.payments[i]);
      assert ObligationSound(l, l.payments[i].obligation);
    }
    NothingPicked(OfPackage(pkg), l.payments);
    forall i: nat | i < |l'.obligations| ensures ObligationSound(l', i) {
      assert ObligationSound(l, i);
    }
    forall q | q in l'.caps ensures CapSound(l', q) {
      if q != pkg { assert CapSound(l, q); }
    }
  }
}
