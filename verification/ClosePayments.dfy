/**
 * Paying a weekly close: every amount is throttled by one theta, rounded down to cents, split
 * between wallet and retirement plan, and booked against blocks, packages and instalments.
 */
module ClosePayments {
  import opened Prelude
  import opened PackageCap
  import opened Theta
  import opened CloseCandidates

  datatype Kind = BinaryBonus | Yield | PointsBonus | RankBonus | Referral | RoyaltyBonus | DailyReturn

  // External references: kind, period or instrument, and what within it.
  datatype PayRef = PayRef(kind: Kind, period: int, subject: int, detail: int)

  datatype Credit = Credit(ref: PayRef, affiliate: int, usd: int, retirement: int)

  datatype Instalment = Instalment(affiliate: int, rank: int, number: int, amount: int, due: int, paid: Option<int>)

  datatype State = State(
    caps: map<int, Cap>, blocks: map<int, int>, points: map<int, int>,
    instalments: seq<Instalment>, achieved: map<(int, int), int>, credits: seq<Credit>)

  // Blocked beneficiaries are paid to someone else; members choose a share for retirement.
  datatype Routing = Routing(route: map<int, int>, share: map<(int, Kind), int>)

  datatype Close = Close(plan: Plan, period: int, theta: int, routing: Routing)

  datatype Item =
    | BinaryItem(c: Candidate)
    | StreamItem(kind: Kind, affiliate: int, exact: int, key: int)
    | PointsItem(affiliate: int, exact: int, pkg: int)
    | RankItem(index: nat, affiliate: int, amount: int)

  function Gross(i: Item): int {
    match i
    case BinaryItem(c) => c.gross
    case StreamItem(_, _, exact, _) => exact
    case PointsItem(_, exact, _) => exact
    case RankItem(_, _, amount) => amount * CENT
  }

  function RefOf(k: Close, i: Item): PayRef {
    match i
    case BinaryItem(c) => PayRef(BinaryBonus, k.period, c.affiliate, c.event)
    case StreamItem(kind, _, _, key) => PayRef(kind, k.period, key, 0)
    case PointsItem(affiliate, _, _) => PayRef(PointsBonus, k.period, affiliate, 0)
    case RankItem(index, _, _) => PayRef(RankBonus, k.period, index, 0)
  }

  /* ----- Amounts ----- */

  // The throttled amount in whole cents.
  function NetOf(gross: int, theta: int): int { gross * theta / (ONE * CENT) }

  function Reduced(p: Plan, c: Candidate, net: int): int {
    if !c.isFresh && p.pause == Reduce then net * p.reduction / 10_000 else net
  }

  function Room(s: State, pkg: int): int { if pkg in s.caps then s.caps[pkg].total - s.caps[pkg].paid else 0 }

  // What an item pays, in cents; nothing if it is not positive.
  function Pays(s: State, k: Close, i: Item): int {
    match i
    case BinaryItem(c) =>
      if AlreadyCredited(s, RefOf(k, i)) then 0 else Max(0, Reduced(k.plan, c, NetOf(c.gross, k.theta)))
    case PointsItem(_, exact, pkg) => Max(0, Min(NetOf(exact, k.theta), Room(s, pkg)))
    case _ => Max(0, NetOf(Gross(i), k.theta))
  }

  // Retirement gets its share rounded down, the wallet the exact rest.
  function RouteSplit(net: int, share: int): (int, int) {
    if share <= 0 then (0, net)
    else
      var retirement := Min(net * share / 10_000, net);
      (retirement, net - retirement)
  }

  lemma {:induction false} SplitIsExact(net: int, share: int)
    requires 0 <= net
    ensures var (retirement, usd) := RouteSplit(net, share);
            && retirement + usd == net && 0 <= retirement <= net && 0 <= usd <= net
            && (share <= 0 ==> retirement == 0) && (10_000 <= share ==> usd == 0)
            && (0 < share <= 10_000 ==> retirement * 10_000 <= net * share < (retirement + 1) * 10_000)
  {
    if 0 < share {
      MulMonotone(0, share, net);
      if share <= 10_000 { MulMonotone(share, 10_000, net); } else { MulMonotone(10_000, share, net); }
    }
  }

  predicate AlreadyCredited(s: State, ref: PayRef) {
    exists j :: 0 <= j < |s.credits| && s.credits[j].ref == ref && 0 < s.credits[j].usd
  }

  function Beneficiary(route: map<int, int>, affiliate: int): int {
    if affiliate in route then route[affiliate] else affiliate
  }

  function KindOf(i: Item): Kind { if i.BinaryItem? then BinaryBonus else if i.StreamItem? then i.kind
                                   else if i.PointsItem? then PointsBonus else RankBonus }

  function Recipient(i: Item): int { if i.BinaryItem? then i.c.affiliate else i.affiliate }

  function CreditOf(k: Close, i: Item, net: int): Credit {
    var who := Beneficiary(k.routing.route, Recipient(i));
    var share := if (who, KindOf(i)) in k.routing.share then k.routing.share[(who, KindOf(i))] else 0;
    Credit(RefOf(k, i), who, RouteSplit(net, share).1, RouteSplit(net, share).0)
  }

  function Charge(caps: map<int, Cap>, pkg: int, net: int): map<int, Cap> {
    if pkg in caps then caps[pkg := caps[pkg].(paid := caps[pkg].paid + net)] else caps
  }

  // Booking one item; an instalment is settled at its period's theta, even at zero.
  function Book(s: State, k: Close, i: Item): State {
    var net := Pays(s, k, i);
    var credits := if 0 < net && !AlreadyCredited(s, RefOf(k, i)) then s.credits + [CreditOf(k, i, net)] else s.credits;
    match i
    case BinaryItem(c) =>
      if net == 0 then s
      else s.(credits := credits, caps := Charge(s.caps, c.pkg, net),
              blocks := s.blocks[c.affiliate := BlocksPaid(s.blocks, c.affiliate) + c.blocks])
    case StreamItem(_, _, _, _) => s.(credits := credits)
    case PointsItem(affiliate, _, pkg) =>
      if net == 0 then s
      else s.(credits := credits, caps := Charge(s.caps, pkg, net), points := s.points[affiliate := 0])
    case RankItem(index, _, _) =>
      if index < |s.instalments|
      then s.(credits := credits, instalments := s.instalments[index := s.instalments[index].(paid := Some(net))])
      else s.(credits := credits)
  }

  function BookAll(s: State, k: Close, items: seq<Item>): State
    decreases |items|
  {
    if items == [] then s else BookAll(Book(s, k, items[0]), k, items[1..])
  }

  function TotalPays(s: State, k: Close, items: seq<Item>): int
    decreases |items|
  {
    if items == [] then 0 else Pays(s, k, items[0]) + TotalPays(Book(s, k, items[0]), k, items[1..])
  }

  function Grosses(items: seq<Item>): seq<int> {
    if items == [] then [] else [Gross(items[0])] + Grosses(items[1..])
  }

  /* ----- Staying within the treasury ----- */

  lemma {:induction false} NetBounds(gross: int, theta: int)
    requires 0 <= gross && 0 <= theta
    ensures 0 <= NetOf(gross, theta) && NetOf(gross, theta) * CENT <= Throttled(gross, theta)
  {
    MulMonotone(0, theta, gross);
    DivTwice(gross * theta);
  }

  lemma {:induction false} DivTwice(x: int)
    requires 0 <= x
    ensures 0 <= x / (ONE * CENT) && x / (ONE * CENT) * CENT <= x / ONE
  {
  }

  lemma {:induction false} ReducedBounds(p: Plan, c: Candidate, net: int)
    requires ValidPlan(p) && 0 <= net
    ensures 0 <= Reduced(p, c, net) <= net
  {
    MulMonotone(0, p.reduction, net);
    MulMonotone(p.reduction, 10_000, net);
  }

  lemma {:induction false} PaysBounds(s: State, k: Close, i: Item)
    requires ValidPlan(k.plan) && 0 <= Gross(i) && 0 <= k.theta <= ONE
    ensures 0 <= Pays(s, k, i) <= NetOf(Gross(i), k.theta)
    ensures Pays(s, k, i) * CENT <= Throttled(Gross(i), k.theta)
  {
    NetBounds(Gross(i), k.theta);
    if i.BinaryItem? { ReducedBounds(k.plan, i.c, NetOf(i.c.gross, k.theta)); }
    hide NetOf, Throttled, Reduced;
  }

  ghost predicate NonNegativeItems(items: seq<Item>) { forall n :: 0 <= n < |items| ==> 0 <= Gross(items[n]) }

  lemma {:induction false} TotalFitsThrottled(s: State, k: Close, items: seq<Item>)
    requires ValidPlan(k.plan) && NonNegativeItems(items) && 0 <= k.theta <= ONE
    ensures 0 <= TotalPays(s, k, items) && TotalPays(s, k, items) * CENT <= SumThrottled(Grosses(items), k.theta)
    decreases |items|
  {
    hide Pays, Book, Throttled, Gross;
    if items != [] {
      assert 0 <= Gross(items[0]);
      PaysBounds(s, k, items[0]);
      assert NonNegativeItems(items[1..]);
      TotalFitsThrottled(Book(s, k, items[0]), k, items[1..]);
    }
  }

  lemma {:induction false} GrossesAre(items: seq<Item>)
    requires NonNegativeItems(items)
    ensures |Grosses(items)| == |items| && forall n :: 0 <= n < |items| ==> 0 <= Grosses(items)[n]
  {
    hide Gross;
    if items != [] {
      assert NonNegativeItems(items[1..]);
      assert 0 <= Gross(items[0]);
      GrossesAre(items[1..]);
    }
  }

  /**
   * The close pays at most alpha times the inflows: theta is computed from the sum of all
   * items, and rounding, reduction and caps only lower what each of them gets.
   */
  lemma {:induction false} CloseWithinTreasury(s: State, k: Close, items: seq<Item>, inflows: int)
    requires ValidPlan(k.plan) && NonNegativeItems(items) && 0 <= inflows
    requires k.theta == ComputeTheta(k.plan.alpha * inflows, Sum(Grosses(items)))
    ensures 0 <= TotalPays(s, k, items) && TotalPays(s, k, items) * CENT <= k.plan.alpha * inflows
  {
    var funds := k.plan.alpha * inflows;
    assert 0 <= funds by { MulMonotone(0, k.plan.alpha, inflows); }
    GrossesAre(items);
    ThrottledFits(Grosses(items), funds);
    assert 0 <= k.theta <= ONE by { ThetaWithin(funds, Sum(Grosses(items))); }
    hide ComputeTheta, Pays, Book, NonNegativeItems;
    TotalFitsThrottled(s, k, items);
  }

  lemma {:induction false} ThetaWithin(funds: int, projected: int)
    requires 0 <= funds
    ensures 0 <= ComputeTheta(funds, projected) <= ONE
  {
    if 0 < projected { ThetaIsLargest(funds, projected); }
  }

  /* ----- Credits add up ----- */

  function CreditTotal(credits: seq<Credit>): int {
    if credits == [] then 0
    else CreditTotal(credits[..|credits| - 1]) + credits[|credits| - 1].usd + credits[|credits| - 1].retirement
  }

  ghost predicate NewRefs(s: State, k: Close, items: seq<Item>) {
    && (forall n :: 0 <= n < |items| ==> !AlreadyCredited(s, RefOf(k, items[n])))
    && (forall n, m :: 0 <= n < m < |items| ==> RefOf(k, items[n]) != RefOf(k, items[m]))
  }

  lemma {:induction false} BookCredits(s: State, k: Close, i: Item)
    requires !AlreadyCredited(s, RefOf(k, i)) && 0 <= Pays(s, k, i)
    ensures CreditTotal(Book(s, k, i).credits) == CreditTotal(s.credits) + Pays(s, k, i)
    ensures Book(s, k, i).credits ==
            if 0 < Pays(s, k, i) then s.credits + [CreditOf(k, i, Pays(s, k, i))] else s.credits
  {
    hide Pays, RefOf, AlreadyCredited, CreditOf, Charge, BlocksPaid;
    var net := Pays(s, k, i);
    var c := CreditOf(k, i, net);
    assert (s.credits + [c])[..|s.credits|] == s.credits;
    CreditIsNet(k, i, net);
  }

  lemma {:induction false} CreditIsNet(k: Close, i: Item, net: int)
    requires 0 <= net
    ensures CreditOf(k, i, net).usd + CreditOf(k, i, net).retirement == net
  {
    var who := Beneficiary(k.routing.route, Recipient(i));
    SplitIsExact(net, if (who, KindOf(i)) in k.routing.share then k.routing.share[(who, KindOf(i))] else 0);
    hide RouteSplit;
  }

  // What a payment of some cents writes: to whom the item belongs, or whoever stands in for that
  // affiliate, with the share that one set aside for this kind of pay rounded down to retirement.
  ghost predicate Writes(c: Credit, k: Close, i: Item, net: int) {
    var affiliate := if i.BinaryItem? then i.c.affiliate else i.affiliate;
    var kind := if i.BinaryItem? then BinaryBonus else if i.PointsItem? then PointsBonus
                else if i.RankItem? then RankBonus else i.kind;
    var who := if affiliate in k.routing.route then k.routing.route[affiliate] else affiliate;
    var share := if (who, kind) in k.routing.share then k.routing.share[(who, kind)] else 0;
    && c.affiliate == who && c.ref.kind == kind && c.ref.period == k.period
    && (i.BinaryItem? ==> c.ref.subject == i.c.affiliate && c.ref.detail == i.c.event)
    && (i.StreamItem? ==> c.ref.subject == i.key)
    && (i.PointsItem? ==> c.ref.subject == i.affiliate)
    && (i.RankItem? ==> c.ref.subject == i.index)
    && c.usd + c.retirement == net && 0 <= c.usd && 0 <= c.retirement
    && (share <= 0 ==> c.retirement == 0)
    && (0 < share <= 10_000 ==> c.retirement * 10_000 <= net * share < (c.retirement + 1) * 10_000)
    && (10_000 <= share ==> c.usd == 0)
  }

  /**
   * An item that pays something writes one credit, unless its reference was credited to a wallet
   * before, and one that pays nothing writes none.
   */
  lemma {:induction false} BookWrites(s: State, k: Close, i: Item)
    ensures var net, after := Pays(s, k, i), Book(s, k, i);
            && 0 <= net
            && (if 0 < net
                   && !(exists j :: 0 <= j < |s.credits| && s.credits[j].ref == RefOf(k, i) && 0 < s.credits[j].usd)
                then
                  && |after.credits| == |s.credits| + 1 && after.credits[..|s.credits|] == s.credits
                  && after.credits[|s.credits|].ref == RefOf(k, i) && Writes(after.credits[|s.credits|], k, i, net)
                else after.credits == s.credits)
  {
    CreditIs(k, i, Pays(s, k, i));
    hide CreditOf, Writes, NetOf, Reduced, RefOf, Charge, BlocksPaid;
  }

  lemma {:induction false} CreditIs(k: Close, i: Item, net: int)
    ensures 0 <= net ==> CreditOf(k, i, net).ref == RefOf(k, i) && Writes(CreditOf(k, i, net), k, i, net)
  {
    if 0 <= net {
      var who := Beneficiary(k.routing.route, Recipient(i));
      SplitIsExact(net, if (who, KindOf(i)) in k.routing.share then k.routing.share[(who, KindOf(i))] else 0);
      hide RouteSplit;
    }
  }

  /**
   * What an item pays: its amount at theta in whole cents. A binary item credited before pays
   * nothing, and one of an affiliate that is not fresh the reduced part where a plan reduces;
   * points pay no more than the package still has.
   */
  lemma {:induction false} PaysAtTheta(s: State, k: Close, i: Item)
    requires ValidPlan(k.plan) && 0 <= Gross(i) && 0 <= k.theta <= ONE
    ensures var net := Pays(s, k, i);
            match i
            case StreamItem(_, _, exact, _) => net == exact * k.theta / 1_000_000_000_000
            case RankItem(_, _, amount) => net * 1_000_000 <= amount * k.theta < (net + 1) * 1_000_000
            case PointsItem(_, exact, pkg) =>
              && net <= exact * k.theta / 1_000_000_000_000
              && net <= (if pkg in s.caps && s.caps[pkg].paid < s.caps[pkg].total
                         then s.caps[pkg].total - s.caps[pkg].paid else 0)
              && (net == exact * k.theta / 1_000_000_000_000
                  || net == 0 || (pkg in s.caps && net == s.caps[pkg].total - s.caps[pkg].paid))
              && (net == 0 && 0 < exact * k.theta / 1_000_000_000_000 ==>
                    pkg !in s.caps || s.caps[pkg].total <= s.caps[pkg].paid)
            case BinaryItem(c) =>
              if exists j :: 0 <= j < |s.credits| && s.credits[j].ref == RefOf(k, i) && 0 < s.credits[j].usd
              then net == 0
              else
                var full := c.gross * k.theta / 1_000_000_000_000;
                if c.isFresh || k.plan.pause == Skip then net == full
                else net * 10_000 <= full * k.plan.reduction < (net + 1) * 10_000
  {
    NetBounds(Gross(i), k.theta);
    if i.BinaryItem? { ReducedBounds(k.plan, i.c, NetOf(i.c.gross, k.theta)); }
    if i.RankItem? { WholeCents(i.amount * k.theta); assert Gross(i) * k.theta == i.amount * k.theta * CENT; }
    hide RefOf, Throttled;
  }

  lemma {:induction false} WholeCents(x: int)
    ensures x * CENT / (ONE * CENT) == x / ONE
  {
    var q := x * CENT / (ONE * CENT);
    assert q * ONE * CENT <= x * CENT < (q + 1) * ONE * CENT;
  }

  /**
   * Booking moves what it pays: a binary or points item is charged to its package, a binary item
   * adds its blocks to those paid, points are used up, and an instalment is settled with what it
   * got, even if that is nothing.
   */
  lemma {:induction false} BookMoves(s: State, k: Close, i: Item)
    ensures var net, after := Pays(s, k, i), Book(s, k, i);
            var pkg := if i.BinaryItem? then i.c.pkg else if i.PointsItem? then i.pkg else 0;
            && after.achieved == s.achieved
            && after.caps == (if (i.BinaryItem? || i.PointsItem?) && 0 < net && pkg in s.caps
                              then s.caps[pkg := Cap(s.caps[pkg].total, s.caps[pkg].paid + net)] else s.caps)
            && after.blocks == (if i.BinaryItem? && 0 < net
                                then s.blocks[i.c.affiliate :=
                                       (if i.c.affiliate in s.blocks then s.blocks[i.c.affiliate] else 0) + i.c.blocks]
                                else s.blocks)
            && after.points == (if i.PointsItem? && 0 < net then s.points[i.affiliate := 0] else s.points)
            && after.instalments == (if i.RankItem? && i.index < |s.instalments|
                                     then s.instalments[i.index := s.instalments[i.index].(paid := Some(net))]
                                     else s.instalments)
  {
    hide NetOf, Reduced, RefOf, AlreadyCredited, CreditOf;
  }

  lemma {:induction false} StillNew(s: State, k: Close, items: seq<Item>)
    requires items != [] && NewRefs(s, k, items) && 0 <= Pays(s, k, items[0])
    ensures NewRefs(Book(s, k, items[0]), k, items[1..])
  {
    BookCredits(s, k, items[0]);
    hide Pays, Book;
    var s' := Book(s, k, items[0]);
    forall n | 0 <= n < |items| - 1 ensures !AlreadyCredited(s', RefOf(k, items[1..][n])) {
      assert items[1..][n] == items[n + 1];
      OtherRef(s, s', k, items[0], items[n + 1]);
    }
    hide AlreadyCredited, RefOf;
    forall n, m | 0 <= n < m < |items| - 1 ensures RefOf(k, items[1..][n]) != RefOf(k, items[1..][m]) {
      assert RefOf(k, items[n + 1]) != RefOf(k, items[m + 1]);
    }
  }

  lemma {:induction false} OtherRef(s: State, s': State, k: Close, i: Item, other: Item)
    requires !AlreadyCredited(s, RefOf(k, other)) && RefOf(k, i) != RefOf(k, other)
    requires s'.credits == s.credits || exists net :: s'.credits == s.credits + [CreditOf(k, i, net)]
    ensures !AlreadyCredited(s', RefOf(k, other))
  {
  }

  /** On a first close the wallet and retirement credits add up to what the close reports as paid. */
  lemma {:induction false} CreditsAddUp(s: State, k: Close, items: seq<Item>)
    requires ValidPlan(k.plan) && NonNegativeItems(items) && 0 <= k.theta <= ONE && NewRefs(s, k, items)
    ensures CreditTotal(BookAll(s, k, items).credits) == CreditTotal(s.credits) + TotalPays(s, k, items)
    decreases |items|
  {
    if items != [] {
      assert 0 <= Gross(items[0]) && !AlreadyCredited(s, RefOf(k, items[0]));
      PaysBounds(s, k, items[0]);
      BookCredits(s, k, items[0]);
      StillNew(s, k, items);
      assert NonNegativeItems(items[1..]);
      hide Pays, Book, NewRefs, NonNegativeItems, CreditTotal, AlreadyCredited;
      CreditsAddUp(Book(s, k, items[0]), k, items[1..]);
    }
  }

  /* ----- Packages and blocks ----- */

  ghost predicate CapsSound(caps: map<int, Cap>) {
    forall pkg :: pkg in caps ==> 0 <= caps[pkg].paid <= caps[pkg].total
  }

  function Peak(peak: map<int, int>, id: int): int { if id in peak then peak[id] else 0 }

  ghost predicate BlocksWithin(blocks: map<int, int>, peak: map<int, int>) {
    forall id :: id in blocks ==> blocks[id] <= Peak(peak, id)
  }

  // Binary items come first, one per affiliate and package, each within its package and its
  // affiliate's matched blocks.
  ghost predicate BinariesFit(s: State, items: seq<Item>, peak: map<int, int>) {
    && (forall n, m :: 0 <= n < m < |items| && items[m].BinaryItem? ==>
          items[n].BinaryItem? && items[n].c.pkg != items[m].c.pkg && items[n].c.affiliate != items[m].c.affiliate)
    && (forall n :: 0 <= n < |items| && items[n].BinaryItem? ==> BinaryFits(s, items[n].c, peak))
  }

  ghost predicate BinaryFits(s: State, c: Candidate, peak: map<int, int>) {
    && c.gross <= PackageRoom(s.caps, c.pkg) * CENT
    && BlocksPaid(s.blocks, c.affiliate) + c.blocks <= Peak(peak, c.affiliate)
  }

  lemma {:induction false} NetFitsRoom(gross: int, theta: int, room: int)
    requires 0 <= gross <= room * CENT && 0 <= theta <= ONE
    ensures 0 <= NetOf(gross, theta) <= room
  {
    NetBounds(gross, theta);
    ThrottledBounds(gross, theta);
    hide NetOf, Throttled;
  }

  /** No item lifts a package above its cap or an affiliate above its matched blocks. */
  lemma {:induction false} BookKeepsLimits(s: State, k: Close, i: Item, peak: map<int, int>)
    requires ValidPlan(k.plan) && 0 <= Gross(i) && 0 <= k.theta <= ONE
    requires CapsSound(s.caps) && BlocksWithin(s.blocks, peak) && (i.BinaryItem? ==> BinaryFits(s, i.c, peak))
    ensures CapsSound(Book(s, k, i).caps) && BlocksWithin(Book(s, k, i).blocks, peak)
  {
    PaysBounds(s, k, i);
    if i.BinaryItem? { NetFitsRoom(i.c.gross, k.theta, PackageRoom(s.caps, i.c.pkg)); }
    hide NetOf, Throttled, Reduced, AlreadyCredited, CreditOf, RefOf;
  }

  lemma {:induction false} BookLeavesOthers(s: State, k: Close, i: Item, c: Candidate, peak: map<int, int>)
    requires BinaryFits(s, c, peak) && i.BinaryItem? && i.c.pkg != c.pkg && i.c.affiliate != c.affiliate
    ensures BinaryFits(Book(s, k, i), c, peak)
  {
    hide Pays, AlreadyCredited, CreditOf, RefOf;
  }

  lemma {:induction false} RestFits(s: State, k: Close, items: seq<Item>, peak: map<int, int>)
    requires items != [] && BinariesFit(s, items, peak)
    ensures BinariesFit(Book(s, k, items[0]), items[1..], peak)
  {
    hide BinaryFits, Book;
    forall n | 0 <= n < |items| - 1 && items[1..][n].BinaryItem?
      ensures BinaryFits(Book(s, k, items[0]), items[1..][n].c, peak)
    {
      assert items[1..][n] == items[n + 1];
      BookLeavesOthers(s, k, items[0], items[n + 1].c, peak);
    }
  }

  lemma {:induction false} CloseKeepsLimits(s: State, k: Close, items: seq<Item>, peak: map<int, int>)
    requires ValidPlan(k.plan) && NonNegativeItems(items) && 0 <= k.theta <= ONE
    requires CapsSound(s.caps) && BlocksWithin(s.blocks, peak) && BinariesFit(s, items, peak)
    ensures var after := BookAll(s, k, items); CapsSound(after.caps) && BlocksWithin(after.blocks, peak)
    decreases |items|
  {
    hide Book, CapsSound, BlocksWithin, BinaryFits, Gross;
    if items != [] {
      assert 0 <= Gross(items[0]) && NonNegativeItems(items[1..]);
      BookKeepsLimits(s, k, items[0], peak);
      RestFits(s, k, items, peak);
      CloseKeepsLimits(Book(s, k, items[0]), k, items[1..], peak);
    }
  }

  /* ----- Instalments ----- */

  ghost predicate InstalmentsSound(instalments: seq<Instalment>) {
    forall n :: 0 <= n < |instalments| ==>
      0 < instalments[n].amount
      && (instalments[n].paid.Some? ==> 0 <= instalments[n].paid.value <= instalments[n].amount)
  }

  // The listed instalments are open, and nothing but payment changes.
  ghost predicate RanksOpen(s: State, items: seq<Item>) {
    && (forall n :: 0 <= n < |items| && items[n].RankItem? ==> RankOpen(s, items[n]))
    && (forall n, m :: 0 <= n < m < |items| && items[n].RankItem? && items[m].RankItem? ==>
       items[n].index != items[m].index)
  }

  ghost predicate RankOpen(s: State, i: Item)
    requires i.RankItem?
  {
    && i.index < |s.instalments| && s.instalments[i.index].paid.None?
    && i.amount == s.instalments[i.index].amount && i.affiliate == s.instalments[i.index].affiliate
  }

  // Later instalments are what they were but for payment, and a settled one never changes.
  ghost predicate OnlySettled(before: seq<Instalment>, after: seq<Instalment>) {
    && |before| == |after|
    && forall n :: 0 <= n < |before| ==>
         && after[n] == before[n].(paid := after[n].paid)
         && (before[n].paid.Some? ==> after[n] == before[n])
  }

  lemma {:induction false} BookSettles(s: State, k: Close, i: Item)
    requires ValidPlan(k.plan) && 0 <= Gross(i) && 0 <= k.theta <= ONE
    requires InstalmentsSound(s.instalments) && (i.RankItem? ==> RankOpen(s, i))
    ensures var after := Book(s, k, i);
            && InstalmentsSound(after.instalments) && OnlySettled(s.instalments, after.instalments)
            && (forall n :: 0 <= n < |s.instalments| && (i.RankItem? ==> n != i.index) ==>
                  after.instalments[n] == s.instalments[n])
            && (i.RankItem? ==> after.instalments[i.index].paid.Some?)
  {
    PaysBounds(s, k, i);
    if i.RankItem? { NetFitsRoom(i.amount * CENT, k.theta, i.amount); }
    hide NetOf, Throttled, Reduced, AlreadyCredited, CreditOf, RefOf, Charge;
  }

  lemma {:induction false} RanksStayOpen(s: State, k: Close, items: seq<Item>)
    requires ValidPlan(k.plan) && NonNegativeItems(items) && 0 <= k.theta <= ONE && InstalmentsSound(s.instalments)
    requires items != [] && RanksOpen(s, items)
    ensures RanksOpen(Book(s, k, items[0]), items[1..])
  {
    assert 0 <= Gross(items[0]);
    BookSettles(s, k, items[0]);
    hide Book, Gross, InstalmentsSound, NonNegativeItems;
    var s' := Book(s, k, items[0]);
    forall n | 0 <= n < |items| - 1 && items[1..][n].RankItem? ensures RankOpen(s', items[1..][n]) {
      assert items[1..][n] == items[n + 1] && RankOpen(s, items[n + 1]);
    }
  }

  lemma {:induction false} SettledTwice(a: seq<Instalment>, b: seq<Instalment>, c: seq<Instalment>)
    requires OnlySettled(a, b) && OnlySettled(b, c)
    ensures OnlySettled(a, c)
  {
  }

  /**
   * A close settles each listed instalment, at most its amount, and leaves settled ones alone;
   * so over all closes every instalment is settled at most once.
   */
  lemma {:induction false} CloseSettles(s: State, k: Close, items: seq<Item>)
    requires ValidPlan(k.plan) && NonNegativeItems(items) && 0 <= k.theta <= ONE
    requires InstalmentsSound(s.instalments) && RanksOpen(s, items)
    ensures var after := BookAll(s, k, items);
            && InstalmentsSound(after.instalments) && OnlySettled(s.instalments, after.instalments)
            && (forall n :: 0 <= n < |items| && items[n].RankItem? ==>
                  items[n].index < |after.instalments| && after.instalments[items[n].index].paid.Some?)
    decreases |items|
  {
    hide Book, InstalmentsSound, Gross;
    if items != [] {
      assert 0 <= Gross(items[0]) && NonNegativeItems(items[1..]);
      BookSettles(s, k, items[0]);
      RanksStayOpen(s, k, items);
      var next := Book(s, k, items[0]);
      CloseSettles(next, k, items[1..]);
      SettledTwice(s.instalments, next.instalments, BookAll(next, k, items[1..]).instalments);
      forall n | 0 <= n < |items| && items[n].RankItem?
        ensures items[n].index < |s.instalments| && BookAll(next, k, items[1..]).instalments[items[n].index].paid.Some?
      {
        if n > 0 { assert items[1..][n - 1] == items[n]; }
      }
    }
  }
}
