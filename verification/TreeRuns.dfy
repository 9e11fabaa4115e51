/**
 * What holds over every history of the genealogy: enrolments, purchases and relocations in any
 * order, from any tree whose derived columns are exact.
 */
module TreeRuns {
  import opened Prelude
  import opened TreeModel
  import opened TreeTables
  import opened TreeMove
  import opened TreeGrowth
  import opened TreeRelocation
  import opened TreeStore
  import opened TreePlacement

  // What was asked, and what the service answered.
  datatype Event =
    | Enrolls(id: Id, sponsor: Id, preferred: Option<Side>, attempts: seq<Attempt>,
              placed: Result<Slot, PlacementError>)
    | Buys(buyer: Id, amount: nat)
    | Relocates(req: Request, answer: Result<Plan, RelocationError>)

  ghost predicate Happens(db: Db, e: Event, after: Db) {
    match e
    case Enrolls(n, sponsor, preferred, attempts, placed) =>
      n !in db.rows && Races(db, attempts, n) && PlacementResult(attempts, n, sponsor, preferred, placed, after)
    case Buys(d, amount) => after == if d in db.rows then Credit(db, d, amount) else db
    case Relocates(req, answer) => RelocationResult(db, req, answer, after)
  }

  // Exact columns, no negative purchase total, and no cycle closed yet.
  ghost predicate Healthy(db: Db) { Consistent(db) && InStep(db) && EventsNonNegative(db) }

  ghost predicate IsHistory(run: seq<Db>, events: seq<Event>) {
    && |run| == |events| + 1 && Healthy(run[0])
    && forall i :: 0 <= i < |events| ==> Happens(run[i], events[i], run[i + 1])
  }

  lemma {:induction false} RaceKeepsHealthy(db: Db, attempts: seq<Attempt>, n: Id, k: nat)
    requires Healthy(db) && Races(db, attempts, n) && k < MAX_ATTEMPTS
    ensures Healthy(attempts[k].walked) && Healthy(attempts[k].found)
  {
    hide Consistent, InStep, EventsNonNegative;
    if k > 0 { RaceKeepsHealthy(db, attempts, n, k - 1); }
  }

  lemma {:induction false} InsertKeepsHealthy(db: Db, n: Id, sponsor: Id, slot: Slot)
    requires Healthy(db) && n !in db.rows && slot.parent in db.rows && SlotFree(db.rows, slot)
    ensures Healthy(Insert(db, n, sponsor, slot))
  {
    hide Consistent, SlotFree, InStep, Insert;
    InsertKeepsConsistent(db, n, sponsor, slot);
    InsertKeepsInStep(db, n, sponsor, slot);
    InsertParts(db, n, sponsor, slot);
  }

  lemma {:induction false} EnrolmentKeepsHealthy(
      db: Db, n: Id, sponsor: Id, preferred: Option<Side>, attempts: seq<Attempt>,
      placed: Result<Slot, PlacementError>, after: Db)
    requires Healthy(db) && Races(db, attempts, n)
    requires PlacementResult(attempts, n, sponsor, preferred, placed, after)
    ensures Healthy(after)
  {
    hide Walk, Healthy, SlotFree, Insert, LostBefore, Below;
    match placed
    case Ok(slot) =>
      var k :| 0 <= k < MAX_ATTEMPTS && LostBefore(attempts, k, sponsor, preferred)
               && Won(attempts[k], n, sponsor, preferred, slot, after);
      RaceKeepsHealthy(db, attempts, n, k);
      assert Interferes(attempts[k].walked, attempts[k].found, n);
      hide Races;
      InsertKeepsHealthy(attempts[k].found, n, sponsor, slot);
    case Err(NodeNotFound) => RaceKeepsHealthy(db, attempts, n, 0);
    case Err(RetriesExhausted) => RaceKeepsHealthy(db, attempts, n, MAX_ATTEMPTS - 1);
  }

  lemma {:induction false} PurchaseKeepsHealthy(db: Db, d: Id, amount: nat)
    requires Healthy(db) && d in db.rows
    ensures Healthy(Credit(db, d, amount))
  {
    hide Consistent, InStep;
    CreditKeepsConsistent(db, d, amount);
    CreditKeepsInStep(db, d, amount);
  }

  lemma {:induction false} EventKeepsHealthy(db: Db, e: Event, after: Db)
    requires Healthy(db) && Happens(db, e, after)
    ensures Healthy(after)
  {
    hide PlacementResult, RelocationResult, Credit, Consistent, InStep;
    match e
    case Enrolls(n, sponsor, preferred, attempts, placed) =>
      EnrolmentKeepsHealthy(db, n, sponsor, preferred, attempts, placed, after);
    case Buys(d, amount) => if d in db.rows { PurchaseKeepsHealthy(db, d, amount); }
    case Relocates(req, answer) => RelocationIsSafe(db, req, answer, after);
  }

  /** The derived columns are exact at every moment of every history. */
  lemma {:induction false} HistoryKeepsHealthy(run: seq<Db>, events: seq<Event>, i: nat)
    requires IsHistory(run, events) && i < |run|
    ensures Consistent(run[i]) && Healthy(run[i])
  {
    hide Healthy, Happens, Consistent;
    if i > 0 {
      HistoryKeepsHealthy(run, events, i - 1);
      EventKeepsHealthy(run[i - 1], events[i - 1], run[i]);
    }
    HealthyIsConsistent(run[i]);
  }

  lemma {:induction false} HealthyIsConsistent(db: Db)
    ensures Healthy(db) ==> Consistent(db)
  {
    hide Consistent;
  }

  /**
   * The checks after a move never fail: in every history each relocation is answered by its
   * rules alone, and one that is carried out leaves the target below its new sponsor.
   */
  lemma {:induction false} RelocationsNeverFailChecks(run: seq<Db>, events: seq<Event>, i: nat)
    requires IsHistory(run, events) && i < |events| && events[i].Relocates?
    ensures events[i].answer == Decide(run[i], events[i].req)
    ensures events[i].answer.Ok? && !events[i].req.dryRun ==>
              Below(LinksOf(run[i + 1].rows), events[i].answer.value.sponsor, events[i].answer.value.target)
  {
    hide Decide, Consistent, InStep, EventsNonNegative, RelocationResult, PlacementResult;
    HistoryKeepsHealthy(run, events, i);
    RelocationIsSafe(run[i], events[i].req, events[i].answer, run[i + 1]);
  }

  // The walk's slot was free, or the walk had used up its 512 levels.
  ghost predicate RaceOrDeep(a: Attempt, sponsor: Id, preferred: Option<Side>)
    requires sponsor in a.walked.rows
  {
    var slot := Walk(a.walked.rows, sponsor, preferred, MAX_WALK);
    && slot.parent in a.walked.rows
    && (SlotFree(a.walked.rows, slot)
        || a.walked.rows[slot.parent].depth == a.walked.rows[sponsor].depth + MAX_WALK)
  }

  /**
   * An enrolment below a known sponsor fails exactly if all 16 attempts are lost: each to someone
   * who takes the slot between walk and insert, or to a walk of 512 levels. Otherwise the first
   * attempt that is not lost places it.
   */
  lemma {:induction false} EnrolmentsFindPlace(run: seq<Db>, events: seq<Event>, i: nat) returns (winner: nat)
    requires IsHistory(run, events) && i < |events| && events[i].Enrolls? && events[i].sponsor in run[i].rows
    ensures var e := events[i];
            && |e.attempts| == MAX_ATTEMPTS
            && (e.placed.Err? <==> LostBefore(e.attempts, MAX_ATTEMPTS, e.sponsor, e.preferred))
            && (forall k :: 0 <= k < MAX_ATTEMPTS && Lost(e.attempts[k], e.sponsor, e.preferred) ==>
                  RaceOrDeep(e.attempts[k], e.sponsor, e.preferred))
            && (e.placed.Ok? ==> e.id in run[i + 1].rows && WonBy(e, winner, run[i + 1]))
  {
    var e := events[i];
    winner := 0;
    assert Happens(run[i], e, run[i + 1]);
    hide Healthy, Walk, SlotFree, Happens, IsHistory, Insert, Below, RaceOrDeep, Lost;
    KnownThroughout(run[i], e.attempts, e.id, e.sponsor);
    forall k | 0 <= k < MAX_ATTEMPTS && Lost(e.attempts[k], e.sponsor, e.preferred)
      ensures RaceOrDeep(e.attempts[k], e.sponsor, e.preferred)
    {
      LostIsRaceOrDeep(run[i], e.attempts, e.id, e.sponsor, e.preferred, k);
    }
    if e.placed.Ok? {
      winner :| 0 <= winner < MAX_ATTEMPTS && LostBefore(e.attempts, winner, e.sponsor, e.preferred)
                && Won(e.attempts[winner], e.id, e.sponsor, e.preferred, e.placed.value, run[i + 1]);
      WonIsNotLost(e.attempts[winner], e.id, e.sponsor, e.preferred, e.placed.value, run[i + 1]);
      assert Interferes(e.attempts[winner].walked, e.attempts[winner].found, e.id);
      InsertRow(e.attempts[winner].found, e.id, e.sponsor, e.placed.value, e.id);
    }
  }

  // The attempt that took the slot.
  ghost predicate WonBy(e: Event, k: nat, after: Db)
    requires e.Enrolls? && e.placed.Ok? && |e.attempts| == MAX_ATTEMPTS
  {
    && k < MAX_ATTEMPTS && LostBefore(e.attempts, k, e.sponsor, e.preferred)
    && Won(e.attempts[k], e.id, e.sponsor, e.preferred, e.placed.value, after)
  }

  /**
   * Where it is placed depends on the winning attempt alone: below its sponsor exactly if its
   * slot was not carried off without the sponsor between walk and insert, or was brought back.
   */
  lemma {:induction false} EnrolledBelowIff(
      run: seq<Db>, events: seq<Event>, i: nat, k: nat, between: seq<Db>, changes: seq<Change>)
    requires IsHistory(run, events) && i < |events| && events[i].Enrolls? && events[i].placed.Ok?
    requires |events[i].attempts| == MAX_ATTEMPTS && WonBy(events[i], k, run[i + 1])
    requires IsRun(between, changes)
    requires between[0] == events[i].attempts[k].walked && between[|changes|] == events[i].attempts[k].found
    ensures Below(LinksOf(run[i + 1].rows), events[i].sponsor, events[i].id) <==>
            BroughtBack(between, changes, events[i].sponsor, events[i].placed.value.parent)
  {
    var e := events[i];
    assert Happens(run[i], e, run[i + 1]);
    HistoryKeepsHealthy(run, events, i);
    RaceKeepsHealthy(run[i], e.attempts, e.id, k);
    HealthyIsConsistent(e.attempts[k].walked);
    hide Healthy, Happens, IsHistory, Consistent, Won, IsRun, BroughtBack, Below, LostBefore;
    PlacedBelowIff(e.attempts[k], between, changes, e.id, e.sponsor, e.preferred, e.placed.value, run[i + 1]);
  }

  lemma {:induction false} WonIsNotLost(
      a: Attempt, n: Id, sponsor: Id, preferred: Option<Side>, slot: Slot, after: Db)
    requires Won(a, n, sponsor, preferred, slot, after)
    ensures !Lost(a, sponsor, preferred)
  {
    hide Walk, SlotFree, Insert, Below;
  }

  lemma {:induction false} LostIsRaceOrDeep(
      db: Db, attempts: seq<Attempt>, n: Id, sponsor: Id, preferred: Option<Side>, k: nat)
    requires Races(db, attempts, n) && k < MAX_ATTEMPTS && Lost(attempts[k], sponsor, preferred)
    ensures RaceOrDeep(attempts[k], sponsor, preferred)
  {
    WhyLost(db, attempts, n, sponsor, preferred, k);
    hide Walk, SlotFree, Races;
  }

  lemma {:induction false} KnownThroughout(db: Db, attempts: seq<Attempt>, n: Id, sponsor: Id)
    requires Races(db, attempts, n) && sponsor in db.rows
    ensures forall k :: 0 <= k < MAX_ATTEMPTS ==> sponsor in attempts[k].walked.rows
  {
    hide Consistent, InStep, EventsNonNegative;
    forall k | 0 <= k < MAX_ATTEMPTS ensures sponsor in attempts[k].walked.rows {
      KnownAt(db, attempts, n, sponsor, k);
    }
  }

  lemma {:induction false} KnownAt(db: Db, attempts: seq<Attempt>, n: Id, sponsor: Id, k: nat)
    requires Races(db, attempts, n) && sponsor in db.rows && k < MAX_ATTEMPTS
    ensures sponsor in attempts[k].walked.rows && sponsor in attempts[k].found.rows
  {
    hide Consistent, InStep, EventsNonNegative;
    if k > 0 { KnownAt(db, attempts, n, sponsor, k - 1); }
  }
}
