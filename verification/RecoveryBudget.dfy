/**
 * The sliding 24-hour recovery quota: one row per recipient and purpose, changed only by
 * insert-if-absent and compare-and-swap, by any number of callers with clocks of their own.
 */
module RecoveryBudget {
  import opened Prelude

  const WINDOW := 86_400_000
  const MAX_SAFE := 9_007_199_254_740_991

  datatype Kind = RequestKind | ValidationKind

  // Everything below holds for any positive quota.
  type Quota = n: int | 0 < n witness 5

  function Limit(kind: Kind): Quota { if kind == RequestKind then 5 else 10 }

  // The stored value is the event list; only the last 24 hours of it count.
  datatype Row = Row(events: seq<int>, expiresAt: int)

  predicate Sorted(s: seq<int>) { forall i, j :: 0 <= i < j < |s| ==> s[i] <= s[j] }

  predicate GoodTime(t: int) { 0 <= t <= MAX_SAFE - WINDOW }

  function Last(s: seq<int>): int
    requires s != []
  {
    s[|s| - 1]
  }

  // What reading the row insists on.
  predicate Readable(row: Row, limit: Quota) {
    && 0 < |row.events| <= limit
    && (forall i :: 0 <= i < |row.events| ==> GoodTime(row.events[i]))
    && Sorted(row.events)
    && row.expiresAt == Last(row.events) + WINDOW
  }

  function ActiveEvents(events: seq<int>, now: int): seq<int> {
    if events == [] then []
    else if events[0] > now - WINDOW then [events[0]] + ActiveEvents(events[1..], now)
    else ActiveEvents(events[1..], now)
  }

  // In a sorted list the active events are a suffix.
  lemma {:induction false} ActiveIsSuffix(events: seq<int>, now: int) returns (k: nat)
    requires Sorted(events)
    ensures k <= |events| && ActiveEvents(events, now) == events[k..]
    ensures forall i :: 0 <= i < k ==> events[i] <= now - WINDOW
    ensures forall i :: k <= i < |events| ==> now - WINDOW < events[i]
  {
    if events == [] {
      k := 0;
    } else {
      var k' := ActiveIsSuffix(events[1..], now);
      if events[0] > now - WINDOW {
        k := 0;
        assert forall i :: 0 < i < |events| ==> events[i] == events[1..][i - 1];
        assert events[1..] != [] ==> now - WINDOW < events[1..][0];
        assert [events[0]] + events[1..] == events;
      } else {
        k := k' + 1;
        forall i | 0 <= i < k ensures events[i] <= now - WINDOW {
          if i > 0 { assert events[i] == events[1..][i - 1]; }
        }
        forall i | k <= i < |events| ensures now - WINDOW < events[i] {
          assert events[i] == events[1..][i - 1];
        }
      }
    }
  }

  /* ----- One attempt ----- */

  datatype Outcome = Recorded(at: int) | TooMany(retryAfter: int) | BadClock | Unreadable | Exhausted

  // Whole seconds, rounded up, at least one.
  function RetryAfter(first: int, now: int): int {
    Max(1, (first + WINDOW - now + 999) / 1000)
  }

  function EventsOf(row: Option<Row>): seq<int> { if row.Some? then row.value.events else [] }

  function Attempt(row: Option<Row>, now: int, limit: Quota): Result<Row, Outcome> {
    if row.Some? && !Readable(row.value, limit) then Err(Unreadable)
    else if !GoodTime(now) then Err(BadClock)
    else
      var active := ActiveEvents(EventsOf(row), now);
      if |active| >= limit then
        Err(TooMany(RetryAfter(active[0], now)))
      else
        var at := if active == [] then now else Max(now, Last(active));
        Ok(Row(active + [at], at + WINDOW))
  }

  // A stored row is one to `limit` instants in the safe range, sorted, that expire 24 hours
  // after the newest.
  lemma {:induction false} ReadableIs(row: Row, limit: Quota)
    ensures Readable(row, limit) <==>
              && 1 <= |row.events| <= limit && row.expiresAt == row.events[|row.events| - 1] + 86_400_000
              && (forall i :: 0 <= i < |row.events| ==>
                    0 <= row.events[i] <= 9_007_199_254_740_991 - 86_400_000)
              && (forall i, j :: 0 <= i < j < |row.events| ==> row.events[i] <= row.events[j])
  {
  }

  /**
   * One attempt: a row that cannot be read and a clock outside the safe range are refused. Of a
   * readable row only the events of the last 24 hours count: with `limit` of them the attempt is
   * turned away, and otherwise it is added behind them, no earlier than the newest.
   */
  lemma {:induction false} AttemptIs(row: Option<Row>, now: int, limit: Quota) returns (k: nat)
    ensures var events := if row.Some? then row.value.events else [];
            if row.Some? && !Readable(row.value, limit) then Attempt(row, now, limit) == Err(Unreadable)
            else if !(0 <= now <= 9_007_199_254_740_991 - 86_400_000) then Attempt(row, now, limit) == Err(BadClock)
            else
              && k <= |events|
              && (forall i :: 0 <= i < k ==> events[i] <= now - 86_400_000)
              && (forall i :: k <= i < |events| ==> now - 86_400_000 < events[i])
              && var at := if k < |events| && now < events[|events| - 1] then events[|events| - 1] else now;
                 if |events| - k >= limit
                 then Attempt(row, now, limit).Err? && Attempt(row, now, limit).error.TooMany?
                 else Attempt(row, now, limit) == Ok(Row(events[k..] + [at], at + 86_400_000))
  {
    hide ActiveEvents, Readable, Sorted;
    k := 0;
    if (row.None? || Readable(row.value, limit)) && GoodTime(now) {
      var events := EventsOf(row);
      assert Sorted(events) by { EventsSorted(row, limit); }
      k := ActiveIsSuffix(events, now);
      var active := ActiveEvents(events, now);
      assert |active| == |events| - k && (active != [] ==> Last(active) == events[|events| - 1]);
      if |active| < limit { AddedBehind(active, now); }
    }
  }

  lemma {:induction false} EventsSorted(row: Option<Row>, limit: Quota)
    requires row.None? || Readable(row.value, limit)
    ensures Sorted(EventsOf(row))
  {
  }

  lemma {:induction false} AddedBehind(active: seq<int>, now: int)
    ensures var at := if active == [] then now else Max(now, Last(active));
            at == if active != [] && now < active[|active| - 1] then active[|active| - 1] else now
  {
  }

  // Between the database calls of one caller.
  datatype Caller =
    | Reading(step: nat)
    | Writing(step: nat, snapshot: Option<Row>, now: int, next: Row)
    | Done(outcome: Outcome)

  function OnRead(step: nat, row: Option<Row>, now: int, limit: Quota): Caller {
    match Attempt(row, now, limit)
    case Ok(next) => Writing(step, row, now, next)
    case Err(outcome) => Done(outcome)
  }

  // The insert and the swap both take effect exactly when the row is still the one read.
  function OnWrite(c: Caller, row: Option<Row>, limit: Quota): Caller
    requires c.Writing? && c.next.events != []
  {
    if row == c.snapshot then Done(Recorded(Last(c.next.events)))
    else if c.step + 1 < limit + 3 then Reading(c.step + 1)
    else Done(Exhausted)
  }

  lemma {:induction false} AppendNewest(events: seq<int>, k: nat, at: int)
    requires Sorted(events) && k <= |events| && GoodTime(at) && (k < |events| ==> Last(events) <= at)
    requires forall i :: 0 <= i < |events| ==> GoodTime(events[i])
    ensures Sorted(events[k..] + [at])
    ensures forall i :: 0 <= i <= |events| - k ==> GoodTime((events[k..] + [at])[i])
  {
    var next := events[k..] + [at];
    forall i, j | 0 <= i < j < |next| ensures next[i] <= next[j] {
      assert next[i] == events[k + i];
      if j < |events| - k { assert next[j] == events[k + j]; }
    }
  }

  lemma {:induction false} AttemptIsReadable(row: Option<Row>, now: int, limit: Quota)
    requires Attempt(row, now, limit).Ok?
    ensures Readable(Attempt(row, now, limit).value, limit)
    ensures now <= Last(Attempt(row, now, limit).value.events)
  {
    var events := EventsOf(row);
    assert Sorted(events) && forall i :: 0 <= i < |events| ==> GoodTime(events[i]);
    var next := Attempt(row, now, limit).value;
    var k := ActiveIsSuffix(events, now);
    assert k < |events| ==> Last(events[k..]) == Last(events);
    hide Sorted, ActiveEvents;
    AppendNewest(events, k, Last(next.events));
  }

  /* ----- All callers ----- */

  // start and startCleanups: when the session first read. readAt and readCleanups: when it
  // last read. calm: at each of its readings, all events recorded since it began were still
  // inside the 24 hours before that reading and before the newest event.
  datatype Session = Session(
    caller: Caller, started: bool, start: nat, startCleanups: nat, readAt: nat, readCleanups: nat, calm: bool)

  // history is every event ever recorded, floor when the row removed last would have expired.
  datatype System = System(
    row: Option<Row>, history: seq<int>, cleanups: nat, floor: int, sessions: map<int, Session>)

  const INITIAL := System(None, [], 0, 0, map[])

  ghost predicate Enter(s: System, s': System, id: int) {
    && id !in s.sessions
    && s' == s.(sessions := s.sessions[id := Session(Reading(0), false, 0, 0, 0, 0, true)])
  }

  predicate StillInside(s: System, start: nat, now: int) {
    start < |s.history| ==> Max(now, Last(s.history)) - WINDOW < s.history[start]
  }

  // Every event recorded since is within 24 hours of the reading and of the newest event.
  lemma {:induction false} StillInsideIs(s: System, start: nat, now: int)
    requires Sorted(s.history)
    ensures StillInside(s, start, now) <==>
            forall i :: start <= i < |s.history| ==>
              now - 86_400_000 < s.history[i] && s.history[|s.history| - 1] - 86_400_000 < s.history[i]
  {
  }

  ghost predicate Read(s: System, s': System, id: int, now: int, limit: Quota) {
    && id in s.sessions && s.sessions[id].caller.Reading?
    && var c := s.sessions[id];
       var start := if c.started then c.start else |s.history|;
       var startCleanups := if c.started then c.startCleanups else s.cleanups;
       s' == s.(sessions := s.sessions[id :=
         Session(OnRead(c.caller.step, s.row, now, limit), true, start, startCleanups,
                 |s.history|, s.cleanups, c.calm && StillInside(s, start, now))])
  }

  ghost predicate Write(s: System, s': System, id: int, limit: Quota) {
    && id in s.sessions && s.sessions[id].caller.Writing? && s.sessions[id].caller.next.events != []
    && var c := s.sessions[id].caller;
       var sessions := s.sessions[id := s.sessions[id].(caller := OnWrite(c, s.row, limit))];
       if s.row == c.snapshot
       then s' == s.(row := Some(c.next), history := s.history + [Last(c.next.events)], sessions := sessions)
       else s' == s.(sessions := sessions)
  }

  // Expired rows may be removed at any time.
  ghost predicate Cleanup(s: System, s': System, clock: int) {
    && s.row.Some? && s.row.value.expiresAt <= clock
    && s' == s.(row := None, cleanups := s.cleanups + 1, floor := s.row.value.expiresAt)
  }

  datatype Step = Enters(id: int) | Reads(id: int, now: int) | Writes(id: int) | Cleans(clock: int)

  ghost predicate Next(s: System, step: Step, s': System, limit: Quota) {
    match step
    case Enters(id) => Enter(s, s', id)
    case Reads(id, now) => Read(s, s', id, now, limit)
    case Writes(id) => Write(s, s', id, limit)
    case Cleans(clock) => Cleanup(s, s', clock)
  }

  ghost predicate IsRun(run: seq<System>, steps: seq<Step>, limit: Quota) {
    && |run| == |steps| + 1 && run[0] == INITIAL
    && forall i :: 0 <= i < |steps| ==> Next(run[i], steps[i], run[i + 1], limit)
  }

  // A removed row has expired by the clocks of all inserts still under way, and by the clocks
  // of those who find the table empty later.
  ghost predicate Punctual(s: System, step: Step) {
    match step
    case Reads(_, now) => s.row.None? && GoodTime(now) ==> s.floor <= now
    case Cleans(_) =>
      forall id :: id in s.sessions && s.row.Some? && s.sessions[id].caller.Writing?
                   && s.sessions[id].caller.snapshot.None? ==>
        s.row.value.expiresAt <= s.sessions[id].caller.now
    case _ => true
  }

  ghost predicate OnTimeBetween(run: seq<System>, steps: seq<Step>, from: nat, n: nat)
    requires n <= |steps| && n <= |run|
  {
    forall i :: from <= i < n ==> Punctual(run[i], steps[i])
  }

  ghost predicate OnTime(run: seq<System>, steps: seq<Step>, n: nat)
    requires n <= |steps| && n <= |run|
  {
    OnTimeBetween(run, steps, 0, n)
  }

  /* ----- The invariant ----- */

  // More than `limit` events in a row span the whole window.
  ghost predicate Spaced(h: seq<int>, limit: Quota) {
    forall i, j :: 0 <= i && i + limit <= j < |h| ==> h[i] + WINDOW <= h[j]
  }

  ghost predicate HistoryInv(h: seq<int>, limit: Quota) {
    Sorted(h) && Spaced(h, limit) && forall i :: 0 <= i < |h| ==> GoodTime(h[i])
  }

  // The row holds the newest events, and all of them that are younger than a day.
  ghost predicate Covers(h: seq<int>, events: seq<int>) {
    && 0 < |events| <= |h|
    && h[|h| - |events|..] == events
    && forall i :: 0 <= i < |h| - |events| ==> h[i] <= Last(h) - WINDOW
  }

  ghost predicate RowInv(s: System, limit: Quota) {
    match s.row
    case Some(row) => Readable(row, limit) && Covers(s.history, row.events) && s.floor <= Last(s.history)
    case None => s.floor == if s.history == [] then 0 else Last(s.history) + WINDOW
  }

  // How often the row changed since the session began bounds the attempts it has lost.
  ghost predicate SessionInv(s: System, c: Session, limit: Quota) {
    && c.start <= c.readAt <= |s.history| && c.startCleanups <= c.readCleanups <= s.cleanups
    && (c.started ==> FewCleanups(s, c.start, c.startCleanups))
    && match c.caller
       case Reading(step) =>
         && (if c.started then step <= |s.history| - c.start + s.cleanups - c.startCleanups else step == 0)
         && step < limit + 3
       case Writing(step, snapshot, now, next) =>
         && c.started && step <= c.readAt - c.start + c.readCleanups - c.startCleanups
         && step < limit + 3
         && Attempt(snapshot, now, limit) == Ok(next) && next.events != []
         && (snapshot.None? ==> s.floor <= now)
         && (c.readAt == |s.history| && c.readCleanups == s.cleanups ==> s.row == snapshot)
         && (c.calm ==> step <= limit)
       case Done(outcome) =>
         && outcome != Unreadable
         && (outcome == Exhausted ==> !c.calm)
  }

  // At most one cleanup while the session's first rival event is inside the window.
  ghost predicate FewCleanups(s: System, start: nat, startCleanups: nat) {
    || s.cleanups == startCleanups
    || (s.cleanups == startCleanups + 1 && (start == |s.history| ==> s.row.None?))
    || (start < |s.history| && s.history[start] + WINDOW <= s.floor)
  }

  ghost function Winners(sessions: map<int, Session>): set<int> {
    set id | id in sessions && sessions[id].caller.Done? && sessions[id].caller.outcome.Recorded?
  }

  ghost predicate Inv(s: System, limit: Quota) {
    && HistoryInv(s.history, limit)
    && RowInv(s, limit)
    && |Winners(s.sessions)| == |s.history|
    && forall id :: id in s.sessions ==> SessionInv(s, s.sessions[id], limit)
  }

  /* ----- Recording an event ----- */

  // The three shapes of a successful attempt.
  lemma {:induction false} AttemptShape(row: Option<Row>, now: int, limit: Quota) returns (k: nat, at: int)
    requires Attempt(row, now, limit).Ok?
    ensures var events := EventsOf(row);
            && k <= |events| && |events| - k < limit && GoodTime(at)
            && Attempt(row, now, limit).value == Row(events[k..] + [at], at + WINDOW)
            && (forall i :: 0 <= i < k ==> events[i] <= now - WINDOW)
            && now <= at == (if k == |events| then now else Max(now, Last(events)))
            && (k == |events| || now - WINDOW < Last(events))
  {
    var events := EventsOf(row);
    k := ActiveIsSuffix(events, now);
    at := Last(Attempt(row, now, limit).value.events);
    assert k < |events| ==> Last(events[k..]) == Last(events);
    assert GoodTime(at);
    hide ActiveEvents, Sorted;
  }

  lemma {:induction false} RecordKeepsHistory(s: System, now: int, limit: Quota)
    requires HistoryInv(s.history, limit) && RowInv(s, limit)
    requires Attempt(s.row, now, limit).Ok? && (s.row.None? ==> s.floor <= now)
    ensures var next := Attempt(s.row, now, limit).value;
            && next.events != []
            && var h' := s.history + [Last(next.events)];
               HistoryInv(h', limit) && Covers(h', next.events) && Readable(next, limit)
  {
    hide HistoryInv, Covers, Readable, Attempt;
    var k, at := AttemptShape(s.row, now, limit);
    AttemptIsReadable(s.row, now, limit);
    if s.row.Some? {
      SwapKeepsHistory(s.history, s.row.value.events, k, now, at, limit);
    } else {
      assert [][k..] + [at] == [now];
      InsertKeepsHistory(s.history, now, limit);
    }
  }

  // What the row gives up is out of the new event's window.
  lemma {:induction false} DroppedAreOld(h: seq<int>, events: seq<int>, k: nat, now: int, at: int)
    requires Sorted(h) && Covers(h, events) && k <= |events|
    requires forall i :: 0 <= i < k ==> events[i] <= now - WINDOW
    requires now <= at == (if k == |events| then now else Max(now, Last(events)))
    requires k == |events| || now - WINDOW < Last(events)
    ensures Last(h) <= at
    ensures forall i :: 0 <= i < |h| - |events| + k ==> h[i] <= at - WINDOW
  {
    var r := |h| - |events|;
    assert forall i :: 0 <= i < |events| ==> events[i] == h[r..][i] == h[r + i];
    assert Last(h) == Last(events);
    if k == |events| { assert Last(events) == events[k - 1]; }
    forall i | 0 <= i < r + k ensures h[i] <= at - WINDOW {
      if i >= r { assert h[i] == events[i - r]; }
    }
  }

  lemma {:induction false} ExtendHistory(h: seq<int>, at: int, aged: nat, limit: Quota)
    requires HistoryInv(h, limit) && GoodTime(at) && aged <= |h| && |h| - aged < limit
    requires h != [] ==> Last(h) <= at
    requires forall i :: 0 <= i < aged ==> h[i] <= at - WINDOW
    ensures HistoryInv(h + [at], limit)
  {
    var h' := h + [at];
    assert Sorted(h') by {
      forall i, j | 0 <= i < j < |h'| ensures h'[i] <= h'[j] {
        if j == |h| && i < |h| - 1 { assert h[i] <= h[|h| - 1]; }
      }
    }
    forall i, j | 0 <= i && i + limit <= j < |h'| ensures h'[i] + WINDOW <= h'[j] {
      if j < |h| { assert h[i] + WINDOW <= h[j]; }
    }
  }

  lemma {:induction false} TailAppend(h: seq<int>, events: seq<int>, k: nat, at: int)
    requires 0 < |events| <= |h| && h[|h| - |events|..] == events && k <= |events|
    ensures var h' := h + [at]; h'[|h'| - (|events| - k + 1)..] == events[k..] + [at]
  {
    var h' := h + [at];
    var r := |h| - |events|;
    assert events[k..] == h[r + k..];
    assert h'[r + k..] == h[r + k..] + [at];
  }

  lemma {:induction false} SwapKeepsHistory(h: seq<int>, events: seq<int>, k: nat, now: int, at: int, limit: Quota)
    requires HistoryInv(h, limit) && Covers(h, events) && k <= |events| && |events| - k < limit && GoodTime(at)
    requires forall i :: 0 <= i < k ==> events[i] <= now - WINDOW
    requires now <= at == (if k == |events| then now else Max(now, Last(events)))
    requires k == |events| || now - WINDOW < Last(events)
    ensures HistoryInv(h + [at], limit) && Covers(h + [at], events[k..] + [at])
  {
    hide HistoryInv;
    assert Sorted(h) by { SortedOf(h, limit); }
    hide Sorted;
    DroppedAreOld(h, events, k, now, at);
    ExtendHistory(h, at, |h| - |events| + k, limit);
    TailAppend(h, events, k, at);
  }

  // A first event, or one long after the last.
  lemma {:induction false} InsertKeepsHistory(h: seq<int>, now: int, limit: Quota)
    requires HistoryInv(h, limit) && GoodTime(now) && (h != [] ==> Last(h) + WINDOW <= now)
    ensures HistoryInv(h + [now], limit) && Covers(h + [now], [now])
  {
    hide Spaced, Sorted;
    forall i | 0 <= i < |h| ensures h[i] <= now - WINDOW { SortedAt(h, i, limit); }
    ExtendHistory(h, now, |h|, limit);
    var h' := h + [now];
    assert h'[|h'| - 1..] == [now];
  }

  lemma {:induction false} SortedOf(h: seq<int>, limit: Quota)
    requires HistoryInv(h, limit)
    ensures Sorted(h)
  {
  }

  /* ----- Every step keeps the invariant ----- */

  ghost predicate SameTable(s: System, s': System) {
    s'.row == s.row && s'.history == s.history && s'.cleanups == s.cleanups && s'.floor == s.floor
  }

  // A session's part of the invariant only looks at the table.
  lemma {:induction false} SessionSeesTable(s: System, s': System, c: Session, limit: Quota)
    requires SameTable(s, s')
    ensures SessionInv(s, c, limit) == SessionInv(s', c, limit)
  {
  }

  lemma {:induction false} EnterKeepsInv(s: System, s': System, id: int, limit: Quota)
    requires Inv(s, limit) && Enter(s, s', id)
    ensures Inv(s', limit)
  {
    hide HistoryInv, RowInv, SessionInv;
    assert Winners(s'.sessions) == Winners(s.sessions);
    forall i | i in s'.sessions ensures SessionInv(s', s'.sessions[i], limit) {
      if i == id {
        FreshSession(s', limit);
      } else {
        SessionSeesTable(s, s', s.sessions[i], limit);
      }
    }
    assert RowInv(s', limit) by { RowSeesTable(s, s', limit); }
  }

  lemma {:induction false} FreshSession(s: System, limit: Quota)
    ensures SessionInv(s, Session(Reading(0), false, 0, 0, 0, 0, true), limit)
  {
  }

  lemma {:induction false} RowSeesTable(s: System, s': System, limit: Quota)
    requires SameTable(s, s')
    ensures RowInv(s, limit) == RowInv(s', limit)
  {
  }

  // All events recorded since the session began are active at a calm reading.
  lemma {:induction false} RivalsAreActive(s: System, start: nat, now: int, limit: Quota)
    requires HistoryInv(s.history, limit) && RowInv(s, limit) && (s.row.None? ==> s.floor <= now)
    requires start <= |s.history| && StillInside(s, start, now)
    ensures |s.history| - start <= |ActiveEvents(EventsOf(s.row), now)|
  {
    var h := s.history;
    if start < |h| {
      assert h[start] <= Last(h) by { SortedAt(h, start, limit); }
      var events := s.row.value.events;
      assert Sorted(events);
      var k := ActiveIsSuffix(events, now);
      hide Sorted, ActiveEvents, HistoryInv;
      var r := |h| - |events|;
      assert r <= start;
      assert events[start - r] == h[r..][start - r] == h[start];
    }
  }

  lemma {:induction false} SortedAt(h: seq<int>, i: nat, limit: Quota)
    requires HistoryInv(h, limit) && i < |h|
    ensures h[i] <= Last(h)
  {
  }

  // The state of a session right after it read.
  lemma {:induction false} ReadSession(s: System, c: Session, now: int, limit: Quota) returns (c': Session)
    requires HistoryInv(s.history, limit) && RowInv(s, limit) && SessionInv(s, c, limit)
    requires c.caller.Reading? && (s.row.None? && GoodTime(now) ==> s.floor <= now)
    ensures var start := if c.started then c.start else |s.history|;
            c' == Session(OnRead(c.caller.step, s.row, now, limit), true, start,
                          if c.started then c.startCleanups else s.cleanups,
                          |s.history|, s.cleanups, c.calm && StillInside(s, start, now))
    ensures SessionInv(s, c', limit)
    ensures !c'.caller.Done? || !c'.caller.outcome.Recorded?
  {
    hide HistoryInv, ActiveEvents, Readable, Covers, StillInside;
    var start := if c.started then c.start else |s.history|;
    var calm := c.calm && StillInside(s, start, now);
    c' := Session(OnRead(c.caller.step, s.row, now, limit), true, start,
                  if c.started then c.startCleanups else s.cleanups, |s.history|, s.cleanups, calm);
    if calm && GoodTime(now) {
      if s.row.Some? { ExpiryIsNewest(s, limit); }
      RivalsAreActive(s, start, now, limit);
      CalmSteps(s, c', c.caller.step, now, limit);
    }
    AttemptErrors(s, now, limit);
  }

  lemma {:induction false} CalmSteps(s: System, c: Session, step: nat, now: int, limit: Quota)
    requires c.started && c.start <= |s.history| && c.startCleanups <= s.cleanups
    requires FewCleanups(s, c.start, c.startCleanups) && StillInside(s, c.start, now)
    requires s.floor <= now || (s.history != [] && s.floor <= Last(s.history))
    requires step <= |s.history| - c.start + s.cleanups - c.startCleanups
    ensures step <= |s.history| - c.start + 1
  {
  }

  // A stored row is never turned away as unreadable.
  lemma {:induction false} AttemptErrors(s: System, now: int, limit: Quota)
    requires RowInv(s, limit)
    ensures match Attempt(s.row, now, limit)
            case Ok(next) => next.events != [] && |ActiveEvents(EventsOf(s.row), now)| < limit
            case Err(e) => e.BadClock? || e.TooMany?
  {
  }

  lemma {:induction false} ReadKeepsInv(s: System, s': System, id: int, now: int, limit: Quota)
    requires Inv(s, limit) && Read(s, s', id, now, limit) && (s.row.None? && GoodTime(now) ==> s.floor <= now)
    ensures Inv(s', limit)
  {
    hide HistoryInv, RowInv, SessionInv, OnRead, StillInside;
    var c' := ReadSession(s, s.sessions[id], now, limit);
    assert s'.sessions[id] == c';
    assert Winners(s'.sessions) == Winners(s.sessions);
    forall i | i in s'.sessions ensures SessionInv(s', s'.sessions[i], limit) {
      if i == id {
        SessionSeesTable(s, s', c', limit);
      } else {
        SessionSeesTable(s, s', s.sessions[i], limit);
      }
    }
    RowSeesTable(s, s', limit);
  }

  // What an accepted write does to the other sessions.
  lemma {:induction false} OtherSeesRecord(s: System, s': System, c: Session, limit: Quota)
    requires SessionInv(s, c, limit)
    requires |s'.history| == |s.history| + 1 && s'.history[..|s.history|] == s.history
    requires s'.cleanups == s.cleanups && s'.floor == s.floor && s'.row.Some?
    ensures SessionInv(s', c, limit)
  {
    assert forall i :: 0 <= i < |s.history| ==> s'.history[i] == s'.history[..|s.history|][i] == s.history[i];
  }

  lemma {:induction false} OtherSeesCleanup(s: System, s': System, c: Session, limit: Quota)
    requires SessionInv(s, c, limit) && RowInv(s, limit) && HistoryInv(s.history, limit) && s.row.Some?
    requires c.caller.Writing? && c.caller.snapshot.None? ==> s.row.value.expiresAt <= c.caller.now
    requires s'.history == s.history && s'.cleanups == s.cleanups + 1 && s'.row.None?
    requires s'.floor == s.row.value.expiresAt
    ensures SessionInv(s', c, limit)
  {
    hide ActiveEvents, Attempt;
    ExpiryIsNewest(s, limit);
    if c.started && c.start < |s.history| {
      assert s.history[c.start] <= Last(s.history);
    }
  }

  lemma {:induction false} ExpiryIsNewest(s: System, limit: Quota)
    requires RowInv(s, limit) && s.row.Some?
    ensures s.history != [] && s.row.value.expiresAt == Last(s.history) + WINDOW
  {
    var events := s.row.value.events;
    assert Last(events) == s.history[|s.history| - |events|..][|events| - 1];
  }

  lemma {:induction false} CleanupKeepsInv(s: System, s': System, clock: int, limit: Quota)
    requires Inv(s, limit) && Cleanup(s, s', clock) && Punctual(s, Cleans(clock))
    ensures Inv(s', limit)
  {
    hide HistoryInv, SessionInv;
    ExpiryIsNewest(s, limit);
    forall i | i in s'.sessions ensures SessionInv(s', s'.sessions[i], limit) {
      OtherSeesCleanup(s, s', s.sessions[i], limit);
    }
  }

  lemma {:induction false} LostWrite(s: System, c: Session, limit: Quota)
    requires SessionInv(s, c, limit) && c.caller.Writing? && s.row != c.caller.snapshot
    ensures SessionInv(s, c.(caller := OnWrite(c.caller, s.row, limit)), limit)
    ensures !OnWrite(c.caller, s.row, limit).Done? || !OnWrite(c.caller, s.row, limit).outcome.Recorded?
  {
    hide Attempt, FewCleanups;
  }

  lemma {:induction false} WonWrite(s: System, s': System, c: Session, limit: Quota)
    requires SessionInv(s, c, limit) && c.caller.Writing? && s.row == c.caller.snapshot
    requires SessionInv(s', c, limit)
    ensures SessionInv(s', c.(caller := OnWrite(c.caller, s.row, limit)), limit)
    ensures OnWrite(c.caller, s.row, limit) == Done(Recorded(Last(c.caller.next.events)))
  {
    hide Attempt, FewCleanups;
  }

  lemma {:induction false} WriteKeepsInv(s: System, s': System, id: int, limit: Quota)
    requires Inv(s, limit) && Write(s, s', id, limit)
    ensures Inv(s', limit)
  {
    hide HistoryInv, SessionInv, RowInv, OnWrite;
    var c := s.sessions[id];
    if s.row == c.caller.snapshot {
      RecordKeepsTable(s, s', c, limit);
      OtherSeesRecord(s, s', c, limit);
      WonWrite(s, s', c, limit);
      assert Winners(s'.sessions) == Winners(s.sessions) + {id};
      forall i | i in s'.sessions && i != id ensures SessionInv(s', s'.sessions[i], limit) {
        OtherSeesRecord(s, s', s.sessions[i], limit);
      }
    } else {
      LostWrite(s, c, limit);
      assert Winners(s'.sessions) == Winners(s.sessions);
      RowSeesTable(s, s', limit);
      forall i | i in s'.sessions ensures SessionInv(s', s'.sessions[i], limit) {
        SessionSeesTable(s, s', if i == id then c.(caller := OnWrite(c.caller, s.row, limit))
            else s.sessions[i], limit);
      }
    }
  }

  lemma {:induction false} RecordKeepsTable(s: System, s': System, c: Session, limit: Quota)
    requires HistoryInv(s.history, limit) && RowInv(s, limit) && SessionInv(s, c, limit)
    requires c.caller.Writing? && s.row == c.caller.snapshot
    requires s'.row == Some(c.caller.next) && c.caller.next.events != []
    requires s'.history == s.history + [Last(c.caller.next.events)] && s'.floor == s.floor
    ensures HistoryInv(s'.history, limit) && RowInv(s', limit)
  {
    hide HistoryInv, FewCleanups, Covers, Readable, Attempt;
    RecordKeepsHistory(s, c.caller.now, limit);
    AttemptIsReadable(s.row, c.caller.now, limit);
    if s.row.Some? {
      ExpiryIsNewest(s, limit);
      SortedAt(s'.history, |s.history| - 1, limit);
    }
  }

  lemma {:induction false} NextKeepsInv(s: System, step: Step, s': System, limit: Quota)
    requires Inv(s, limit) && Next(s, step, s', limit) && Punctual(s, step)
    ensures Inv(s', limit)
  {
    hide Inv, Enter, Read, Write, Cleanup;
    match step
    case Enters(id) => EnterKeepsInv(s, s', id, limit);
    case Reads(id, now) => ReadKeepsInv(s, s', id, now, limit);
    case Writes(id) => WriteKeepsInv(s, s', id, limit);
    case Cleans(clock) => CleanupKeepsInv(s, s', clock, limit);
  }

  lemma {:induction false} RunKeepsInv(run: seq<System>, steps: seq<Step>, limit: Quota, i: nat)
    requires IsRun(run, steps, limit) && i < |run| && OnTime(run, steps, i)
    ensures Inv(run[i], limit)
  {
    hide Next, Punctual;
    if i > 0 {
      RunKeepsInv(run, steps, limit, i - 1);
      NextKeepsInv(run[i - 1], steps[i - 1], run[i], limit);
    } else {
      assert Winners(INITIAL.sessions) == {};
    }
  }

  /* ----- What callers and recipients can rely on ----- */

  // How many events fall into (from, until].
  function CountIn(h: seq<int>, from: int, until: int): nat {
    if h == [] then 0
    else CountIn(h[..|h| - 1], from, until) + (if from < Last(h) <= until then 1 else 0)
  }

  lemma {:induction false} CountTail(h: seq<int>, from: int, until: int, k: nat)
    requires k <= |h| && forall i :: 0 <= i < k ==> !(from < h[i] <= until)
    ensures CountIn(h, from, until) <= |h| - k
  {
    if h != [] {
      CountTail(h[..|h| - 1], from, until, Min(k, |h| - 1));
    }
  }

  lemma {:induction false} SpacedCounts(h: seq<int>, from: int, until: int, limit: Quota)
    requires Sorted(h) && Spaced(h, limit) && until - from <= WINDOW
    ensures CountIn(h, from, until) <= limit
  {
    if h != [] {
      if from < Last(h) <= until {
        CountTail(h, from, until, Max(0, |h| - limit));
      } else {
        SpacedCounts(h[..|h| - 1], from, until, limit);
      }
    }
  }

  /**
   * However the callers interleave and whatever their clocks say, as long as a row is only removed
   * once it has expired by the clocks of those who insert after it: in no 24 hours are more than
   * `limit` events recorded, the stored row can always be read back, and every recorded event
   * belongs to exactly one successful caller.
   */
  lemma {:induction false} QuotaHolds(run: seq<System>, steps: seq<Step>, limit: Quota, i: nat, from: int)
    requires IsRun(run, steps, limit) && i < |run| && OnTime(run, steps, i)
    ensures CountIn(run[i].history, from, from + WINDOW) <= limit
    ensures Sorted(run[i].history)
    ensures run[i].row.Some? ==> Readable(run[i].row.value, limit)
    ensures |Winners(run[i].sessions)| == |run[i].history|
  {
    RunKeepsInv(run, steps, limit, i);
    SpacedCounts(run[i].history, from, from + WINDOW, limit);
  }

  /**
   * A caller only runs out of attempts if events recorded after it began have already left
   * the window again, and it never finds a row it cannot read.
   */
  lemma {:induction false} OnlyStarvedCallersGiveUp(run: seq<System>, steps: seq<Step>, limit: Quota, i: nat, id: int)
    requires IsRun(run, steps, limit) && i < |run| && OnTime(run, steps, i) && id in run[i].sessions
             && run[i].sessions[id].caller.Done?
    ensures run[i].sessions[id].caller.outcome != Unreadable
    ensures run[i].sessions[id].caller.outcome == Exhausted ==> !run[i].sessions[id].calm
  {
    RunKeepsInv(run, steps, limit, i);
    assert SessionInv(run[i], run[i].sessions[id], limit);
  }

  /* ----- No stored value comes back ----- */

  lemma {:induction false} NextGrows(s: System, step: Step, s': System, limit: Quota)
    requires Next(s, step, s', limit)
    ensures |s.history| <= |s'.history| && s'.history[..|s.history|] == s.history
    ensures |s.history| == |s'.history| ==> s'.row == s.row || s'.row.None?
  {
    hide OnRead, OnWrite, StillInside;
  }

  lemma {:induction false} HistoryGrows(run: seq<System>, steps: seq<Step>, limit: Quota, i: nat, j: nat)
    requires IsRun(run, steps, limit) && i <= j < |run|
    ensures |run[i].history| <= |run[j].history| && run[j].history[..|run[i].history|] == run[i].history
    ensures |run[i].history| == |run[j].history| ==> run[j].row == run[i].row || run[j].row.None?
    decreases j - i
  {
    if i < j {
      HistoryGrows(run, steps, limit, i, j - 1);
      NextGrows(run[j - 1], steps[j - 1], run[j], limit);
      PrefixTrans(run[i].history, run[j - 1].history, run[j].history);
    }
  }

  lemma {:induction false} PrefixTrans(a: seq<int>, b: seq<int>, c: seq<int>)
    requires |a| <= |b| <= |c| && b[..|a|] == a && c[..|b|] == b
    ensures c[..|a|] == a
  {
    assert c[..|a|] == c[..|b|][..|a|];
  }

  // Were the same events stored before and after a recording, all of them would be the newest.
  lemma {:induction false} AllNewest(h: seq<int>, h': seq<int>, events: seq<int>, k: nat)
    requires Sorted(h') && Covers(h, events) && Covers(h', events)
    requires |h| < |h'| && h'[..|h|] == h && k < |events|
    ensures events[k] == Last(events)
    decreases |events| - k
  {
    var d := |h'| - |h|;
    var n := |events|;
    assert events[k] == h'[|h'| - n..][k] == h'[|h'| - n + k];
    assert Last(events) == h[|h| - n..][n - 1] == Last(h) == h'[..|h|][|h| - 1] == h'[|h| - 1];
    assert Last(events) == h'[|h'| - n..][n - 1] == Last(h');
    if k + d < n {
      AllNewest(h, h', events, k + d);
      assert events[k + d] == h[|h| - n..][k + d] == h[|h| - n + k + d] == h'[..|h|][|h'| - n + k];
    }
  }

  lemma {:induction false} RecordingChangesRow(h: seq<int>, h': seq<int>, events: seq<int>, events': seq<int>)
    requires Sorted(h') && Covers(h, events) && Covers(h', events') && |h| < |h'| && h'[..|h|] == h
    ensures events != events'
  {
    if events == events' {
      var n := |events|;
      var t := Last(events);
      var i := |h'| - n - 1;
      assert t == h'[|h'| - n..][n - 1] == Last(h');
      assert t == h[|h| - n..][n - 1] == h'[..|h|][|h| - 1];
      assert h'[i] <= t - WINDOW;
      if i < |h| {
        assert h'[i] == h'[..|h|][i] == h[|h| - n..][i - (|h| - n)] == events[i - (|h| - n)];
        AllNewest(h, h', events, i - (|h| - n));
      }
    }
  }

  /** A compare-and-swap that finds its snapshot again has not missed any change. */
  lemma {:induction false} NoValueComesBack(run: seq<System>, steps: seq<Step>, limit: Quota, i: nat, k: nat, j: nat)
    requires IsRun(run, steps, limit) && i <= k <= j < |run| && OnTime(run, steps, j)
    requires run[i].row.Some? && run[j].row == run[i].row
    ensures run[k].row == run[i].row && run[k].history == run[i].history
  {
    HistoryGrows(run, steps, limit, i, k);
    HistoryGrows(run, steps, limit, k, j);
    HistoryGrows(run, steps, limit, i, j);
    RunKeepsInv(run, steps, limit, i);
    RunKeepsInv(run, steps, limit, j);
    if |run[i].history| < |run[j].history| {
      RecordingChangesRow(run[i].history, run[j].history, run[i].row.value.events, run[j].row.value.events);
    } else {
      assert run[k].history[..|run[i].history|] == run[k].history;
    }
  }

  /* ----- Refusals ----- */

  lemma {:induction false} CountSuffix(h: seq<int>, from: int, until: int, k: nat)
    requires k <= |h|
    requires forall i :: 0 <= i < k ==> h[i] <= from
    requires forall i :: k <= i < |h| ==> from < h[i] <= until
    ensures CountIn(h, from, until) == |h| - k
  {
    if h != [] {
      CountSuffix(h[..|h| - 1], from, until, Min(k, |h| - 1));
    }
  }

  lemma {:induction false} SuffixAt(h: seq<int>, events: seq<int>, i: nat)
    requires |events| <= |h| && h[|h| - |events|..] == events && |h| - |events| <= i < |h|
    ensures h[i] == events[i - (|h| - |events|)]
  {
  }

  lemma {:induction false} WindowSplit(h: seq<int>, events: seq<int>, now: int, k: nat)
    requires Covers(h, events) && Last(h) <= now && Sorted(h) && k <= |events|
    requires forall i :: 0 <= i < k ==> events[i] <= now - WINDOW
    requires forall i :: k <= i < |events| ==> now - WINDOW < events[i]
    ensures CountIn(h, now - WINDOW, now) == |events| - k
  {
    var r := |h| - |events|;
    forall i | 0 <= i < |h| ensures h[i] <= now && (i < r + k <==> h[i] <= now - WINDOW) {
      if i >= r { SuffixAt(h, events, i); }
    }
    CountSuffix(h, now - WINDOW, now, r + k);
  }

  // Up to the newest event's clock and later, the row tells exactly how full the window is.
  lemma {:induction false} ActiveIsWindow(s: System, now: int, limit: Quota)
    requires HistoryInv(s.history, limit) && RowInv(s, limit) && (s.row.None? ==> s.floor <= now)
    requires s.history != [] ==> Last(s.history) <= now
    ensures |ActiveEvents(EventsOf(s.row), now)| == CountIn(s.history, now - WINDOW, now)
  {
    var h := s.history;
    if s.row.None? {
      assert forall i :: 0 <= i < |h| ==> h[i] <= Last(h);
      CountSuffix(h, now - WINDOW, now, |h|);
    } else {
      var events := s.row.value.events;
      var k := ActiveIsSuffix(events, now);
      hide ActiveEvents, CountIn;
      WindowSplit(h, events, now, k);
    }
  }

  /**
   * A caller whose clock is not behind the newest event is turned away exactly when the 24
   * hours up to its clock are full.
   */
  lemma {:induction false} RefusedIffFull(run: seq<System>, steps: seq<Step>, limit: Quota, i: nat, now: int)
    requires IsRun(run, steps, limit) && i < |run| && OnTime(run, steps, i) && GoodTime(now)
    requires run[i].row.None? ==> run[i].floor <= now
    requires run[i].history != [] ==> Last(run[i].history) <= now
    ensures Attempt(run[i].row, now, limit).Err? <==> CountIn(run[i].history, now - 86_400_000, now) == limit
  {
    RunKeepsInv(run, steps, limit, i);
    hide HistoryInv, Covers;
    ActiveIsWindow(run[i], now, limit);
    QuotaHolds(run, steps, limit, i, now - WINDOW);
  }

  /**
   * The announced waiting time is enough and, up to a second, not too long: on the same row
   * an attempt succeeds once it has passed, and not while the oldest active event lasts.
   */
  lemma {:induction false} RetryAfterIsExact(row: Option<Row>, now: int, later: int, limit: Quota)
    requires Attempt(row, now, limit).Err? && Attempt(row, now, limit).error.TooMany? && now <= later && GoodTime(later)
    ensures var wait := Attempt(row, now, limit).error.retryAfter;
            && (now + 1000 * wait <= later ==> Attempt(row, later, limit).Ok?)
            && (1 < wait && later <= now + 1000 * (wait - 1) ==> Attempt(row, later, limit).Err?)
  {
    var events := EventsOf(row);
    var k := ActiveIsSuffix(events, now);
    var k' := ActiveIsSuffix(events, later);
    assert k < |events| && ActiveEvents(events, now)[0] == events[k];
  }

  /* ----- Runs with any cleanups ----- */

  // The events of the 24 hours after an instant.
  function InDay(h: seq<int>, from: int): nat { CountIn(h, from, from + WINDOW) }

  ghost predicate WithinQuota(h: seq<int>, limit: Quota) { forall from :: InDay(h, from) <= limit }

  // Some 24 hours around an instant are full already.
  ghost predicate Crowded(h: seq<int>, at: int, limit: Quota) {
    exists from :: from < at <= from + WINDOW && InDay(h, from) >= limit
  }

  lemma {:induction false} OneMoreIn(h: seq<int>, at: int, from: int)
    ensures InDay(h + [at], from) == InDay(h, from) + if from < at <= from + WINDOW then 1 else 0
  {
    assert (h + [at])[..|h|] == h;
  }

  lemma {:induction false} OneMoreWithin(h: seq<int>, at: int, limit: Quota)
    ensures WithinQuota(h + [at], limit) <==> WithinQuota(h, limit) && !Crowded(h, at, limit)
  {
    hide InDay;
    forall from
      ensures InDay(h + [at], from) == InDay(h, from) + if from < at <= from + WINDOW then 1 else 0
    {
      OneMoreIn(h, at, from);
    }
    if WithinQuota(h + [at], limit) {
      forall from ensures InDay(h, from) <= limit { assert InDay(h + [at], from) <= limit; }
      forall from | from < at <= from + WINDOW ensures InDay(h, from) < limit { assert InDay(h + [at], from) <= limit; }
    }
  }

  // A write about to take effect whose event falls into full 24 hours.
  ghost predicate Overfills(s: System, step: Step, limit: Quota) {
    && step.Writes? && step.id in s.sessions && s.sessions[step.id].caller.Writing?
    && s.row == s.sessions[step.id].caller.snapshot && s.sessions[step.id].caller.next.events != []
    && Crowded(s.history, Last(s.sessions[step.id].caller.next.events), limit)
  }

  lemma {:induction false} StepWithin(s: System, step: Step, s': System, limit: Quota)
    requires Next(s, step, s', limit)
    ensures WithinQuota(s'.history, limit) <==> WithinQuota(s.history, limit) && !Overfills(s, step, limit)
  {
    hide WithinQuota, Crowded, OnRead, OnWrite, StillInside;
    if step.Writes? {
      OneMoreWithin(s.history, Last(s.sessions[step.id].caller.next.events), limit);
    }
  }

  /**
   * Exactly when a run with cleanups at any time keeps the quota: no write ever takes effect
   * for an instant around which 24 hours are full already.
   */
  lemma {:induction false} QuotaIff(run: seq<System>, steps: seq<Step>, limit: Quota, i: nat)
    requires IsRun(run, steps, limit) && i < |run|
    ensures WithinQuota(run[i].history, limit) <==> forall j :: 0 <= j < i ==> !Overfills(run[j], steps[j], limit)
  {
    hide WithinQuota, Overfills, Next;
    if i == 0 {
      assert WithinQuota([], limit) by { NothingCounted(limit); }
    } else {
      QuotaIff(run, steps, limit, i - 1);
      StepWithin(run[i - 1], steps[i - 1], run[i], limit);
    }
  }

  lemma {:induction false} NothingCounted(limit: Quota)
    ensures WithinQuota([], limit)
  {
  }

  // While cleanups are on time no write overfills.
  lemma {:induction false} PunctualNeverOverfills(run: seq<System>, steps: seq<Step>, limit: Quota, i: nat)
    requires IsRun(run, steps, limit) && i < |steps| && OnTime(run, steps, i + 1)
    ensures !Overfills(run[i], steps[i], limit)
  {
    hide Overfills, Next, Punctual, CountIn;
    var h := run[i + 1].history;
    forall from ensures InDay(h, from) <= limit {
      QuotaHolds(run, steps, limit, i + 1, from);
    }
    QuotaIff(run, steps, limit, i + 1);
  }

  /* ----- Why cleanup must not come too early for a clock ----- */

  function Repeat(t: int, n: nat): seq<int> { if n == 0 then [] else Repeat(t, n - 1) + [t] }

  lemma {:induction false} RepeatIs(t: int, n: nat)
    ensures |Repeat(t, n)| == n && forall i :: 0 <= i < n ==> Repeat(t, n)[i] == t
  {
    if n > 0 { RepeatIs(t, n - 1); }
  }

  lemma {:induction false} RepeatIsActive(n: nat)
    ensures ActiveEvents(Repeat(1, n), 1) == Repeat(1, n)
  {
    RepeatIs(1, n);
    var k := ActiveIsSuffix(Repeat(1, n), 1);
    hide ActiveEvents;
  }

  // An insert prepared at time 0 on the empty table and then delayed.
  const STALLED := Session(Writing(0, None, 0, Row([0], WINDOW)), true, 0, 0, 0, 0, true)

  // Callers 1 .. n have recorded at time 1, one after the other; caller 0 may be delayed.
  function Sessions(stalled: bool, n: nat): (m: map<int, Session>)
    ensures forall id :: id in m <==> 1 <= id <= n || (stalled && id == 0)
    ensures stalled ==> m[0] == STALLED
  {
    if n == 0 then if stalled then map[0 := STALLED] else map[]
    else Sessions(stalled, n - 1)[n := Session(Done(Recorded(1)), true, n - 1, 0, n - 1, 0, true)]
  }

  function Filled(stalled: bool, n: nat): System {
    System(if n == 0 then None else Some(Row(Repeat(1, n), 1 + WINDOW)), Repeat(1, n), 0, 0, Sessions(stalled, n))
  }

  lemma {:induction false} Extend(run: seq<System>, steps: seq<Step>, step: Step, s: System, limit: Quota)
    requires IsRun(run, steps, limit) && Next(run[|steps|], step, s, limit)
    ensures IsRun(run + [s], steps + [step], limit)
    ensures forall i :: 0 <= i <= |steps| && OnTime(run, steps, i) ==> OnTime(run + [s], steps + [step], i)
    ensures forall from: nat :: OnTimeBetween(run, steps, from, |steps|) && Punctual(run[|steps|], step) ==>
              OnTimeBetween(run + [s], steps + [step], from, |steps| + 1)
  {
    hide Next, Punctual;
    var run', steps' := run + [s], steps + [step];
    forall i | 0 <= i < |steps'| ensures Next(run'[i], steps'[i], run'[i + 1], limit) {
      if i < |steps| { assert run'[i] == run[i] && run'[i + 1] == run[i + 1] && steps'[i] == steps[i]; }
    }
  }

  function Prepared(s: System, now: int, next: Row): Session {
    Session(Writing(0, s.row, now, next), true, |s.history|, s.cleanups, |s.history|, s.cleanups, true)
  }

  lemma {:induction false} EntersNext(s: System, id: int, limit: Quota) returns (s': System)
    requires id !in s.sessions
    ensures Next(s, Enters(id), s', limit)
    ensures s' == s.(sessions := s.sessions[id := Session(Reading(0), false, 0, 0, 0, 0, true)])
  {
    s' := s.(sessions := s.sessions[id := Session(Reading(0), false, 0, 0, 0, 0, true)]);
  }

  // A caller's first reading, from the state in which it entered.
  lemma {:induction false} ReadsNext(
      before: System, s: System, id: int, now: int, next: Row, limit: Quota) returns (s': System)
    requires s == before.(sessions := before.sessions[id := Session(Reading(0), false, 0, 0, 0, 0, true)])
    requires Attempt(before.row, now, limit) == Ok(next)
    ensures Next(s, Reads(id, now), s', limit)
    ensures s' == before.(sessions := before.sessions[id := Prepared(before, now, next)])
  {
    hide Attempt;
    s' := before.(sessions := before.sessions[id := Prepared(before, now, next)]);
    assert s.sessions[id := Prepared(before, now, next)] == s'.sessions;
  }

  // A write that finds the row it read.
  lemma {:induction false} WritesNext(s: System, id: int, limit: Quota) returns (s': System)
    requires id in s.sessions && s.sessions[id].caller.Writing? && s.sessions[id].caller.next.events != []
    requires s.row == s.sessions[id].caller.snapshot
    ensures Next(s, Writes(id), s', limit)
    ensures var c := s.sessions[id];
            s' == s.(row := Some(c.caller.next), history := s.history + [Last(c.caller.next.events)],
                     sessions := s.sessions[id := c.(caller := Done(Recorded(Last(c.caller.next.events))))])
  {
    var c := s.sessions[id];
    s' := s.(row := Some(c.caller.next), history := s.history + [Last(c.caller.next.events)],
             sessions := s.sessions[id := c.(caller := Done(Recorded(Last(c.caller.next.events))))]);
  }

  // One caller enters, reads and writes without being disturbed.
  lemma {:induction false} Undisturbed(
      run: seq<System>, steps: seq<Step>, limit: Quota, id: int, now: int, next: Row)
      returns (run': seq<System>, steps': seq<Step>)
    requires IsRun(run, steps, limit) && id !in run[|steps|].sessions
    requires Attempt(run[|steps|].row, now, limit) == Ok(next) && next.events != []
    ensures IsRun(run', steps', limit) && |steps'| == |steps| + 3
    ensures var s := run[|steps|];
            && run'[|steps'|] == s.(
                 row := Some(next), history := s.history + [Last(next.events)],
                 sessions := s.sessions[id := Prepared(s, now, next).(caller := Done(Recorded(Last(next.events))))])
            && run <= run' && steps <= steps'
            && (forall from: nat ::
                  OnTimeBetween(run, steps, from, |steps|) && (s.row.None? && GoodTime(now) ==> s.floor <= now) ==>
                    OnTimeBetween(run', steps', from, |steps'|))
            && (OnTime(run, steps, |steps|) ==> OnTime(run', steps', |steps| + 1))
            && run'[|steps| + 1].floor == s.floor && run'[|steps| + 1].row == s.row
            && steps'[|steps| + 1] == Reads(id, now)
  {
    hide Attempt, Next, Punctual, OnTimeBetween;
    var s, n := run[|steps|], |steps|;
    var s1 := EntersNext(s, id, limit);
    var s2 := ReadsNext(s, s1, id, now, next, limit);
    var s3 := WritesNext(s2, id, limit);
    PunctualOnes(s, s1, s2, id, now);
    var r1, t1 := run + [s1], steps + [Enters(id)];
    Extend(run, steps, Enters(id), s1, limit);
    var r2, t2 := r1 + [s2], t1 + [Reads(id, now)];
    Extend(r1, t1, Reads(id, now), s2, limit);
    run', steps' := r2 + [s3], t2 + [Writes(id)];
    Extend(r2, t2, Writes(id), s3, limit);
    var done := Prepared(s, now, next).(caller := Done(Recorded(Last(next.events))));
    assert s2.sessions[id := done] == s.sessions[id := done];
    assert run'[n + 3] == s3 && run'[n + 1] == s1 && steps'[n + 1] == Reads(id, now);
  }

  lemma {:induction false} PunctualOnes(s: System, s1: System, s2: System, id: int, now: int)
    ensures Punctual(s, Enters(id)) && Punctual(s2, Writes(id))
    ensures (s1.row.None? && GoodTime(now) ==> s1.floor <= now) ==> Punctual(s1, Reads(id, now))
  {
  }

  lemma {:induction false} FirstAttempt(limit: Quota)
    ensures Attempt(None, 0, limit) == Ok(Row([0], WINDOW))
  {
    assert [] + [0] == [0];
  }

  // `n` callers, one after the other, fill the row at time 1.
  lemma {:induction false} FillUp(stalled: bool, n: nat, limit: Quota) returns (run: seq<System>, steps: seq<Step>)
    requires n <= limit
    ensures IsRun(run, steps, limit) && OnTime(run, steps, |steps|) && run[|steps|] == Filled(stalled, n)
  {
    hide Attempt, Next, Punctual;
    if n == 0 {
      run, steps := [INITIAL], [];
      if stalled {
        FirstAttempt(limit);
        var s1 := EntersNext(INITIAL, 0, limit);
        var s2 := ReadsNext(INITIAL, s1, 0, 0, Row([0], WINDOW), limit);
        PunctualOnes(INITIAL, s1, s2, 0, 0);
        Extend(run, steps, Enters(0), s1, limit);
        Extend(run + [s1], steps + [Enters(0)], Reads(0, 0), s2, limit);
        run, steps := (run + [s1]) + [s2], (steps + [Enters(0)]) + [Reads(0, 0)];
        assert s2 == Filled(true, 0);
      }
    } else {
      var r, t := FillUp(stalled, n - 1, limit);
      var next := Row(Repeat(1, n), 1 + WINDOW);
      NextOne(n - 1, stalled, limit);
      run, steps := Undisturbed(r, t, limit, n, 1, next);
      RepeatIs(1, n);
      RepeatIs(1, n - 1);
    }
  }

  lemma {:induction false} NextOne(n: nat, stalled: bool, limit: Quota)
    requires n < limit
    ensures Attempt(Filled(stalled, n).row, 1, limit) == Ok(Row(Repeat(1, n + 1), 1 + WINDOW))
  {
    RepeatIs(1, n);
    RepeatIsActive(n);
    if n == 0 { assert [] + [1] == [1] == Repeat(1, 1); }
    hide ActiveEvents;
  }

  lemma {:induction false} CleansNext(s: System, clock: int, limit: Quota) returns (s': System)
    requires s.row.Some? && s.row.value.expiresAt <= clock
    ensures Next(s, Cleans(clock), s', limit)
    ensures s' == s.(row := None, cleanups := s.cleanups + 1, floor := s.row.value.expiresAt)
  {
    s' := s.(row := None, cleanups := s.cleanups + 1, floor := s.row.value.expiresAt);
  }

  lemma {:induction false} OneTooMany(limit: Quota)
    ensures CountIn(Repeat(1, limit) + [0], -1, WINDOW - 1) == limit + 1
  {
    RepeatIs(1, limit);
    CountSuffix(Repeat(1, limit) + [0], -1, WINDOW - 1, 0);
    hide CountIn, Repeat;
  }

  /**
   * A run from the empty table that breaks every quota: one insert is delayed, `limit` callers
   * record, the row expires and is cleaned up, and the insert takes effect. Everything is on
   * time but the cleanup: by the delayed insert's clock the row has not expired.
   */
  lemma {:induction false} OvertakenInsertBreaksQuota(limit: Quota) returns (run: seq<System>, steps: seq<Step>)
    ensures IsRun(run, steps, limit) && 2 <= |steps|
    ensures CountIn(run[|steps|].history, -1, WINDOW - 1) == limit + 1
    ensures OnTime(run, steps, |steps| - 2) && !Punctual(run[|steps| - 2], steps[|steps| - 2])
    ensures steps[|steps| - 2] == Cleans(1 + WINDOW)
  {
    var r, t := FillUp(true, limit, limit);
    hide Next, CountIn;
    var n := |t|;
    var cleaned := CleansNext(r[n], 1 + WINDOW, limit);
    var after := WritesNext(cleaned, 0, limit);
    Extend(r, t, Cleans(1 + WINDOW), cleaned, limit);
    Extend(r + [cleaned], t + [Cleans(1 + WINDOW)], Writes(0), after, limit);
    run, steps := (r + [cleaned]) + [after], (t + [Cleans(1 + WINDOW)]) + [Writes(0)];
    assert run[n] == r[n] && steps[n] == Cleans(1 + WINDOW) && 0 in r[n].sessions;
    OneTooMany(limit);
  }

  /** The same happens if a caller finds the table empty at a clock by which the row was alive. */
  lemma {:induction false} LateReadingBreaksQuota(limit: Quota) returns (run: seq<System>, steps: seq<Step>)
    ensures IsRun(run, steps, limit) && 2 <= |steps|
    ensures CountIn(run[|steps|].history, -1, WINDOW - 1) == limit + 1
    ensures OnTime(run, steps, |steps| - 2) && !Punctual(run[|steps| - 2], steps[|steps| - 2])
    ensures steps[|steps| - 2] == Reads(0, 0)
  {
    hide Next, CountIn, Attempt, Punctual, OnTimeBetween, Filled, Repeat;
    var r, t := FillUp(false, limit, limit);
    FilledRow(limit);
    var n := |t|;
    var cleaned := CleansNext(r[n], 1 + WINDOW, limit);
    NobodyPending(limit);
    Extend(r, t, Cleans(1 + WINDOW), cleaned, limit);
    FirstAttempt(limit);
    assert 0 !in cleaned.sessions;
    run, steps := Undisturbed(r + [cleaned], t + [Cleans(1 + WINDOW)], limit, 0, 0, Row([0], WINDOW));
    TooEarly(run[|steps| - 2]);
    OneTooMany(limit);
  }

  lemma {:induction false} FilledRow(n: nat)
    ensures var s := Filled(false, n);
            && s.history == Repeat(1, n) && 0 !in s.sessions
            && (0 < n ==> s.row.Some? && s.row.value.expiresAt == 1 + WINDOW)
  {
    hide Repeat;
  }

  lemma {:induction false} TooEarly(s: System)
    requires s.row.None? && 0 < s.floor
    ensures !Punctual(s, Reads(0, 0))
  {
  }

  lemma {:induction false} NobodyPending(n: nat)
    ensures Punctual(Filled(false, n), Cleans(1 + WINDOW))
    ensures forall id :: id in Filled(false, n).sessions ==> Filled(false, n).sessions[id].caller.Done?
  {
    if n > 0 { NobodyPending(n - 1); }
  }

  /** The two quotas in use. */
  lemma {:induction false} RecoveryQuotas(run: seq<System>, steps: seq<Step>, kind: Kind, i: nat, from: int)
    requires IsRun(run, steps, Limit(kind)) && i < |run| && OnTime(run, steps, i)
    ensures CountIn(run[i].history, from, from + 86_400_000) <= if kind == RequestKind then 5 else 10
  {
    hide IsRun, OnTime;
    QuotaHolds(run, steps, Limit(kind), i, from);
  }

  /** Neither quota is smaller than that: a run in which so many events share one instant. */
  lemma {:induction false} QuotasAreReached(kind: Kind) returns (run: seq<System>, steps: seq<Step>)
    ensures IsRun(run, steps, Limit(kind)) && OnTime(run, steps, |steps|)
    ensures var events := run[|steps|].history;
            |events| == (if kind == RequestKind then 5 else 10) && forall i :: 0 <= i < |events| ==> events[i] == 1
  {
    hide IsRun, OnTime;
    run, steps := FillUp(false, Limit(kind), Limit(kind));
    RepeatIs(1, Limit(kind));
  }

  /* ----- The caller's loop ----- */

  class VerificationRow {
    var row: Option<Row>

    constructor ()
      ensures row == None
    {
      row := None;
    }

    // Insert unless the key exists.
    method Create(next: Row) returns (created: bool)
      modifies this
      ensures created == old(row).None?
      ensures row == if created then Some(next) else old(row)
    {
      created := row.None?;
      if created { row := Some(next); }
    }

    // Update where value and expiry are still the given ones.
    method IncrementOne(snapshot: Row, next: Row) returns (updated: bool)
      modifies this
      ensures updated == (old(row) == Some(snapshot))
      ensures row == if updated then Some(next) else old(row)
    {
      updated := row.Some? && row.value.events == snapshot.events && row.value.expiresAt == snapshot.expiresAt;
      if updated { row := Some(next); }
    }

    // Whatever other callers and cleanups leave behind.
    method Become(left: Option<Row>)
      modifies this
      ensures row == left
    {
      row := left;
    }
  }

  // One caller in the state machine: others[step] is what it finds at its write.
  function CallerRun(step: nat, row: Option<Row>, clock: seq<int>, others: seq<Option<Row>>, limit: Quota)
    : (Outcome, Option<Row>)
    requires step < limit + 3 == |clock| == |others|
    decreases limit + 3 - step
  {
    match OnRead(step, row, clock[step], limit)
    case Done(outcome) => (outcome, row)
    case Reading(_) => (Exhausted, row)
    case Writing(_, _, _, next) =>
      if next.events == [] then (Exhausted, row)
      else
        match OnWrite(OnRead(step, row, clock[step], limit), others[step], limit)
        case Done(Recorded(at)) => (Recorded(at), Some(next))
        case Done(outcome) => (outcome, others[step])
        case Reading(again) => CallerRun(again, others[step], clock, others, limit)
        case Writing(_, _, _, _) => (Exhausted, row)
  }

  /** A caller gives up only after it has lost every one of its limit + 3 writes. */
  lemma {:induction false} GivesUpLast(
      step: nat, row: Option<Row>, clock: seq<int>, others: seq<Option<Row>>, limit: Quota, k: nat)
    requires step <= k < limit + 3 == |clock| == |others|
    requires CallerRun(step, row, clock, others, limit).0 == Exhausted
    ensures others[k] != if k == step then row else others[k - 1]
    decreases limit + 3 - step
  {
    NeverExhausted(row, clock[step], limit);
    hide Attempt;
    if step < k { GivesUpLast(step + 1, others[step], clock, others, limit, k); }
  }

  lemma {:induction false} NeverExhausted(row: Option<Row>, now: int, limit: Quota)
    ensures Attempt(row, now, limit).Err? ==> Attempt(row, now, limit).error != Exhausted
    ensures Attempt(row, now, limit).Ok? ==> Attempt(row, now, limit).value.events != []
  {
  }

  /** The retry loop takes the state machine's steps, one read and one guarded write at a time. */
  method Consume(store: VerificationRow, kind: Kind, clock: seq<int>, others: seq<Option<Row>>)
    returns (outcome: Outcome)
    requires |clock| == |others| == if kind == RequestKind then 8 else 13
    modifies store
    ensures (outcome, store.row) == CallerRun(0, old(store.row), clock, others, Limit(kind))
  {
    hide ActiveEvents, Readable;
    var limit := Limit(kind);
    for step := 0 to limit + 3
      invariant step < limit + 3 ==>
                  CallerRun(step, store.row, clock, others, limit) == CallerRun(0, old(store.row), clock, others, limit)
      invariant step == limit + 3 ==> (Exhausted, store.row) == CallerRun(0, old(store.row), clock, others, limit)
    {
      var current := store.row;
      var attempt := Attempt(current, clock[step], limit);
      if attempt.Err? { return attempt.error; }
      var next := attempt.value;
      store.Become(others[step]);
      var won: bool;
      if current.None? {
        won := store.Create(next);
      } else {
        won := store.IncrementOne(current.value, next);
      }
      if won { return Recorded(Last(next.events)); }
    }
    return Exhausted;
  }
}
