/**
 * The condition under which the recovery quota holds cannot be relaxed: after a single step that
 * is not punctual, callers with correct clocks can record more than the quota.
 */
module RecoveryTightness {
  import opened Prelude
  import opened RecoveryBudget

  lemma {:induction false} NotAmong(ids: set<int>) returns (id: int)
    ensures forall x :: x in ids ==> x < id
    decreases |ids|
  {
    id := 0;
    if x :| x in ids {
      var other := NotAmong(ids - {x});
      id := Max(other, x + 1);
      assert forall y :: y in ids ==> y == x || y in ids - {x};
    }
  }

  lemma {:induction false} AllActive(events: seq<int>, now: int)
    requires Sorted(events) && forall i :: 0 <= i < |events| ==> now - WINDOW < events[i]
    ensures ActiveEvents(events, now) == events
  {
    var k := ActiveIsSuffix(events, now);
    hide ActiveEvents, Sorted;
    assert k == 0;
  }

  // A caller whose clock is at or after the newest event records at its clock.
  lemma {:induction false} RecordsAtClock(row: Row, now: int, limit: Quota) returns (next: Row)
    requires Readable(row, limit) && Last(row.events) <= now && GoodTime(now)
    requires |ActiveEvents(row.events, now)| < limit
    ensures Attempt(Some(row), now, limit) == Ok(next) && Readable(next, limit)
    ensures next.events == ActiveEvents(row.events, now) + [now]
    ensures ActiveEvents(next.events, now) == next.events
  {
    var k := ActiveIsSuffix(row.events, now);
    var active := ActiveEvents(row.events, now);
    assert active != [] ==> Last(active) == Last(row.events);
    next := Row(active + [now], now + WINDOW);
    hide ActiveEvents;
    assert Attempt(Some(row), now, limit) == Ok(next);
    AttemptIsReadable(Some(row), now, limit);
    AllActive(next.events, now);
  }

  // Steps taken after an instant of a run, all of them punctual.
  ghost predicate Follows(
      run': seq<System>, steps': seq<Step>, run: seq<System>, steps: seq<Step>, from: nat, limit: Quota) {
    && IsRun(run', steps', limit) && run <= run' && steps <= steps'
    && OnTimeBetween(run', steps', from, |steps'|)
  }

  // Fresh callers with one clock fill the row, whatever the row has forgotten.
  lemma {:induction false} FillTheRow(run: seq<System>, steps: seq<Step>, now: int, from: nat, limit: Quota)
      returns (run': seq<System>, steps': seq<Step>)
    requires IsRun(run, steps, limit) && OnTimeBetween(run, steps, from, |steps|)
    requires var s := run[|steps|];
             && s.row.Some? && Readable(s.row.value, limit) && Last(s.row.value.events) <= now && GoodTime(now)
             && |ActiveEvents(s.row.value.events, now)| < InDay(s.history, now - WINDOW)
    ensures Follows(run', steps', run, steps, from, limit)
    ensures limit < InDay(run'[|steps'|].history, now - WINDOW)
    decreases limit - |ActiveEvents(run[|steps|].row.value.events, now)|
  {
    var s := run[|steps|];
    var row := s.row.value;
    AtMostAll(row.events, now);
    hide ActiveEvents, InDay, Attempt, Next, Punctual, OnTimeBetween, Readable;
    if |ActiveEvents(row.events, now)| < limit {
      var next := RecordsAtClock(row, now, limit);
      var id := NotAmong(s.sessions.Keys);
      assert id !in s.sessions;
      var r, t := Undisturbed(run, steps, limit, id, now, next);
      OneMoreIn(s.history, now, now - WINDOW);
      run', steps' := FillTheRow(r, t, now, from, limit);
    } else {
      run', steps' := run, steps;
    }
  }

  lemma {:induction false} AtMostAll(events: seq<int>, now: int)
    ensures |ActiveEvents(events, now)| <= |events|
  {
    if events != [] { AtMostAll(events[1..], now); }
  }

  // The count of a day that contains the newest event.
  lemma {:induction false} NewestCounts(h: seq<int>, from: int)
    requires h != [] && from < Last(h) <= from + WINDOW
    ensures 0 < InDay(h, from)
  {
  }

  lemma {:induction false} OneActive(at: int, now: int)
    ensures |ActiveEvents([at], now)| == if now - WINDOW < at then 1 else 0
  {
    assert [at][1..] == [];
  }

  // What an attempt on the empty table writes.
  lemma {:induction false} FirstEvent(now: int, limit: Quota)
    requires Attempt(None, now, limit).Ok?
    ensures Attempt(None, now, limit).value == Row([now], now + WINDOW) && GoodTime(now)
    ensures Readable(Row([now], now + WINDOW), limit)
  {
    assert [] + [now] == [now];
  }

  // An insert lands on the table that has forgotten an event less than a day older or any newer.
  lemma {:induction false} LateInsert(run: seq<System>, steps: seq<Step>, id: int, from: nat, limit: Quota)
      returns (run': seq<System>, steps': seq<Step>, day: int)
    requires IsRun(run, steps, limit) && OnTimeBetween(run, steps, from, |steps|)
    requires var s := run[|steps|];
             && s.row.None? && s.history != [] && GoodTime(Last(s.history)) && id in s.sessions
             && var c := s.sessions[id].caller;
                c.Writing? && c.snapshot.None? && Attempt(None, c.now, limit) == Ok(c.next)
                && c.now < Last(s.history) + WINDOW
    ensures Follows(run', steps', run, steps, from, limit)
    ensures limit < InDay(run'[|steps'|].history, day)
  {
    var s := run[|steps|];
    var c := s.sessions[id].caller;
    FirstEvent(c.now, limit);
    hide InDay, Attempt, Next, OnTimeBetween, ActiveEvents, Readable;
    var s' := WritesNext(s, id, limit);
    Extend(run, steps, Writes(id), s', limit);
    var clock := Max(c.now, Last(s.history));
    day := clock - WINDOW;
    assert Punctual(s, Writes(id));
    NewestCounts(s.history, day);
    OneMoreIn(s.history, c.now, day);
    OneActive(c.now, clock);
    run', steps' := FillTheRow(run + [s'], steps + [Writes(id)], clock, from, limit);
  }

  // A late cleanup leaves an insert under way, and a late reading prepares one.
  lemma {:induction false} LateStep(s: System, step: Step, s': System, limit: Quota) returns (id: int)
    requires Inv(s, limit) && Next(s, step, s', limit) && !Punctual(s, step)
    ensures s'.row.None? && s'.history == s.history != [] && GoodTime(Last(s.history)) && id in s'.sessions
    ensures var c := s'.sessions[id].caller;
            c.Writing? && c.snapshot.None? && Attempt(None, c.now, limit) == Ok(c.next)
            && c.now < Last(s.history) + WINDOW
  {
    match step
    case Reads(i, now) =>
      id := i;
      assert [][0..] + [now] == [now];
      hide FewCleanups, StillInside;
      assert Attempt(None, now, limit).Ok?;
    case Cleans(_) =>
      ExpiryIsNewest(s, limit);
      id :| id in s.sessions && s.sessions[id].caller.Writing? && s.sessions[id].caller.snapshot.None?
            && s.sessions[id].caller.now < s.row.value.expiresAt;
      hide FewCleanups, Attempt;
      assert SessionInv(s, s.sessions[id], limit);
  }

  /**
   * After any reachable state, every step that is possible but not punctual can be followed by
   * punctual steps alone that record more than the quota in 24 hours.
   */
  lemma {:induction false} LateStepBreaksQuota(
      run: seq<System>, steps: seq<Step>, step: Step, s': System, limit: Quota)
      returns (run': seq<System>, steps': seq<Step>, day: int)
    requires IsRun(run, steps, limit) && OnTime(run, steps, |steps|) && Next(run[|steps|], step, s', limit)
    requires !Punctual(run[|steps|], step)
    ensures Follows(run', steps', run + [s'], steps + [step], |steps| + 1, limit)
    ensures limit < InDay(run'[|steps'|].history, day)
  {
    RunKeepsInv(run, steps, limit, |steps|);
    hide Inv, Next, Punctual, InDay;
    var id := LateStep(run[|steps|], step, s', limit);
    Extend(run, steps, step, s', limit);
    run', steps', day := LateInsert(run + [s'], steps + [step], id, |steps| + 1, limit);
  }

  // Nothing punctual that follows a step ever exceeds the quota.
  ghost predicate Safe(run: seq<System>, steps: seq<Step>, from: nat, limit: Quota) {
    forall run': seq<System>, steps': seq<Step> ::
      Follows(run', steps', run, steps, from, limit) ==> WithinQuota(run'[|steps'|].history, limit)
  }

  /** A step keeps the quota safe exactly if it is punctual. */
  lemma {:induction false} PunctualIffSafe(
      run: seq<System>, steps: seq<Step>, step: Step, s': System, limit: Quota)
    requires IsRun(run, steps, limit) && OnTime(run, steps, |steps|) && Next(run[|steps|], step, s', limit)
    ensures Punctual(run[|steps|], step) <==> Safe(run + [s'], steps + [step], |steps| + 1, limit)
  {
    hide Next, Punctual, InDay;
    if Punctual(run[|steps|], step) {
      forall run': seq<System>, steps': seq<Step> |
        Follows(run', steps', run + [s'], steps + [step], |steps| + 1, limit)
        ensures WithinQuota(run'[|steps'|].history, limit)
      {
        OnTimeThroughout(run', steps', run, steps, step, s', limit);
        forall day ensures InDay(run'[|steps'|].history, day) <= limit {
          QuotaInDay(run', steps', limit, day);
        }
      }
    } else {
      var run', steps', day := LateStepBreaksQuota(run, steps, step, s', limit);
      assert !(InDay(run'[|steps'|].history, day) <= limit);
      assert !WithinQuota(run'[|steps'|].history, limit);
    }
  }

  lemma {:induction false} QuotaInDay(run: seq<System>, steps: seq<Step>, limit: Quota, day: int)
    requires IsRun(run, steps, limit) && OnTime(run, steps, |steps|)
    ensures InDay(run[|steps|].history, day) <= limit
  {
    hide OnTime;
    QuotaHolds(run, steps, limit, |steps|, day);
  }

  lemma {:induction false} OnTimeThroughout(
      run': seq<System>, steps': seq<Step>, run: seq<System>, steps: seq<Step>, step: Step, s': System, limit: Quota)
    requires IsRun(run, steps, limit) && OnTime(run, steps, |steps|) && Punctual(run[|steps|], step)
    requires Follows(run', steps', run + [s'], steps + [step], |steps| + 1, limit)
    ensures OnTime(run', steps', |steps'|)
  {
    hide Next, Punctual;
    forall i | 0 <= i < |steps'| ensures Punctual(run'[i], steps'[i]) {
      if i <= |steps| {
        assert run'[i] == (run + [s'])[i] && steps'[i] == (steps + [step])[i];
      }
    }
  }
}
