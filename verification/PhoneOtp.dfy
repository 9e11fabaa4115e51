/**
 * One-time codes: any number of callers try codes against stored challenges. A wrong code
 * spends one of three attempts, a right one consumes the challenge, and both happen by
 * compare-and-swap on one row.
 */
module PhoneOtp {
  import opened Prelude

  const MAX_ATTEMPTS := 3
  const MAX_RETRIES := 3

  // The stored digest of a code; distinct codes have distinct digests.
  datatype Digest = Digest(code: string)

  // A stored value: digest and failed attempts so far, or something that does not parse.
  datatype Value = Hashed(hash: Digest, attempts: nat) | Malformed(text: string)

  datatype Challenge = Challenge(value: Value, expiresAt: int)

  predicate SixDigits(code: string) {
    |code| == 6 && forall i :: 0 <= i < 6 ==> '0' <= code[i] <= '9'
  }

  predicate Correct(code: string, hash: Digest) { SixDigits(code) && hash == Digest(code) }

  datatype Why = NoChallenge | BadFormat | ExpiredAt(clock: int) | Gone | TooManyAttempts | OtherHash

  // A caller fixes the row and digest it works on before its first attempt; code is what it was
  // given, correct whether that is right.
  datatype Generation = Generation(id: int, hash: Digest, code: string, correct: bool)

  // miss: why the latest lost swap was lost, if the row was no longer there or had expired.
  datatype Caller =
    | Idle(code: string)
    | Trying(gen: Generation, retry: nat, current: Option<Challenge>, miss: Option<Why>)
    | Swapping(gen: Generation, retry: nat, seen: Challenge, miss: Option<Why>)
    | Reloading(gen: Generation, retry: nat, miss: Option<Why>)
    | Accepted(gen: Generation)
    | Spent(gen: Generation)
    | Refused(begun: Option<Generation>, why: Why)

  /* ----- The steps of one caller ----- */

  function OnBegin(code: string, newest: Option<(int, Challenge)>, clock: int): Caller {
    if newest.None? then Refused(None, NoChallenge)
    else
      var (id, row) := newest.value;
      if row.expiresAt <= clock then Refused(None, ExpiredAt(clock))
      else if row.value.Malformed? then Refused(None, BadFormat)
      else Trying(Generation(id, row.value.hash, code, Correct(code, row.value.hash)), 0, Some(row), None)
  }

  function OnCheck(c: Caller, clock: int): Caller
    requires c.Trying?
  {
    if c.current.None? then Refused(Some(c.gen), Gone)
    else
      var row := c.current.value;
      if row.expiresAt <= clock then Refused(Some(c.gen), ExpiredAt(clock))
      else if row.value.Malformed? || row.value.hash != c.gen.hash then Refused(Some(c.gen), OtherHash)
      else if row.value.attempts >= MAX_ATTEMPTS then Refused(Some(c.gen), TooManyAttempts)
      else Swapping(c.gen, c.retry, row, c.miss)
  }

  // What a swap writes: nothing once the code is right or the attempts are used up.
  function Swapped(gen: Generation, row: Challenge): Option<Challenge>
    requires row.value.Hashed?
  {
    if gen.correct || row.value.attempts + 1 >= MAX_ATTEMPTS then None
    else Some(row.(value := Hashed(gen.hash, row.value.attempts + 1)))
  }

  // The guard of the swap: same value, not expired.
  predicate SwapApplies(seen: Challenge, stored: Option<Challenge>, clock: int) {
    stored.Some? && stored.value.value == seen.value && stored.value.expiresAt > clock
  }

  function OnSwap(c: Caller, stored: Option<Challenge>, clock: int): Caller
    requires c.Swapping?
  {
    if SwapApplies(c.seen, stored, clock) then
      if c.gen.correct then Accepted(c.gen) else Spent(c.gen)
    else if stored.None? then Reloading(c.gen, c.retry, Some(Gone))
    else if stored.value.expiresAt <= clock then Reloading(c.gen, c.retry, Some(ExpiredAt(clock)))
    else Reloading(c.gen, c.retry, c.miss)
  }

  function OnReload(c: Caller, stored: Option<Challenge>): Caller
    requires c.Reloading?
  {
    if c.retry + 1 < MAX_RETRIES then Trying(c.gen, c.retry + 1, stored, c.miss)
    else Refused(Some(c.gen), if c.miss.Some? then c.miss.value else TooManyAttempts)
  }

  /* ----- All callers ----- */

  // What became of a challenge, for the record.
  datatype Fate = Live | Consumed(winner: int) | LockedOut | Removed

  // Besides the rows: each challenge as it was sent, what became of it, and how many swaps
  // changed it.
  datatype System = System(
    rows: map<int, Challenge>, newest: Option<int>,
    sent: map<int, Challenge>, fate: map<int, Fate>, changes: map<int, nat>, callers: map<int, Caller>)

  const INITIAL := System(map[], None, map[], map[], map[], map[])

  function Stored(s: System, id: int): Option<Challenge> {
    if id in s.rows then Some(s.rows[id]) else None
  }

  function Newest(s: System): Option<(int, Challenge)> {
    if s.newest.Some? && s.newest.value in s.rows then Some((s.newest.value, s.rows[s.newest.value])) else None
  }

  // A (re)sent code is a new row with a new id.
  ghost predicate Send(s: System, s': System, id: int, row: Challenge) {
    && id !in s.sent
    && s' == s.(rows := s.rows[id := row], newest := Some(id), sent := s.sent[id := row],
                fate := s.fate[id := Live], changes := s.changes[id := 0])
  }

  // Cleanup, or a resend that replaces what it finds.
  ghost predicate Remove(s: System, s': System, id: int, newest: Option<int>) {
    && id in s.rows
    && s' == s.(rows := s.rows - {id}, newest := newest, fate := s.fate[id := Removed])
  }

  ghost predicate Enter(s: System, s': System, c: int, code: string) {
    c !in s.callers && s' == s.(callers := s.callers[c := Idle(code)])
  }

  // The calls that change no row.
  function Moved(s: System, c: int, clock: int): Caller
    requires c in s.callers && (s.callers[c].Idle? || s.callers[c].Trying? || s.callers[c].Reloading?)
  {
    match s.callers[c]
    case Idle(code) => OnBegin(code, Newest(s), clock)
    case Trying(_, _, _, _) => OnCheck(s.callers[c], clock)
    case Reloading(gen, _, _) => OnReload(s.callers[c], Stored(s, gen.id))
  }

  ghost predicate Look(s: System, s': System, c: int, clock: int) {
    && c in s.callers && (s.callers[c].Idle? || s.callers[c].Trying? || s.callers[c].Reloading?)
    && s' == s.(callers := s.callers[c := Moved(s, c, clock)])
  }

  ghost predicate Swap(s: System, s': System, c: int, clock: int) {
    && c in s.callers && s.callers[c].Swapping? && s.callers[c].seen.value.Hashed?
    && var gen, seen := s.callers[c].gen, s.callers[c].seen;
       var callers := s.callers[c := OnSwap(s.callers[c], Stored(s, gen.id), clock)];
       if SwapApplies(seen, Stored(s, gen.id), clock) && gen.id in s.changes then
         var next := Swapped(gen, s.rows[gen.id]);
         s' == s.(
           rows := if next.Some? then s.rows[gen.id := next.value] else s.rows - {gen.id},
           fate := if next.Some? then s.fate else s.fate[gen.id := if gen.correct then Consumed(c) else LockedOut],
           changes := s.changes[gen.id := s.changes[gen.id] + 1],
           callers := callers)
       else s' == s.(callers := callers)
  }

  /** A caller begins with the newest challenge, if it is there, parses and has not expired. */
  lemma {:induction false} PicksNewest(s: System, s': System, c: int, clock: int)
    requires Look(s, s', c, clock) && s.callers[c].Idle?
    ensures c in s'.callers && s'.rows == s.rows
    ensures var picked := && s.newest.Some? && s.newest.value in s.rows
                          && clock < s.rows[s.newest.value].expiresAt && s.rows[s.newest.value].value.Hashed?;
            if picked then
              var row, after := s.rows[s.newest.value], s'.callers[c];
              && after.Trying? && after.retry == 0 && after.current == Some(row)
              && after.gen.id == s.newest.value && after.gen.hash == row.value.hash
              && after.gen.code == s.callers[c].code
            else s'.callers[c].Refused?
  {
  }

  /**
   * A swap finds the value it saw, unexpired, or changes nothing. A right code takes the row
   * away; a wrong one adds an attempt, and the third takes the row away too.
   */
  lemma {:induction false} SwapDoes(s: System, s': System, c: int, clock: int)
    requires Swap(s, s', c, clock) && s.rows.Keys <= s.changes.Keys
    ensures c in s'.callers
    ensures var gen, seen := s.callers[c].gen, s.callers[c].seen;
            if gen.id in s.rows && s.rows[gen.id].value == seen.value && clock < s.rows[gen.id].expiresAt then
              var row := s.rows[gen.id];
              && s'.callers[c] == (if gen.correct then Accepted(gen) else Spent(gen))
              && s'.rows == if gen.correct || row.value.attempts >= 2 then s.rows - {gen.id}
                            else s.rows[gen.id := row.(value := Hashed(gen.hash, row.value.attempts + 1))]
            else s'.rows == s.rows && s'.callers[c].Reloading? && s'.callers[c].retry == s.callers[c].retry
  {
  }

  ghost predicate Next(s: System, s': System) {
    || (exists id, row :: Send(s, s', id, row))
    || (exists id, newest :: Remove(s, s', id, newest))
    || (exists c, code :: Enter(s, s', c, code))
    || (exists c, clock :: Look(s, s', c, clock))
    || (exists c, clock :: Swap(s, s', c, clock))
  }

  ghost predicate IsRun(run: seq<System>) {
    run != [] && run[0] == INITIAL && forall i :: 0 <= i < |run| - 1 ==> Next(run[i], run[i + 1])
  }

  /* ----- The invariant ----- */

  // A stored row is the sent one with its changes counted; three changes end it.
  ghost predicate RowInv(s: System, id: int)
    requires id in s.sent && id in s.fate && id in s.changes
  {
    && (id in s.rows <==> s.fate[id].Live?)
    && s.changes[id] <= MAX_ATTEMPTS
    && (id in s.rows ==>
          && s.rows[id].expiresAt == s.sent[id].expiresAt
          && if s.changes[id] == 0 then s.rows[id] == s.sent[id]
             else s.sent[id].value.Hashed?
                  && s.rows[id].value == Hashed(s.sent[id].value.hash, s.sent[id].value.attempts + s.changes[id])
                  && s.rows[id].value.attempts < MAX_ATTEMPTS)
    && (s.fate[id].Consumed? ==>
          var w := s.fate[id].winner;
          w in s.callers && s.callers[w].Accepted? && s.callers[w].gen.id == id)
    && (s.fate[id].LockedOut? ==>
          s.sent[id].value.Hashed? && s.sent[id].value.attempts + s.changes[id] == MAX_ATTEMPTS)
  }

  // The callers whose swap changed a row.
  ghost function Changers(callers: map<int, Caller>, id: int): set<int> {
    set c | c in callers && (callers[c].Accepted? || callers[c].Spent?) && callers[c].gen.id == id
  }

  ghost predicate GenInv(s: System, gen: Generation) {
    && gen.id in s.sent && gen.id in s.fate && gen.id in s.changes
    && s.sent[gen.id].value.Hashed? && s.sent[gen.id].value.hash == gen.hash
    && gen.correct == Correct(gen.code, gen.hash)
  }

  // A copy of a row is a former state of it.
  ghost predicate Earlier(s: System, gen: Generation, copy: Challenge)
    requires GenInv(s, gen)
  {
    && copy.expiresAt == s.sent[gen.id].expiresAt
    && copy.value.Hashed? && copy.value.hash == gen.hash
    && s.sent[gen.id].value.attempts <= copy.value.attempts <= s.sent[gen.id].value.attempts + s.changes[gen.id]
  }

  ghost predicate MissInv(s: System, gen: Generation, miss: Option<Why>)
    requires GenInv(s, gen)
  {
    match miss
    case None => true
    case Some(ExpiredAt(clock)) => s.sent[gen.id].expiresAt <= clock
    case Some(why) => why.Gone? && !s.fate[gen.id].Live?
  }

  // Each lost swap that found the row still alive means somebody else spent an attempt.
  ghost predicate CallerInv(s: System, c: int, caller: Caller) {
    match caller
    case Idle(_) => true
    case Trying(gen, retry, current, miss) =>
      && GenInv(s, gen) && retry < MAX_RETRIES && MissInv(s, gen, miss)
      && (match current
          case None => !s.fate[gen.id].Live?
          case Some(row) => Earlier(s, gen, row) && (miss.None? ==> retry <= row.value.attempts)
                            && (row.value.attempts >= MAX_ATTEMPTS ==> s.sent[gen.id].value.attempts >= MAX_ATTEMPTS))
    case Swapping(gen, retry, seen, miss) =>
      && GenInv(s, gen) && retry < MAX_RETRIES && MissInv(s, gen, miss)
      && Earlier(s, gen, seen) && seen.value.attempts < MAX_ATTEMPTS
      && (miss.None? ==> retry <= seen.value.attempts)
    case Reloading(gen, retry, miss) =>
      && GenInv(s, gen) && retry < MAX_RETRIES && MissInv(s, gen, miss)
      && s.sent[gen.id].value.attempts < MAX_ATTEMPTS
      && (miss.None? ==> retry + 1 < MAX_RETRIES && retry + 1 <= s.sent[gen.id].value.attempts + s.changes[gen.id])
    case Accepted(gen) => GenInv(s, gen) && s.fate[gen.id] == Consumed(c) && gen.correct
    case Spent(gen) => GenInv(s, gen) && !gen.correct
    case Refused(None, why) => true
    case Refused(Some(gen), why) =>
      && GenInv(s, gen)
      && match why
         case ExpiredAt(clock) => s.sent[gen.id].expiresAt <= clock
         case Gone => !s.fate[gen.id].Live?
         case TooManyAttempts => s.sent[gen.id].value.attempts >= MAX_ATTEMPTS
         case _ => false
  }

  ghost predicate Inv(s: System) {
    && s.sent.Keys == s.fate.Keys == s.changes.Keys && s.rows.Keys <= s.sent.Keys
    && (forall id :: id in s.sent ==> RowInv(s, id) && |Changers(s.callers, id)| == s.changes[id])
    && (forall c :: c in s.callers ==> CallerInv(s, c, s.callers[c]))
  }

  /* ----- Every step keeps it ----- */

  // A challenge only ever moves on.
  ghost predicate Later(s: System, s': System) {
    forall id :: id in s.sent && id in s.fate && id in s.changes ==>
      && id in s'.sent && id in s'.fate && id in s'.changes
      && s'.sent[id] == s.sent[id] && s.changes[id] <= s'.changes[id]
      && (!s.fate[id].Live? ==> s'.fate[id] == s.fate[id])
  }

  lemma {:induction false} CallerSeesLater(s: System, s': System, c: int, caller: Caller)
    requires CallerInv(s, c, caller) && Later(s, s')
    ensures CallerInv(s', c, caller)
  {
  }

  lemma {:induction false} ChangersSame(callers: map<int, Caller>, c: int, caller: Caller, id: int)
    requires !caller.Accepted? && !caller.Spent?
    requires c in callers ==> !callers[c].Accepted? && !callers[c].Spent?
    ensures Changers(callers[c := caller], id) == Changers(callers, id)
  {
  }

  lemma {:induction false} LookAtRow(s: System, c: int, clock: int)
    requires Inv(s) && c in s.callers && (s.callers[c].Idle? || s.callers[c].Trying? || s.callers[c].Reloading?)
    ensures CallerInv(s, c, Moved(s, c, clock))
    ensures !Moved(s, c, clock).Accepted? && !Moved(s, c, clock).Spent?
  {
    var caller := s.callers[c];
    assert CallerInv(s, c, caller);
    if caller.Idle? {
      if Newest(s).Some? { assert RowInv(s, s.newest.value); }
    } else {
      assert RowInv(s, caller.gen.id);
    }
  }

  // A row's part of the invariant after a step that leaves its record alone.
  lemma {:induction false} RowSeesStep(s: System, s': System, id: int)
    requires id in s.sent && id in s.fate && id in s.changes && RowInv(s, id)
    requires id in s'.sent && id in s'.fate && id in s'.changes
    requires s'.sent[id] == s.sent[id] && s'.fate[id] == s.fate[id] && s'.changes[id] == s.changes[id]
    requires Stored(s', id) == Stored(s, id)
    requires s.fate[id].Consumed? ==>
               s.fate[id].winner in s'.callers &&
               (s.fate[id].winner in s.callers && s.callers[s.fate[id].winner].Accepted? ==>
                  s'.callers[s.fate[id].winner] == s.callers[s.fate[id].winner])
    ensures RowInv(s', id)
  {
  }

  lemma {:induction false} SendKeepsInv(s: System, s': System, id: int, row: Challenge)
    requires Inv(s) && Send(s, s', id, row)
    ensures Inv(s')
  {
    hide CallerInv, RowInv, Changers;
    forall i | i in s'.sent ensures RowInv(s', i) && |Changers(s'.callers, i)| == s'.changes[i] {
      if i == id {
        NoChangersYet(s, id);
        SentRow(s', id);
      } else {
        WinnerOf(s, i);
        RowSeesStep(s, s', i);
      }
    }
    forall c | c in s'.callers ensures CallerInv(s', c, s'.callers[c]) {
      CallerSeesLater(s, s', c, s.callers[c]);
    }
  }

  lemma {:induction false} SentRow(s: System, id: int)
    requires id in s.sent && id in s.fate && id in s.changes && id in s.rows
    requires s.rows[id] == s.sent[id] && s.fate[id] == Live && s.changes[id] == 0
    ensures RowInv(s, id)
  {
  }

  lemma {:induction false} WinnerOf(s: System, id: int)
    requires id in s.sent && id in s.fate && id in s.changes && RowInv(s, id)
    ensures s.fate[id].Consumed? ==> s.fate[id].winner in s.callers && s.callers[s.fate[id].winner].Accepted?
  {
  }

  lemma {:induction false} NoChangersYet(s: System, id: int)
    requires Inv(s) && id !in s.sent
    ensures Changers(s.callers, id) == {}
  {
    hide RowInv;
    forall c | c in s.callers ensures c !in Changers(s.callers, id) {
      assert CallerInv(s, c, s.callers[c]);
    }
  }

  lemma {:induction false} RemoveKeepsInv(s: System, s': System, id: int, newest: Option<int>)
    requires Inv(s) && Remove(s, s', id, newest)
    ensures Inv(s')
  {
    hide CallerInv, RowInv, Changers;
    RemovedRow(s, s', id, newest);
    forall i | i in s'.sent ensures RowInv(s', i) {
      if i != id {
        WinnerOf(s, i);
        RowSeesStep(s, s', i);
      }
    }
    forall c | c in s'.callers ensures CallerInv(s', c, s'.callers[c]) {
      CallerSeesLater(s, s', c, s.callers[c]);
    }
  }

  lemma {:induction false} RemovedRow(s: System, s': System, id: int, newest: Option<int>)
    requires id in s.sent && id in s.fate && id in s.changes && RowInv(s, id) && Remove(s, s', id, newest)
    ensures s.fate[id].Live? && RowInv(s', id)
  {
  }

  // A caller that changed no row moves on.
  lemma {:induction false} MoveKeepsInv(s: System, s': System, c: int, caller: Caller)
    requires Inv(s) && CallerInv(s, c, caller) && !caller.Accepted? && !caller.Spent?
    requires c in s.callers ==> !s.callers[c].Accepted? && !s.callers[c].Spent?
    requires s' == s.(callers := s.callers[c := caller])
    ensures Inv(s')
  {
    hide CallerInv, RowInv, Changers;
    forall i | i in s'.sent ensures RowInv(s', i) && |Changers(s'.callers, i)| == s'.changes[i] {
      ChangersSame(s.callers, c, caller, i);
      WinnerOf(s, i);
      RowSeesStep(s, s', i);
    }
    forall d | d in s'.callers ensures CallerInv(s', d, s'.callers[d]) {
      CallerSeesLater(s, s', d, s'.callers[d]);
    }
  }

  // A swap that does not apply found the row gone, expired, or with another attempt spent.
  lemma {:induction false} LostSwap(s: System, c: int, clock: int)
    requires Inv(s) && c in s.callers && s.callers[c].Swapping?
    requires !SwapApplies(s.callers[c].seen, Stored(s, s.callers[c].gen.id), clock)
    ensures CallerInv(s, c, OnSwap(s.callers[c], Stored(s, s.callers[c].gen.id), clock))
    ensures OnSwap(s.callers[c], Stored(s, s.callers[c].gen.id), clock).Reloading?
  {
    assert CallerInv(s, c, s.callers[c]);
    assert RowInv(s, s.callers[c].gen.id);
  }

  // A swap that applies counts one more change and ends the row when it has to.
  lemma {:induction false} WonSwap(s: System, s': System, c: int, clock: int)
    requires Inv(s) && Swap(s, s', c, clock)
    requires SwapApplies(s.callers[c].seen, Stored(s, s.callers[c].gen.id), clock)
    ensures var id := s.callers[c].gen.id;
            && id in s.sent && id in s.fate && id in s.changes && s.fate[id].Live?
            && s'.sent == s.sent && s'.changes == s.changes[id := s.changes[id] + 1]
            && s'.fate.Keys == s.fate.Keys && RowInv(s', id)
            && CallerInv(s', c, s'.callers[c])
            && (s'.callers[c].Accepted? || s'.callers[c].Spent?) && s'.callers[c].gen.id == id
  {
    assert CallerInv(s, c, s.callers[c]);
    assert RowInv(s, s.callers[c].gen.id);
  }

  lemma {:induction false} ChangersGrow(callers: map<int, Caller>, c: int, caller: Caller, id: int)
    requires caller.Accepted? || caller.Spent?
    requires c in callers && !callers[c].Accepted? && !callers[c].Spent?
    ensures Changers(callers[c := caller], id) == Changers(callers, id) + (if caller.gen.id == id then {c} else {})
    ensures c !in Changers(callers, id)
  {
  }

  lemma {:induction false} SwapFrame(s: System, s': System, c: int, clock: int)
    requires Inv(s) && Swap(s, s', c, clock)
    ensures s'.callers.Keys == s.callers.Keys && forall d :: d in s.callers && d != c ==> s'.callers[d] == s.callers[d]
    ensures s'.rows.Keys <= s.rows.Keys && s'.sent == s.sent
    ensures forall i :: i != s.callers[c].gen.id ==> Stored(s', i) == Stored(s, i)
    ensures forall i :: i in s.fate && i != s.callers[c].gen.id ==> i in s'.fate && s'.fate[i] == s.fate[i]
    ensures !SwapApplies(s.callers[c].seen, Stored(s, s.callers[c].gen.id), clock) ==>
              s' == s.(callers := s.callers[c := OnSwap(s.callers[c], Stored(s, s.callers[c].gen.id), clock)])
  {
    hide CallerInv, RowInv, OnSwap, Swapped;
  }

  lemma {:induction false} WonSwapKeepsInv(s: System, s': System, c: int, clock: int)
    requires Inv(s) && Swap(s, s', c, clock)
    requires SwapApplies(s.callers[c].seen, Stored(s, s.callers[c].gen.id), clock)
    ensures Inv(s')
  {
    hide CallerInv, RowInv, OnSwap, Changers, SwapApplies, Swap;
    SwapCaller(s, s', c, clock);
    var id := s.callers[c].gen.id;
    SwapFrame(s, s', c, clock);
    WonSwap(s, s', c, clock);
    assert s'.callers == s.callers[c := s'.callers[c]];
    forall i | i in s'.sent ensures RowInv(s', i) && |Changers(s'.callers, i)| == s'.changes[i] {
      ChangersGrow(s.callers, c, s'.callers[c], i);
      if i != id {
        WinnerOf(s, i);
        RowSeesStep(s, s', i);
      }
    }
    assert Later(s, s');
    forall d | d in s'.callers ensures CallerInv(s', d, s'.callers[d]) {
      if d != c { CallerSeesLater(s, s', d, s.callers[d]); }
    }
  }

  lemma {:induction false} SwapCaller(s: System, s': System, c: int, clock: int)
    requires Swap(s, s', c, clock)
    ensures c in s.callers && s.callers[c].Swapping?
  {
  }

  lemma {:induction false} SwapKeepsInv(s: System, s': System, c: int, clock: int)
    requires Inv(s) && Swap(s, s', c, clock)
    ensures Inv(s')
  {
    hide CallerInv, RowInv, OnSwap, Changers, SwapApplies, Swap, Inv;
    SwapCaller(s, s', c, clock);
    if SwapApplies(s.callers[c].seen, Stored(s, s.callers[c].gen.id), clock) {
      WonSwapKeepsInv(s, s', c, clock);
    } else {
      SwapFrame(s, s', c, clock);
      LostSwap(s, c, clock);
      MoveKeepsInv(s, s', c, OnSwap(s.callers[c], Stored(s, s.callers[c].gen.id), clock));
    }
  }

  lemma {:induction false} NextKeepsInv(s: System, s': System)
    requires Inv(s) && Next(s, s')
    ensures Inv(s')
  {
    hide Inv, Send, Remove, Swap;
    if id, row :| Send(s, s', id, row) {
      SendKeepsInv(s, s', id, row);
    } else if id, newest :| Remove(s, s', id, newest) {
      RemoveKeepsInv(s, s', id, newest);
    } else if c, code :| Enter(s, s', c, code) {
      MoveKeepsInv(s, s', c, Idle(code));
    } else if c, clock :| Look(s, s', c, clock) {
      LookAtRow(s, c, clock);
      MoveKeepsInv(s, s', c, Moved(s, c, clock));
    } else {
      var c, clock :| Swap(s, s', c, clock);
      SwapKeepsInv(s, s', c, clock);
    }
  }

  lemma {:induction false} RunKeepsInv(run: seq<System>, i: nat)
    requires IsRun(run) && i < |run|
    ensures Inv(run[i])
  {
    if i > 0 {
      RunKeepsInv(run, i - 1);
      NextKeepsInv(run[i - 1], run[i]);
    }
  }

  /* ----- What the callers can rely on ----- */

  ghost predicate AcceptedOn(s: System, c: int, id: int) {
    c in s.callers && s.callers[c].Accepted? && s.callers[c].gen.id == id
  }

  /**
   * Whatever the interleaving: a challenge changes at most three times, each change by a
   * caller of its own, and at most one caller gets a yes, which ends the challenge.
   */
  lemma {:induction false} ThreeChangesOneWinner(run: seq<System>, i: nat, id: int)
    requires IsRun(run) && i < |run| && id in run[i].sent
    ensures |Changers(run[i].callers, id)| <= MAX_ATTEMPTS
    ensures forall c, d :: AcceptedOn(run[i], c, id) && AcceptedOn(run[i], d, id) ==> c == d
    ensures (exists c :: AcceptedOn(run[i], c, id)) ==> id !in run[i].rows
  {
    RunKeepsInv(run, i);
    var s := run[i];
    assert RowInv(s, id);
    forall c | AcceptedOn(s, c, id) ensures s.fate[id] == Consumed(c) {
      assert CallerInv(s, c, s.callers[c]);
    }
  }

  /**
   * Three retries are enough: a right code is turned away only because the challenge had
   * expired by a clock of that caller, was used, locked out or removed, or was already locked
   * when it was sent.
   */
  lemma {:induction false} RightCodeRefused(run: seq<System>, i: nat, c: int)
    requires IsRun(run) && i < |run| && c in run[i].callers
    requires run[i].callers[c].Refused? && run[i].callers[c].begun.Some?
    ensures var s := run[i];
            var gen := s.callers[c].begun.value;
            && gen.id in s.sent && gen.id in s.fate && s.sent[gen.id].value.Hashed?
            && match s.callers[c].why
               case ExpiredAt(clock) => s.sent[gen.id].expiresAt <= clock
               case Gone => !s.fate[gen.id].Live?
               case TooManyAttempts => s.sent[gen.id].value.attempts >= MAX_ATTEMPTS
               case _ => false
  {
    RunKeepsInv(run, i);
    assert CallerInv(run[i], c, run[i].callers[c]);
  }

  // The right code is the six digits whose digest is stored.
  lemma {:induction false} CorrectIs(code: string, hash: Digest)
    ensures Correct(code, hash) <==>
            |code| == 6 && (forall i :: 0 <= i < 6 ==> '0' <= code[i] <= '9') && hash == Digest(code)
  {
  }

  /** A yes means that the caller's code is the one that was sent. */
  lemma {:induction false} AcceptedIsRight(run: seq<System>, i: nat, c: int)
    requires IsRun(run) && i < |run| && c in run[i].callers && run[i].callers[c].Accepted?
    ensures var gen := run[i].callers[c].gen;
            && gen.id in run[i].sent && run[i].sent[gen.id].value.Hashed?
            && run[i].sent[gen.id].value.hash == Digest(gen.code)
            && |gen.code| == 6 && forall k :: 0 <= k < 6 ==> '0' <= gen.code[k] <= '9'
  {
    RunKeepsInv(run, i);
    assert CallerInv(run[i], c, run[i].callers[c]);
    CorrectIs(run[i].callers[c].gen.code, run[i].callers[c].gen.hash);
  }

  /** An attempt is only ever spent on a code that was not sent. */
  lemma {:induction false} SpentIsWrong(run: seq<System>, i: nat, c: int)
    requires IsRun(run) && i < |run| && c in run[i].callers && run[i].callers[c].Spent?
    ensures var gen := run[i].callers[c].gen;
            && gen.id in run[i].sent && run[i].sent[gen.id].value.Hashed?
            && !(run[i].sent[gen.id].value.hash == Digest(gen.code)
                 && |gen.code| == 6 && forall k :: 0 <= k < 6 ==> '0' <= gen.code[k] <= '9')
  {
    RunKeepsInv(run, i);
    assert CallerInv(run[i], c, run[i].callers[c]);
    CorrectIs(run[i].callers[c].gen.code, run[i].callers[c].gen.hash);
  }

  // A challenge is locked out only after its full allowance of wrong codes.
  lemma {:induction false} LockedOutAfterAllowance(run: seq<System>, i: nat, id: int)
    requires IsRun(run) && i < |run| && id in run[i].sent && id in run[i].fate && run[i].fate[id].LockedOut?
    ensures run[i].sent[id].value.Hashed?
    ensures |Changers(run[i].callers, id)| == MAX_ATTEMPTS - run[i].sent[id].value.attempts
    ensures forall c :: c in Changers(run[i].callers, id) ==>
              && run[i].callers[c].Spent?
              && var code := run[i].callers[c].gen.code;
                 !(run[i].sent[id].value.hash == Digest(code)
                   && |code| == 6 && forall k :: 0 <= k < 6 ==> '0' <= code[k] <= '9')
  {
    RunKeepsInv(run, i);
    assert RowInv(run[i], id);
    forall c | c in Changers(run[i].callers, id)
      ensures run[i].callers[c].Spent?
      ensures var code := run[i].callers[c].gen.code;
              !(run[i].sent[id].value.hash == Digest(code)
                && |code| == 6 && forall k :: 0 <= k < 6 ==> '0' <= code[k] <= '9')
    {
      assert CallerInv(run[i], c, run[i].callers[c]);
      SpentIsWrong(run, i, c);
    }
  }

  /* ----- A resend is left alone ----- */

  function GenOf(c: Caller): Option<Generation> {
    match c
    case Idle(_) => None
    case Refused(begun, _) => begun
    case Trying(gen, _, _, _) => Some(gen)
    case Swapping(gen, _, _, _) => Some(gen)
    case Reloading(gen, _, _) => Some(gen)
    case Accepted(gen) => Some(gen)
    case Spent(gen) => Some(gen)
  }

  lemma {:induction false} StepKeepsGen(s: System, c: int, clock: int)
    requires c in s.callers && GenOf(s.callers[c]).Some?
    ensures s.callers[c].Trying? || s.callers[c].Reloading? ==> GenOf(Moved(s, c, clock)) == GenOf(s.callers[c])
    ensures s.callers[c].Swapping? ==>
              GenOf(OnSwap(s.callers[c], Stored(s, s.callers[c].gen.id), clock)) == GenOf(s.callers[c])
  {
    hide SwapApplies, Newest;
  }

  lemma {:induction false} SwapMovesOne(s: System, s': System, d: int, clock: int)
    requires Swap(s, s', d, clock)
    ensures s'.callers == s.callers[d := OnSwap(s.callers[d], Stored(s, s.callers[d].gen.id), clock)]
  {
    hide SwapApplies, OnSwap, Swapped;
  }

  lemma {:induction false} GenStays(s: System, s': System, c: int)
    requires Next(s, s') && c in s.callers && GenOf(s.callers[c]).Some?
    ensures c in s'.callers && GenOf(s'.callers[c]) == GenOf(s.callers[c])
  {
    hide Swap, Moved, OnSwap;
    if d, clock :| Look(s, s', d, clock) {
      StepKeepsGen(s, c, clock);
    } else if d, clock :| Swap(s, s', d, clock) {
      SwapCaller(s, s', d, clock);
      StepKeepsGen(s, c, clock);
      SwapMovesOne(s, s', d, clock);
    }
  }

  /** Whatever a caller works with, its code is the one it came with. */
  lemma {:induction false} CodeStays(run: seq<System>, i: nat, j: nat, c: int, code: string)
    requires IsRun(run) && i <= j < |run| && c in run[i].callers && run[i].callers[c] == Idle(code)
    ensures c in run[j].callers
    ensures || run[j].callers[c] == Idle(code)
            || (run[j].callers[c].Refused? && run[j].callers[c].begun.None?)
            || (GenOf(run[j].callers[c]).Some? && GenOf(run[j].callers[c]).value.code == code)
    decreases j - i
  {
    hide Next, GenOf;
    if i < j {
      CodeStays(run, i, j - 1, c, code);
      assert Next(run[j - 1], run[j]);
      CallerSteps(run[j - 1], run[j], c, code);
    }
  }

  lemma {:induction false} CallerSteps(s: System, s': System, c: int, code: string)
    requires Next(s, s') && c in s.callers
    ensures c in s'.callers
    ensures s.callers[c] == Idle(code) ==>
              || s'.callers[c] == Idle(code)
              || (s'.callers[c].Refused? && s'.callers[c].begun.None?)
              || (GenOf(s'.callers[c]).Some? && GenOf(s'.callers[c]).value.code == code)
    ensures GenOf(s.callers[c]).Some? ==> GenOf(s'.callers[c]) == GenOf(s.callers[c])
    ensures s.callers[c].Refused? ==> s'.callers[c] == s.callers[c]
  {
    if GenOf(s.callers[c]).Some? { GenStays(s, s', c); }
    hide Swap, OnSwap, OnCheck, OnReload, Newest;
    if d, clock :| Swap(s, s', d, clock) {
      SwapCaller(s, s', d, clock);
      SwapMovesOne(s, s', d, clock);
    }
  }

  lemma {:induction false} ChosenWasSent(s: System, c: int)
    requires Inv(s) && c in s.callers && GenOf(s.callers[c]).Some?
    ensures GenOf(s.callers[c]).value.id in s.sent
  {
    assert CallerInv(s, c, s.callers[c]);
    hide RowInv;
  }

  lemma {:induction false} ChangersChose(callers: map<int, Caller>, c: int, id: int)
    requires c in Changers(callers, id)
    ensures GenOf(callers[c]).Some? && GenOf(callers[c]).value.id == id
  {
  }

  /** A caller that has picked its challenge never touches one sent later. */
  lemma {:induction false} ResendUntouched(run: seq<System>, i: nat, j: nat, c: int, id: int)
    requires IsRun(run) && i <= j < |run|
    requires c in run[i].callers && GenOf(run[i].callers[c]).Some? && id !in run[i].sent
    ensures c in run[j].callers && GenOf(run[j].callers[c]) == GenOf(run[i].callers[c])
    ensures c !in Changers(run[j].callers, id)
    decreases j - i
  {
    hide Inv, Next, Changers, GenOf;
    RunKeepsInv(run, i);
    ChosenWasSent(run[i], c);
    if i < j {
      ResendUntouched(run, i, j - 1, c, id);
      assert Next(run[j - 1], run[j]);
      GenStays(run[j - 1], run[j], c);
    }
    if c in Changers(run[j].callers, id) { ChangersChose(run[j].callers, c, id); }
  }

  /* ----- The caller's loop ----- */

  class ChallengeTable {
    var rows: map<int, Challenge>

    constructor ()
      ensures rows == map[]
    {
      rows := map[];
    }

    method FindOne(id: int) returns (row: Option<Challenge>)
      ensures row == if id in rows then Some(rows[id]) else None
    {
      row := if id in rows then Some(rows[id]) else None;
    }

    // Delete where id, value and remaining lifetime match.
    method ConsumeOne(id: int, value: Value, clock: int) returns (consumed: bool)
      modifies this
      ensures consumed == (id in old(rows) && old(rows)[id].value == value && old(rows)[id].expiresAt > clock)
      ensures rows == if consumed then old(rows) - {id} else old(rows)
    {
      consumed := id in rows && rows[id].value == value && rows[id].expiresAt > clock;
      if consumed { rows := rows - {id}; }
    }

    // Replace the value under the same guard.
    method IncrementOne(id: int, value: Value, clock: int, next: Value) returns (updated: bool)
      modifies this
      ensures updated == (id in old(rows) && old(rows)[id].value == value && old(rows)[id].expiresAt > clock)
      ensures rows == if updated then old(rows)[id := old(rows)[id].(value := next)] else old(rows)
    {
      updated := id in rows && rows[id].value == value && rows[id].expiresAt > clock;
      if updated { rows := rows[id := rows[id].(value := next)]; }
    }

    // Whatever other callers, resends and cleanups leave behind.
    method Become(left: map<int, Challenge>)
      modifies this
      ensures rows == left
    {
      rows := left;
    }
  }

  // Clock readings and tables one caller meets at its checks, swaps and reloads.
  datatype Schedule = Schedule(
    checks: seq<int>, swaps: seq<int>, atSwap: seq<map<int, Challenge>>, atReload: seq<map<int, Challenge>>)

  predicate Full(w: Schedule) { |w.checks| == |w.swaps| == |w.atSwap| == |w.atReload| == 3 }

  // One caller's path through the state machine.
  function Path(c: Caller, rows: map<int, Challenge>, w: Schedule): (Caller, map<int, Challenge>)
    requires Full(w) && c.Trying? && c.retry < MAX_RETRIES
    decreases MAX_RETRIES - c.retry
  {
    var k := OnCheck(c, w.checks[c.retry]);
    if !k.Swapping? then (k, rows)
    else
      var id, found := c.gen.id, w.atSwap[c.retry];
      var stored := if id in found then Some(found[id]) else None;
      var swapped := OnSwap(k, stored, w.swaps[c.retry]);
      if SwapApplies(k.seen, stored, w.swaps[c.retry]) then
        var next := Swapped(c.gen, found[id]);
        (swapped, if next.Some? then found[id := next.value] else found - {id})
      else
        var later: map<int, Challenge> := w.atReload[c.retry];
        var again := OnReload(swapped, if id in later then Some(later[id]) else None);
        if again.Trying? then Path(again, later, w) else (again, later)
  }

  lemma {:induction false} PathAcceptsOnlyRight(c: Caller, rows: map<int, Challenge>, w: Schedule)
    requires Full(w) && c.Trying? && c.retry < MAX_RETRIES
    ensures Path(c, rows, w).0.Accepted? ==> c.gen.correct
    decreases MAX_RETRIES - c.retry
  {
    hide SwapApplies;
    var k := OnCheck(c, w.checks[c.retry]);
    if k.Swapping? {
      var id, found, later := c.gen.id, w.atSwap[c.retry], w.atReload[c.retry];
      var stored := if id in found then Some(found[id]) else None;
      if !SwapApplies(k.seen, stored, w.swaps[c.retry]) {
        var swapped := OnSwap(k, stored, w.swaps[c.retry]);
        var again := OnReload(swapped, if id in later then Some(later[id]) else None);
        if again.Trying? { PathAcceptsOnlyRight(again, later, w); }
      }
    }
  }

  // A row of the caller's own challenge, unexpired and with an attempt left.
  predicate LiveRow(gen: Generation, row: Challenge, clock: int) {
    clock < row.expiresAt && row.value.Hashed? && row.value.hash == gen.hash && row.value.attempts < 3
  }

  ghost predicate FindsLive(c: Caller, w: Schedule, j: nat)
    requires Full(w) && c.Trying? && c.retry <= j < 3
  {
    if j == c.retry then c.current.Some? && LiveRow(c.gen, c.current.value, w.checks[j])
    else c.gen.id in w.atReload[j - 1] && LiveRow(c.gen, w.atReload[j - 1][c.gen.id], w.checks[j])
  }

  // By the time of the swap at try j the row is gone, has changed, or has expired.
  ghost predicate LosesSwap(c: Caller, w: Schedule, j: nat)
    requires Full(w) && c.Trying? && c.retry <= j < 3 && FindsLive(c, w, j)
  {
    var row := if j == c.retry then c.current.value else w.atReload[j - 1][c.gen.id];
    || c.gen.id !in w.atSwap[j] || w.atSwap[j][c.gen.id].value != row.value
    || w.atSwap[j][c.gen.id].expiresAt <= w.swaps[j]
  }

  /** Each of the three tries counts: the first swap that is not lost decides the answer. */
  lemma {:induction false} EveryTryCounts(c: Caller, rows: map<int, Challenge>, w: Schedule, n: nat)
    requires Full(w) && c.Trying? && c.retry <= n < 3
    requires forall j :: c.retry <= j <= n ==> FindsLive(c, w, j) && (LosesSwap(c, w, j) <==> j < n)
    ensures Path(c, rows, w).0 == if c.gen.correct then Accepted(c.gen) else Spent(c.gen)
    decreases n - c.retry
  {
    assert FindsLive(c, w, c.retry) && (LosesSwap(c, w, c.retry) <==> c.retry < n);
    if c.retry < n {
      var id, k, found, later := c.gen.id, OnCheck(c, w.checks[c.retry]), w.atSwap[c.retry], w.atReload[c.retry];
      var swapped := OnSwap(k, if id in found then Some(found[id]) else None, w.swaps[c.retry]);
      var again := OnReload(swapped, if id in later then Some(later[id]) else None);
      forall j | again.retry <= j <= n ensures FindsLive(again, w, j) && (LosesSwap(again, w, j) <==> j < n) {
        assert FindsLive(c, w, j) && (LosesSwap(c, w, j) <==> j < n);
      }
      EveryTryCounts(again, w.atReload[c.retry], w, n);
    }
  }

  // What one call answers, and what an undisturbed one leaves behind.
  ghost predicate AnswerIs(
      rows: map<int, Challenge>, code: string, newest: int, clock: int, w: Schedule, ok: bool, left: map<int,
          Challenge>)
    requires Full(w)
  {
    var found := if newest in rows then Some((newest, rows[newest])) else None;
    var begun := OnBegin(code, found, clock);
    if begun.Trying? then ok == Path(begun, rows, w).0.Accepted? && left == Path(begun, rows, w).1
    else !ok && left == rows
  }

  /** A yes is given only to the six digits whose digest the row holds, and before it expires. */
  lemma {:induction false} YesOnlyToRightCode(
      rows: map<int, Challenge>, code: string, newest: int, clock: int, w: Schedule, ok: bool, left: map<int,
          Challenge>)
    requires Full(w) && AnswerIs(rows, code, newest, clock, w, ok, left)
    ensures ok ==>
              && newest in rows && clock < rows[newest].expiresAt
              && rows[newest].value.Hashed? && rows[newest].value.hash == Digest(code)
              && |code| == 6 && forall k :: 0 <= k < 6 ==> '0' <= code[k] <= '9'
  {
    var found := if newest in rows then Some((newest, rows[newest])) else None;
    var begun := OnBegin(code, found, clock);
    hide Path;
    if begun.Trying? {
      PathAcceptsOnlyRight(begun, rows, w);
      CorrectIs(code, begun.gen.hash);
    }
  }

  /**
   * A call that nobody disturbs, before expiry and with an attempt left, is answered yes exactly
   * if the code is right. The right code uses the challenge up; a wrong one spends an attempt, and
   * the third wrong one removes the challenge.
   */
  lemma {:induction false} UndisturbedAnswer(
      rows: map<int, Challenge>, code: string, newest: int, clock: int, w: Schedule, ok: bool, left: map<int,
          Challenge>)
    requires Full(w) && AnswerIs(rows, code, newest, clock, w, ok, left)
    requires newest in rows && rows[newest].value.Hashed? && rows[newest].value.attempts < 3
    requires clock < rows[newest].expiresAt && w.checks[0] < rows[newest].expiresAt
    requires w.swaps[0] < rows[newest].expiresAt && w.atSwap[0] == rows
    ensures var v := rows[newest].value;
            var right := v.hash == Digest(code) && |code| == 6 && forall k :: 0 <= k < 6 ==> '0' <= code[k] <= '9';
            && ok == right
            && left == if right || v.attempts == 2 then rows - {newest}
                       else rows[newest := rows[newest].(value := Hashed(v.hash, v.attempts + 1))]
  {
    CorrectIs(code, rows[newest].value.hash);
    hide Correct;
  }

  // What a yes says about the row and the code.
  ghost predicate RightFor(rows: map<int, Challenge>, code: string, newest: int, clock: int) {
    && newest in rows && clock < rows[newest].expiresAt
    && rows[newest].value.Hashed? && rows[newest].value.hash == Digest(code)
    && |code| == 6 && forall k :: 0 <= k < 6 ==> '0' <= code[k] <= '9'
  }

  lemma {:induction false} YesIsRight(rows: map<int, Challenge>, code: string, newest: int, clock: int, w: Schedule)
    requires Full(w)
    ensures forall left :: AnswerIs(rows, code, newest, clock, w, true, left) ==> RightFor(rows, code, newest, clock)
  {
    hide AnswerIs;
    forall left | AnswerIs(rows, code, newest, clock, w, true, left) ensures RightFor(rows, code, newest, clock) {
      YesOnlyToRightCode(rows, code, newest, clock, w, true, left);
    }
  }

  /** The verification loop takes the state machine's steps, and answers yes only to the right code. */
  method ConsumeOtp(store: ChallengeTable, code: string, newest: int, clock: int, w: Schedule) returns (ok: bool)
    requires Full(w)
    modifies store
    ensures AnswerIs(old(store.rows), code, newest, clock, w, ok, store.rows)
    ensures ok ==> RightFor(old(store.rows), code, newest, clock)
  {
    YesIsRight(store.rows, code, newest, clock, w);
    hide SwapApplies, Correct, RightFor;
    var first := store.FindOne(newest);
    if first.None? || first.value.expiresAt <= clock || first.value.value.Malformed? { return false; }
    var current := first;
    var gen := Generation(newest, first.value.value.hash, code, Correct(code, first.value.value.hash));
    ghost var miss: Option<Why> := None;
    ghost var begun := Trying(gen, 0, current, None);
    for retry := 0 to MAX_RETRIES
      invariant retry < MAX_RETRIES ==>
                  Path(Trying(gen, retry, current, miss), store.rows, w) == Path(begun, old(store.rows), w)
      invariant retry == MAX_RETRIES ==>
                  !Path(begun, old(store.rows), w).0.Accepted? && store.rows == Path(begun, old(store.rows), w).1
    {
      if current.None? || current.value.expiresAt <= w.checks[retry] { return false; }
      var row := current.value;
      if row.value.Malformed? || row.value.hash != gen.hash || row.value.attempts >= MAX_ATTEMPTS { return false; }
      store.Become(w.atSwap[retry]);
      ghost var stored := if newest in store.rows then Some(store.rows[newest]) else None;
      ghost var swapping := Swapping(gen, retry, row, miss);
      assert SwapApplies(row, stored, w.swaps[retry]) <==>
             newest in store.rows && store.rows[newest].value == row.value
                 && store.rows[newest].expiresAt > w.swaps[retry]
        by { SwapGuard(row, stored, w.swaps[retry]); }
      var attempts := row.value.attempts + 1;
      var changed: bool;
      if gen.correct || attempts >= MAX_ATTEMPTS {
        changed := store.ConsumeOne(newest, row.value, w.swaps[retry]);
      } else {
        changed := store.IncrementOne(newest, row.value, w.swaps[retry], Hashed(gen.hash, attempts));
      }
      if changed { return gen.correct; }
      miss := OnSwap(swapping, stored, w.swaps[retry]).miss;
      store.Become(w.atReload[retry]);
      current := store.FindOne(newest);
    }
    return false;
  }

  lemma {:induction false} SwapGuard(seen: Challenge, stored: Option<Challenge>, clock: int)
    ensures SwapApplies(seen, stored, clock) <==>
            stored.Some? && stored.value.value == seen.value && stored.value.expiresAt > clock
  {
  }
}
