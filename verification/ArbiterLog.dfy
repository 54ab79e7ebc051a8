/** What the host arbiter promises, stated on values: the state that calls are compared
    by, the trace of what it delivers and answers, and how both may grow. */
module ArbiterLog {
  import opened Wrappers
  import opened Deadline
  import opened Sink
  import opened Waiters
  import opened Capability

  datatype ArbiterState = Idle | Queued | Draining

  datatype TurnCounters = TurnCounters(requests: nat, queuedNow: nat, executions: nat)

  datatype RunState = TrueIdle(native: Option<nat>) | FairnessYield

  /** What the scheduler does in one drain, and how the host answers at its end. */
  datatype Turn = Turn(
    writes: seq<Write>, capabilityCalls: seq<nat>,
    cancellations: seq<nat>, schedules: seq<Schedule>, now: nat,
    outcome: RunState, exited: seq<nat>, errored: seq<nat>,
    replies: Replies, queueOk: bool)

  /** A scheduler sync between drains. */
  datatype Sync = Sync(cancellations: seq<nat>, schedules: seq<Schedule>, now: nat, replies: Replies, edge: bool,
                       queueOk: bool)

  /** One call into the VM, from the host or from inside a callback. */
  datatype HostOp =
    | RunStep(turn: Turn)
    | AwaitExit(pid: nat, runnable: bool)
    | SendMessage(sync: Sync)
    | TimerFired(timerId: nat, sync: Sync)
    | Spawn(edge: bool, queueOk: bool, infallible: bool)
    | RegisterSink
    | RegisterFailureCallback
    | TakeExitResult(pid: nat)
    | TakeExitError(pid: nat)

  /** What one callback invocation does, and whether it then throws. */
  datatype Script = Script(ops: seq<HostOp>, throws: bool)

  /** One thing the arbiter did towards the host: a write delivered, a waiter answered
      (with the state it was answered in), an abort hook or the failure callback called. */
  datatype TraceEvent =
    | Wrote(write: Write, channel: Channel)
    | Told(id: nat, answer: Waiters.Answer, deadlinePending: bool, state: ArbiterState)
    | AbortHook(token: nat)
    | FailurePushed

  /** The part of the state that calls are compared by. `owed` are the aborted requests
      whose hooks are still to be called, `hookTurns` counts the idle observations before
      which a hook had left a turn queued. */
  datatype Core = Core(state: ArbiterState, ignored: nat, counters: TurnCounters, outstanding: nat,
                       latched: bool, book: Book, trace: seq<TraceEvent>, stale: bool, troubled: bool,
                       scripts: seq<Script>, ledger: Ledger, issued: nat, owed: set<nat>, hookTurns: nat,
                       records: map<nat, ReceiveDeadline>, native: Option<nat>)

  predicate Pending(s: Core) {
    s.native.Some? || s.records != map[]
  }

  /** Between calls, history only grows, the latch never empties, and no completion lands. */
  ghost predicate Grows(s: Core, t: Core) {
    && (s.latched ==> t.latched) && Keeps(s.book, t.book) && s.trace <= t.trace
    && t.counters.executions == s.counters.executions && (s.troubled ==> t.troubled)
    && LedgerGrows(s.ledger, t.ledger) && t.ledger.taken == s.ledger.taken && t.ledger.completed == s.ledger.completed
    && s.issued <= t.issued && t.owed == s.owed && s.hookTurns <= t.hookTurns
  }

  /** While a drain is under way, a re-entrant call only registers waiters and updates
      deadlines: it settles nobody, moves no turn and invokes no further callback. */
  ghost predicate Follows(s: Core, t: Core) {
    && Grows(s, t)
    && (s.state == Draining ==>
          && t == s.(book := t.book, stale := t.stale, troubled := t.troubled, records := t.records)
          && t.book.settled == s.book.settled && (t.stale ==> s.stale))
    && (s.state != Draining ==> t.state != Draining)
  }

  lemma GrowsRefl(s: Core)
    ensures Grows(s, s) && Follows(s, s)
  {
  }

  lemma FollowsTrans(s: Core, t: Core, u: Core)
    requires Follows(s, t) && Follows(t, u)
    ensures Follows(s, u)
  {
  }

  lemma GrowsTrans(s: Core, t: Core, u: Core)
    requires Grows(s, t) && Grows(t, u)
    ensures Grows(s, u)
  {
  }

  function Rest(scripts: seq<Script>): seq<Script> {
    if scripts == [] then [] else scripts[1..]
  }

  predicate ThrowsFirst(scripts: seq<Script>) {
    scripts != [] && scripts[0].throws
  }

  /** The state in which the next callback runs: its script has been taken. */
  function Invoked(s: Core): Core {
    s.(scripts := Rest(s.scripts))
  }

  /** One more host callback is outstanding and the machine is queued. */
  function WithTurn(s: Core): Core {
    s.(state := Queued, outstanding := s.outstanding + 1,
       counters := s.counters.(requests := s.counters.requests + 1, queuedNow := 1))
  }

  /** What a granted turn request does: nothing unless idle. */
  function Asked(s: Core): Core {
    if s.state == Idle then WithTurn(s) else s
  }

  /** Each callback the host owes is either to be ignored or is the queued turn. */
  ghost predicate Turns(state: ArbiterState, ignored: nat, outstanding: nat, c: TurnCounters, absorbed: nat,
                        queueThrows: nat)
  {
    && outstanding == ignored + (if state == Queued then 1 else 0)
    && c.queuedNow == (if state == Queued then 1 else 0)
    && c.requests == c.executions + absorbed + queueThrows + c.queuedNow
  }

  // --- Answers ---

  /** Each settled waiter was told its answer, once; nobody was told "idle" while a
      deadline of either class was pending or a drain was under way, and, as long as no
      abort hook has left a turn queued, only in an idle arbiter. */
  ghost predicate Honest(trace: seq<TraceEvent>, settled: map<nat, Waiters.Answer>, hookTurns: nat) {
    && IdleHonestly(trace, hookTurns) && ToldOnce(trace) && ToldRight(trace, settled)
    && (forall id :: id in settled ==> WasTold(trace, id))
  }

  ghost predicate ToldRight(trace: seq<TraceEvent>, settled: map<nat, Waiters.Answer>) {
    forall i :: 0 <= i < |trace| && trace[i].Told? ==>
      trace[i].id in settled && settled[trace[i].id] == trace[i].answer
  }

  ghost predicate IdleHonestly(trace: seq<TraceEvent>, hookTurns: nat) {
    forall i :: 0 <= i < |trace| && IdleTold(trace[i]) ==>
      !trace[i].deadlinePending && trace[i].state != Draining && (hookTurns == 0 ==> trace[i].state == Idle)
  }

  ghost predicate ToldOnce(trace: seq<TraceEvent>) {
    forall i, j :: 0 <= i < j < |trace| && trace[i].Told? && trace[j].Told? ==> trace[i].id != trace[j].id
  }

  predicate IdleTold(e: TraceEvent) {
    e.Told? && e.answer == SettledIdle
  }

  ghost predicate WasTold(trace: seq<TraceEvent>, id: nat) {
    exists i :: 0 <= i < |trace| && trace[i].Told? && trace[i].id == id
  }

  lemma ToldStays(trace: seq<TraceEvent>, more: seq<TraceEvent>)
    ensures forall id :: WasTold(trace, id) ==> WasTold(trace + more, id)
  {
    forall id | WasTold(trace, id)
      ensures WasTold(trace + more, id)
    {
      var i :| 0 <= i < |trace| && trace[i].Told? && trace[i].id == id;
      assert (trace + more)[i] == trace[i];
    }
  }

  lemma NothingYet()
    ensures Honest([], map[], 0) && Hooked([], {}, {}) && BookInv(Book(map[], 0, map[], map[]))
  {
  }

  lemma OtherKeepsHonest(trace: seq<TraceEvent>, settled: map<nat, Waiters.Answer>, hookTurns: nat, e: TraceEvent)
    requires Honest(trace, settled, hookTurns) && !e.Told?
    ensures Honest(trace + [e], settled, hookTurns)
  {
    ToldStays(trace, [e]);
  }

  function ToldAll(ids: seq<nat>, answer: Waiters.Answer, pending: bool, state: ArbiterState): (events: seq<TraceEvent>)
    ensures |events| == |ids| && forall i :: 0 <= i < |ids| ==> events[i] == Told(ids[i], answer, pending, state)
  {
    seq(|ids|, i requires 0 <= i < |ids| => Told(ids[i], answer, pending, state))
  }

  lemma TellingOnce(trace: seq<TraceEvent>, settled: map<nat, Waiters.Answer>, told: seq<TraceEvent>, ids: seq<nat>)
    requires ToldOnce(trace) && ToldRight(trace, settled) && Distinct(ids)
    requires |told| == |ids|
    requires forall i :: 0 <= i < |ids| ==> told[i].Told? && told[i].id == ids[i] && ids[i] !in settled
    ensures ToldOnce(trace + told)
  {
    var after := trace + told;
    forall i, j | 0 <= i < j < |after| && after[i].Told? && after[j].Told?
      ensures after[i].id != after[j].id
    {
      if j >= |trace| {
        assert after[j].id == ids[j - |trace|];
        if i >= |trace| { assert after[i].id == ids[i - |trace|]; }
      }
    }
  }

  lemma TellingRight(trace: seq<TraceEvent>, settled: map<nat, Waiters.Answer>, told: seq<TraceEvent>, ids: seq<nat>,
                     answer: Waiters.Answer)
    requires ToldRight(trace, settled) && forall id :: id in ids ==> id !in settled
    requires forall i :: 0 <= i < |told| ==> told[i].Told? && told[i].id in ids && told[i].answer == answer
    ensures ToldRight(trace + told, settled + Answered(ids, answer))
  {
  }

  lemma TellingKeepsHonest(trace: seq<TraceEvent>, settled: map<nat, Waiters.Answer>, hookTurns: nat, ids: seq<nat>,
                           answer: Waiters.Answer, pending: bool, state: ArbiterState)
    requires Honest(trace, settled, hookTurns) && Distinct(ids) && (forall id :: id in ids ==> id !in settled)
    requires answer == SettledIdle ==> !pending && state != Draining && (hookTurns == 0 ==> state == Idle)
    ensures Honest(trace + ToldAll(ids, answer, pending, state), settled + Answered(ids, answer), hookTurns)
  {
    hide ToldOnce, ToldRight;
    var told := ToldAll(ids, answer, pending, state);
    var after := settled + Answered(ids, answer);
    assert forall i :: 0 <= i < |ids| ==> ids[i] in ids;
    TellingOnce(trace, settled, told, ids);
    TellingRight(trace, settled, told, ids, answer);
    ToldStays(trace, told);
    forall id | id in after
      ensures WasTold(trace + told, id)
    {
      if id in ids {
        var i :| 0 <= i < |ids| && ids[i] == id;
        assert (trace + told)[|trace| + i] == told[i];
      } else {
        assert WasTold(trace, id);
      }
    }
  }

  lemma HookTurnKeepsHonest(trace: seq<TraceEvent>, settled: map<nat, Waiters.Answer>, hookTurns: nat)
    requires Honest(trace, settled, hookTurns)
    ensures Honest(trace, settled, hookTurns + 1)
  {
  }

  /** `told` continues the trace with answers given in one state. */
  ghost predicate Tells(before: seq<TraceEvent>, after: seq<TraceEvent>, state: ArbiterState) {
    && before <= after
    && forall i :: |before| <= i < |after| ==> after[i].Told? && after[i].state == state
  }

  // --- Abort hooks ---

  /** The hook of every aborted request that is not still owed was called, once. */
  ghost predicate Hooked(trace: seq<TraceEvent>, aborted: set<nat>, owed: set<nat>) {
    && owed <= aborted
    && (forall t :: t in aborted && t !in owed ==> WasHooked(trace, t))
    && (forall i :: 0 <= i < |trace| && trace[i].AbortHook? ==> trace[i].token in aborted && trace[i].token !in owed)
    && (forall i, j :: 0 <= i < j < |trace| && trace[i].AbortHook? && trace[j].AbortHook? ==>
          trace[i].token != trace[j].token)
  }

  ghost predicate WasHooked(trace: seq<TraceEvent>, token: nat) {
    exists i :: 0 <= i < |trace| && trace[i].AbortHook? && trace[i].token == token
  }

  lemma HookedStays(trace: seq<TraceEvent>, more: seq<TraceEvent>, aborted: set<nat>, owed: set<nat>)
    requires Hooked(trace, aborted, owed) && forall i :: 0 <= i < |more| ==> !more[i].AbortHook?
    ensures Hooked(trace + more, aborted, owed)
  {
    forall t | t in aborted && t !in owed
      ensures WasHooked(trace + more, t)
    {
      var i :| 0 <= i < |trace| && trace[i].AbortHook? && trace[i].token == t;
      assert (trace + more)[i] == trace[i];
    }
  }

  lemma HookCalled(trace: seq<TraceEvent>, aborted: set<nat>, owed: set<nat>, token: nat)
    requires Hooked(trace, aborted, owed) && token in owed
    ensures Hooked(trace + [AbortHook(token)], aborted, owed - {token})
  {
    var after := trace + [AbortHook(token)];
    assert after[|trace|] == AbortHook(token);
    forall t | t in aborted && t !in owed - {token}
      ensures WasHooked(after, t)
    {
      if t != token {
        var i :| 0 <= i < |trace| && trace[i].AbortHook? && trace[i].token == t;
        assert after[i] == trace[i];
      }
    }
  }

  lemma MoreOwed(trace: seq<TraceEvent>, aborted: set<nat>, owed: set<nat>, more: set<nat>)
    requires Hooked(trace, aborted, owed) && more !! aborted
    ensures Hooked(trace, aborted + more, owed + more)
  {
    forall t | t in aborted + more && t !in owed + more
      ensures WasHooked(trace, t)
    {
    }
  }

  // --- Output ---

  /** The writes of one flush: a prefix accepted by the callback, the rest on the console. */
  function Delivered(writes: seq<Write>, accepted: nat): (events: seq<TraceEvent>)
    ensures |events| == |writes|
  {
    seq(|writes|, i requires 0 <= i < |writes| => Wrote(writes[i], if i < accepted then Callback else Console))
  }

  lemma DeliveredNext(writes: seq<Write>, i: nat, accepted: nat, delivered: bool)
    requires i < |writes| && accepted <= i && (delivered ==> accepted == i)
    ensures Delivered(writes[..i + 1], if delivered then accepted + 1 else accepted)
            == Delivered(writes[..i], accepted) + [Wrote(writes[i], if delivered then Callback else Console)]
  {
  }

  /** How many of `n` invocations come before the first that throws. */
  function Accepted(scripts: seq<Script>, n: nat): (k: nat)
    ensures k <= n
  {
    if n == 0 || ThrowsFirst(scripts) then 0 else 1 + Accepted(Rest(scripts), n - 1)
  }

  /** The scripts left after that many invocations and the throwing one, if any. */
  function AfterFlush(scripts: seq<Script>, n: nat): (rest: seq<Script>)
    ensures |rest| <= |scripts|
  {
    if n == 0 then scripts
    else if ThrowsFirst(scripts) then Rest(scripts)
    else AfterFlush(Rest(scripts), n - 1)
  }

  /** The split of a flush is at the first throw. */
  lemma {:induction false} AcceptedUntilThrow(scripts: seq<Script>, n: nat)
    ensures forall i :: 0 <= i < Accepted(scripts, n) && i < |scripts| ==> !scripts[i].throws
    ensures Accepted(scripts, n) < n ==> Accepted(scripts, n) < |scripts| && scripts[Accepted(scripts, n)].throws
  {
    if n > 0 && !ThrowsFirst(scripts) {
      AcceptedUntilThrow(Rest(scripts), n - 1);
      assert forall i :: 0 < i < |scripts| ==> scripts[i] == Rest(scripts)[i - 1];
    }
  }

  /** The output of a turn, write by write: in order, to the callback if one is registered
      and no invocation so far has thrown, and else to the console. */
  lemma OutputInOrder(s: Core, turn: Turn, registered: bool, i: nat)
    requires i < |turn.writes|
    ensures |Output(s, turn, registered)| == |s.trace| + |turn.writes| && s.trace <= Output(s, turn, registered)
    ensures Output(s, turn, registered)[|s.trace| + i]
            == Wrote(turn.writes[i],
                     if registered && forall j :: 0 <= j <= i && j < |s.scripts| ==> !s.scripts[j].throws then Callback
                     else Console)
  {
    AcceptedUntilThrow(s.scripts, |turn.writes|);
  }

  /** Where a flush stands after `i` of `n` writes: all accepted so far, or past the throw. */
  ghost predicate Flushing(first: seq<Script>, registered: bool, n: nat, i: nat, callback: bool, accepted: nat,
                           scripts: seq<Script>)
  {
    && i <= n && accepted <= i
    && (if callback then
          registered && accepted == i && Accepted(first, n) == i + Accepted(scripts, n - i)
          && AfterFlush(first, n) == AfterFlush(scripts, n - i)
        else Flushed(first, registered, n, accepted, scripts))
  }

  ghost predicate Flushed(first: seq<Script>, registered: bool, n: nat, accepted: nat, scripts: seq<Script>) {
    && accepted == (if registered then Accepted(first, n) else 0)
    && scripts == if registered then AfterFlush(first, n) else first
  }

  lemma FlushStart(scripts: seq<Script>, registered: bool, n: nat)
    ensures Flushing(scripts, registered, n, 0, registered, 0, scripts)
  {
  }

  lemma FlushNext(first: seq<Script>, registered: bool, n: nat, i: nat, callback: bool, accepted: nat,
                  scripts: seq<Script>)
    requires Flushing(first, registered, n, i, callback, accepted, scripts) && i < n
    ensures var delivered := callback && !ThrowsFirst(scripts);
            Flushing(first, registered, n, i + 1, delivered, if delivered then accepted + 1 else accepted,
                     if callback then Rest(scripts) else scripts)
  {
  }

  lemma FlushEnd(first: seq<Script>, registered: bool, n: nat, callback: bool, accepted: nat, scripts: seq<Script>)
    requires Flushing(first, registered, n, n, callback, accepted, scripts)
    ensures Flushed(first, registered, n, accepted, scripts)
  {
  }

  // --- Steps of one drain ---

  lemma FlushedGrows(s: Core, t: Core, u: Core)
    requires Grows(s, t) && t.trace <= u.trace && FlushKeeps(t, u)
    ensures Grows(s, u)
  {
  }

  /** A sweep that has more hooks owed than before, one hook later. */
  lemma HookStep(s: Core, t: Core, u: Core, owed: set<nat>)
    requires s.state != Draining && Follows(s.(owed := t.owed), t)
    requires u == t.(trace := u.trace, owed := owed) && t.trace <= u.trace
    ensures Follows(s.(owed := owed), u)
  {
  }

  lemma AbortStep(s: Core, t: Core, u: Core, owed: set<nat>)
    requires s.state != Draining && Follows(s.(owed := t.owed), t)
    requires u == t.(ledger := u.ledger, owed := owed) && LedgerGrows(t.ledger, u.ledger)
    requires u.ledger.taken == t.ledger.taken && u.ledger.completed == t.ledger.completed
    ensures Follows(s.(owed := owed), u)
  {
  }

  // --- What callbacks leave ---

  /** Nobody is told anything between the two. */
  ghost predicate NothingTold(before: seq<TraceEvent>, after: seq<TraceEvent>) {
    before <= after && forall i :: |before| <= i < |after| ==> !after[i].Told?
  }

  /** Whoever is told something after `before` is told it in this state. */
  ghost predicate ToldIn(before: seq<TraceEvent>, after: seq<TraceEvent>, state: ArbiterState) {
    before <= after && forall i :: |before| <= i < |after| && after[i].Told? ==> after[i].state == state
  }

  /** No callback did anything: only hooks were called. */
  ghost predicate Hushed(s: Core, t: Core) {
    && t.state == s.state && t.book == s.book && t.scripts == s.scripts && t.latched == s.latched
    && t.hookTurns == s.hookTurns && t.records == s.records && t.native == s.native && NothingTold(s.trace, t.trace)
  }

  /** A script that only sends one message, to a host that does not throw: it wakes the
      scheduler and touches no timer. */
  predicate SendsOnly(script: Script) {
    |script.ops| == 1 && IsSend(script.ops[0])
  }

  predicate IsSend(op: HostOp) {
    && op.SendMessage? && op.sync.cancellations == [] && op.sync.schedules == []
    && op.sync.replies == Replies(true, true) && op.sync.edge && op.sync.queueOk
  }

  /** The next callback sends one message, and no later one does anything. */
  predicate OneSend(scripts: seq<Script>) {
    |scripts| == 1 && SendsOnly(scripts[0])
  }

  /** What one message leaves, outside a drain: a queued turn, and nobody told anything. */
  ghost predicate SentOnce(s: Core, t: Core) {
    && t.state == Queued && t.book == s.book && t.latched == s.latched && t.hookTurns == s.hookTurns
    && t.records == s.records && t.native == s.native && NothingTold(s.trace, t.trace)
  }

  lemma SentThenHushed(s: Core, t: Core, u: Core)
    requires (SentOnce(s, t) && Hushed(t, u)) || (Hushed(s, t) && SentOnce(t, u))
    ensures SentOnce(s, u)
  {
  }

  lemma HushedTrans(s: Core, t: Core, u: Core)
    requires Hushed(s, t) && Hushed(t, u)
    ensures Hushed(s, u)
  {
  }

  lemma SyncNothing(records: map<nat, ReceiveDeadline>, sync: Sync)
    requires sync.cancellations == [] && sync.schedules == []
    ensures Synced(records, sync) == records
  {
    assert records - Members([]) == records;
  }

  lemma SendLeaves(s: Core, sync: Sync)
    requires s.state != Draining && IsSend(SendMessage(sync))
    ensures SentOnce(s, Sent(s, sync, s.troubled)) && Sent(s, sync, s.troubled).scripts == s.scripts
  {
    SyncNothing(s.records, sync);
  }

  // --- What a whole turn leaves ---

  function Exits(turn: Turn): set<nat> {
    Members(turn.exited) + Members(turn.errored)
  }

  /** The deadlines that the drain of a turn leaves. */
  function Stamp(records: map<nat, ReceiveDeadline>, turn: Turn): map<nat, ReceiveDeadline> {
    Stamped(records - Members(turn.cancellations), turn.schedules, turn.now)
  }

  /** After a success the turn does not end in a refused turn request. */
  predicate Continues(turn: Turn) {
    turn.outcome.TrueIdle? || turn.queueOk
  }

  function Output(s: Core, turn: Turn, registered: bool): seq<TraceEvent> {
    s.trace + Delivered(turn.writes, if registered then Accepted(s.scripts, |turn.writes|) else 0)
  }

  function ScriptsAfterFlush(s: Core, turn: Turn, registered: bool): seq<Script> {
    if registered then AfterFlush(s.scripts, |turn.writes|) else s.scripts
  }

  /** No pid that the turn observes as gone has a request in flight, and none makes one
      during the turn. */
  ghost predicate NoHooks(s: Core, turn: Turn) {
    && SettledFor(s.ledger, s.issued, Exits(turn))
    && forall i :: 0 <= i < |turn.capabilityCalls| ==> turn.capabilityCalls[i] !in Exits(turn)
  }

  /** The answers that the waiters in `before` have in `after`. */
  ghost predicate AnsweredAs(before: Book, after: Book, turn: Turn, t: Core) {
    Observed(before, after, Members(turn.exited), Members(turn.errored), turn.outcome.TrueIdle? && !Pending(t))
  }

  /** From position `at` of the trace on, waiters are only answered; `swept` is the book
      at that point, and every waiter parked in it has its documented answer. */
  ghost predicate AnswersIn(s: Core, t: Core, exited: seq<nat>, errored: seq<nat>, trueIdle: bool, at: nat, swept: Book)
  {
    && |s.trace| <= at <= |t.trace| && Tells(t.trace[..at], t.trace, t.state)
    && Keeps(s.book, swept) && Honest(t.trace[..at], swept.settled, t.hookTurns)
    && Observed(swept, t.book, Members(exited), Members(errored), trueIdle && !Pending(t))
  }

  ghost predicate AnswersFrom(s: Core, t: Core, turn: Turn, at: nat, swept: Book) {
    AnswersIn(s, t, turn.exited, turn.errored, turn.outcome.TrueIdle?, at, swept)
  }

  /** The waiters parked before have their documented answers, all told in one state. */
  ghost predicate ResolvedIn(s: Core, t: Core, exited: seq<nat>, errored: seq<nat>, trueIdle: bool, state: ArbiterState)
  {
    && t.state == state && ToldIn(s.trace, t.trace, state) && t.records == s.records && t.native == s.native
    && Observed(s.book, t.book, Members(exited), Members(errored), trueIdle && !Pending(t))
  }

  /** What one turn leaves: its output, in order, before anything else it did; and after
      a successful drain the requests of the pids that are gone settled, their waiters
      answered, and the answers given last. */
  ghost predicate Turned(s: Core, t: Core, turn: Turn, registered: bool, ok: bool) {
    && Output(s, turn, registered) <= t.trace
    && (ok ==>
          && SettledFor(t.ledger, s.issued + |turn.capabilityCalls|, Exits(turn))
          && GoneAnswered(s.book, t.book, Exits(turn))
          && (exists at, swept :: AnswersFrom(s, t, turn, at, swept))
          && (Continues(turn) ==> CalmTurn(s, t, turn, registered)))
  }

  /** Every waiter parked for one of the pids has an answer, whatever callbacks did. */
  ghost predicate GoneAnswered(before: Book, after: Book, pids: set<nat>) {
    forall id: nat :: id in before.pidOf && before.pidOf[id] in pids ==> id in after.settled
  }

  /** Without a hook to call, or with hooks that do nothing, the waiters parked before
      the turn have their documented answers, told in the state the drain ended in. With
      a hook that sends one message they have the same answers, told while a turn is
      queued. */
  ghost predicate CalmTurn(s: Core, t: Core, turn: Turn, registered: bool) {
    && (NoHooks(s, turn) ==> t.scripts == ScriptsAfterFlush(s, turn, registered))
    && (|t.scripts| == |ScriptsAfterFlush(s, turn, registered)| ==>
          Resolved(s, t, turn, registered, if turn.outcome.TrueIdle? then Idle else Queued))
    && (!NoHooks(s, turn) && OneSend(ScriptsAfterFlush(s, turn, registered)) ==>
          Resolved(s, t, turn, registered, Queued))
  }

  ghost predicate Resolved(s: Core, t: Core, turn: Turn, registered: bool, state: ArbiterState) {
    && t.state == state && ToldIn(Output(s, turn, registered), t.trace, state)
    && (!registered ==> t.records == Stamp(s.records, turn))
    && t.native == (if turn.outcome.TrueIdle? then turn.outcome.native else s.native)
    && AnsweredAs(s.book, t.book, turn, t)
  }

  /** Growth over whole turns and completions. */
  ghost predicate GrowsOver(s: Core, t: Core) {
    && (s.latched ==> t.latched) && Keeps(s.book, t.book) && s.trace <= t.trace && (s.troubled ==> t.troubled)
    && LedgerGrows(s.ledger, t.ledger) && s.issued <= t.issued && t.owed == s.owed && s.hookTurns <= t.hookTurns
  }

  lemma OverRefl(s: Core)
    ensures GrowsOver(s, s)
  {
  }

  lemma OverTrans(s: Core, t: Core, u: Core)
    requires GrowsOver(s, t) && GrowsOver(t, u)
    ensures GrowsOver(s, u) && u.owed == s.owed
  {
  }

  lemma FollowsIsOver(s: Core, t: Core)
    requires Follows(s, t)
    ensures GrowsOver(s, t) && (s.state != Draining ==> t.state != Draining)
  {
  }

  /** A completion lands, and then a call follows. */
  lemma GrownOver(s: Core, landed: Core, t: Core)
    requires landed == s.(ledger := landed.ledger) && LedgerGrows(s.ledger, landed.ledger) && Follows(landed, t)
    ensures GrowsOver(s, t)
  {
  }

  lemma LedgerRefl(a: Ledger)
    ensures LedgerGrows(a, a)
  {
  }

  lemma LedgerTrans(a: Ledger, b: Ledger, c: Ledger)
    requires LedgerGrows(a, b) && LedgerGrows(b, c)
    ensures LedgerGrows(a, c)
  {
  }

  lemma Landed(a: Ledger, b: Ledger)
    requires b.owner == a.owner && b.aborted == a.aborted
    requires a.taken <= b.taken && a.completed <= b.completed && a.refused <= b.refused
    ensures LedgerGrows(a, b)
  {
  }

  lemma HookLeaves(s: Core, called: Core, t: Core, token: nat)
    requires called == s.(trace := s.trace + [AbortHook(token)], owed := called.owed)
    ensures t == called ==> Hushed(s, t)
    ensures SentOnce(called, t) ==> SentOnce(s, t)
  {
  }

  /** A callback run outside a drain is like any other step. */
  lemma AfterInvoke(s: Core, t: Core)
    requires s.state != Draining && Follows(Invoked(s), t)
    ensures Follows(s, t) && t.owed == s.owed && t.state != Draining
  {
  }

  /** What a message leaves when it succeeds. */
  function Sent(s: Core, sync: Sync, troubled: bool): Core {
    var synced := s.(stale := false, troubled := troubled, records := Synced(s.records, sync));
    if sync.edge then Asked(synced) else synced
  }

  function Synced(records: map<nat, ReceiveDeadline>, sync: Sync): map<nat, ReceiveDeadline> {
    Stamped(records - Members(sync.cancellations), sync.schedules, sync.now)
  }

  lemma TurnedFrom(s: Core, start: Core, t: Core, turn: Turn, registered: bool, ok: bool)
    requires Turned(start, t, turn, registered, ok)
    requires start.book == s.book && start.trace == s.trace && start.scripts == s.scripts && start.issued == s.issued
    requires start.ledger == s.ledger && start.records == s.records && start.native == s.native
    ensures Turned(s, t, turn, registered, ok)
  {
    hide Honest, Tells, Observed, Keeps, SettledFor, Delivered, Accepted, AfterFlush;
    if ok {
      var at, swept :| AnswersFrom(start, t, turn, at, swept);
      assert AnswersFrom(s, t, turn, at, swept);
      assert NoHooks(s, turn) <==> NoHooks(start, turn);
    }
  }

  /** The state after a successful drain and its flush. */
  ghost predicate FlushedTurn(s: Core, f: Core, turn: Turn, registered: bool) {
    && f.book.settled == s.book.settled && Keeps(s.book, f.book)
    && f.scripts == ScriptsAfterFlush(s, turn, registered) && f.trace == Output(s, turn, registered)
    && f.issued == s.issued + |turn.capabilityCalls| && f.state == Draining
    && (!registered ==> f.records == Stamp(s.records, turn))
    && f.native == (if turn.outcome.TrueIdle? then turn.outcome.native else s.native)
    && (SettledFor(f.ledger, f.issued, Exits(turn)) <==> NoHooks(s, turn))
  }

  /** What concluding a turn leaves, against the state after the flush. */
  ghost predicate Concluded(f: Core, t: Core, turn: Turn) {
    && SettledFor(t.ledger, f.issued, Exits(turn))
    && GoneAnswered(f.book, t.book, Exits(turn))
    && (exists at, swept :: AnswersFrom(f, t, turn, at, swept))
    && (Continues(turn) ==>
          && (SettledFor(f.ledger, f.issued, Exits(turn)) ==> t.scripts == f.scripts)
          && (|t.scripts| == |f.scripts| ==> ConcludedIn(f, t, turn, if turn.outcome.TrueIdle? then Idle else Queued))
          && (!SettledFor(f.ledger, f.issued, Exits(turn)) && OneSend(f.scripts) ==> ConcludedIn(f, t, turn, Queued)))
  }

  ghost predicate ConcludedIn(f: Core, t: Core, turn: Turn, state: ArbiterState) {
    ResolvedIn(f, t, turn.exited, turn.errored, turn.outcome.TrueIdle?, state)
  }

  /** Answers against the book after the flush are answers against the book before the
      turn: a flush settles nobody. */
  lemma EarlierAnswers(before: Book, after: Book, later: Book, turn: Turn, t: Core)
    requires after.settled == before.settled && Keeps(before, after) && AnsweredAs(after, later, turn, t)
    ensures AnsweredAs(before, later, turn, t)
  {
  }

  lemma ResolvedTurn(s: Core, f: Core, t: Core, turn: Turn, registered: bool, state: ArbiterState)
    requires FlushedTurn(s, f, turn, registered) && ConcludedIn(f, t, turn, state)
    ensures Resolved(s, t, turn, registered, state)
  {
    hide SettledFor, Delivered, Accepted, AfterFlush, Keeps;
    EarlierAnswers(s.book, f.book, t.book, turn, t);
  }

  lemma CalmObserved(s: Core, f: Core, t: Core, turn: Turn, registered: bool)
    requires FlushedTurn(s, f, turn, registered) && Concluded(f, t, turn) && Continues(turn)
    ensures CalmTurn(s, t, turn, registered)
  {
    hide SettledFor, AfterFlush, Resolved, ConcludedIn, Delivered, Accepted, GoneAnswered, AnswersFrom, Keeps;
    var ends := if turn.outcome.TrueIdle? then Idle else Queued;
    if ConcludedIn(f, t, turn, ends) { ResolvedTurn(s, f, t, turn, registered, ends); }
    if ConcludedIn(f, t, turn, Queued) { ResolvedTurn(s, f, t, turn, registered, Queued); }
  }

  /** A successful drain, its flush, and what concluding left make one turn. */
  lemma TurnObserved(s: Core, f: Core, t: Core, turn: Turn, registered: bool)
    requires FlushedTurn(s, f, turn, registered) && Concluded(f, t, turn) && f.trace <= t.trace && Keeps(f.book, t.book)
    ensures Turned(s, t, turn, registered, true)
  {
    hide Honest, Tells, Observed, SettledFor, Delivered, Accepted, AfterFlush, CalmTurn;
    var at, swept :| AnswersFrom(f, t, turn, at, swept);
    KeepsTrans(s.book, f.book, swept);
    assert |s.trace| <= |f.trace|;
    assert AnswersFrom(s, t, turn, at, swept);
    if Continues(turn) {
      CalmObserved(s, f, t, turn, registered);
    }
  }

  lemma EarlierSettled(s: Core, t: Core, ledger: Ledger, pids: set<nat>)
    requires Grows(s, t) && SettledFor(ledger, t.issued, pids)
    ensures SettledFor(ledger, s.issued, pids)
  {
  }

  lemma NotOwedYet(trace: seq<TraceEvent>, aborted: set<nat>, owed: set<nat>, more: set<nat>)
    requires Hooked(trace, aborted, owed) && more !! aborted
    ensures more !! owed
  {
  }

  lemma OneHookLess(base: set<nat>, entries: seq<nat>, j: nat)
    requires Distinct(entries) && j < |entries| && Members(entries) !! base
    ensures entries[j] in base + Members(entries[j..])
    ensures base + Members(entries[j..]) - {entries[j]} == base + Members(entries[j + 1..])
  {
    assert entries[j] in entries[j..] && entries[j] in entries;
    assert entries[j..] == [entries[j]] + entries[j + 1..];
  }

  lemma LedgerStays(s: Core, t: Core, bound: nat, pids: set<nat>)
    requires LedgerGrows(s.ledger, t.ledger) && Issued(s.ledger, bound) && SettledFor(s.ledger, bound, pids)
    ensures Issued(t.ledger, bound) && SettledFor(t.ledger, bound, pids)
  {
  }

  lemma NobodySettled(inFlight: map<nat, seq<nat>>, nextToken: nat, ledger: Ledger)
    requires Registry(inFlight, nextToken, ledger)
    ensures Issued(ledger, nextToken) && SettledFor(ledger, nextToken, {})
  {
  }

  lemma SweptNext(s: Core, before: Core, t: Core, pids: set<nat>, pid: nat)
    requires Follows(s, before) && Follows(before, t)
    requires Issued(before.ledger, s.issued) && SettledFor(before.ledger, s.issued, pids)
    requires SettledFor(t.ledger, before.issued, {pid})
    ensures Issued(t.ledger, s.issued) && SettledFor(t.ledger, s.issued, pids + {pid})
  {
  }

  lemma Pushed(s: Core, t: Core)
    requires s.state != Draining && t == s.(trace := s.trace + [FailurePushed])
    ensures Follows(s, t)
  {
  }

  /** An answer given in between is still the answer at the end. */
  lemma KeepsAnswers(s: Core, t: Core, u: Core)
    requires Follows(s, t) && Follows(t, u)
    ensures forall id :: id in t.book.settled ==> id in u.book.settled && u.book.settled[id] == t.book.settled[id]
  {
  }

  lemma FollowsTrace(s: Core, t: Core)
    requires Follows(s, t)
    ensures s.trace <= t.trace && (s.latched ==> t.latched) && LedgerGrows(s.ledger, t.ledger)
  {
  }

  /** Telling waiters outside a drain is a step like any other. */
  lemma TellingFollows(s: Core, t: Core)
    requires s.state != Draining && t == s.(book := t.book, trace := t.trace, hookTurns := t.hookTurns)
    requires Keeps(s.book, t.book) && s.trace <= t.trace && s.hookTurns <= t.hookTurns
    ensures Follows(s, t)
  {
  }

  lemma TurnGrows(s: Core)
    ensures Grows(s, WithTurn(s))
  {
  }

  lemma DeadlinesGrow(s: Core, t: Core)
    requires t == s.(stale := t.stale, troubled := t.troubled, records := t.records, native := t.native)
    requires s.troubled ==> t.troubled
    ensures Grows(s, t)
  {
  }

  lemma ThrowGrows(s: Core, t: Core)
    requires t == s.(state := Idle, counters := t.counters, troubled := true)
             && t.counters.executions == s.counters.executions
    ensures Grows(s, t)
  {
  }

  lemma FollowsGrows(s: Core, t: Core)
    requires Follows(s, t)
    ensures Grows(s, t) && (s.state != Draining ==> t.state != Draining) && (s.troubled ==> t.troubled)
  {
  }

  /** A turn callback, absorbed or run. */
  lemma AbsorbedOver(s: Core, t: Core)
    requires t == s.(ignored := t.ignored, outstanding := t.outstanding)
    ensures GrowsOver(s, t)
  {
  }

  lemma ExecutedOver(s: Core, start: Core, t: Core)
    requires start == s.(state := Draining, outstanding := start.outstanding, counters := start.counters, stale := true)
    requires Grows(start, t)
    ensures GrowsOver(s, t) && t.counters.executions == start.counters.executions
  {
  }

  lemma ManualFollows(s: Core, start: Core, t: Core)
    requires s.state != Draining && t.state != Draining && Grows(start, t)
    requires start == s.(state := Draining, ignored := start.ignored, counters := start.counters, stale := true)
    requires start.counters.executions == s.counters.executions
    ensures Follows(s, t)
  {
  }

  lemma TurnFailed(s: Core, f: Core, t: Core, turn: Turn, registered: bool)
    requires f.trace == Output(s, turn, registered) && f.trace <= t.trace
    ensures Turned(s, t, turn, registered, false)
  {
  }

  // --- Flushing ---

  /** What a flush may change. */
  ghost predicate FlushKeeps(s: Core, t: Core) {
    && t == s.(trace := t.trace, book := t.book, stale := t.stale, troubled := t.troubled, scripts := t.scripts,
               records := t.records)
    && t.book.settled == s.book.settled && Keeps(s.book, t.book) && (t.stale ==> s.stale) && (s.troubled ==> t.troubled)
  }

  lemma FlushKeepsRefl(s: Core)
    ensures FlushKeeps(s, s)
  {
  }

  lemma FlushKeepsTrans(s: Core, t: Core, u: Core)
    requires FlushKeeps(s, t) && FlushKeeps(t, u)
    ensures FlushKeeps(s, u)
  {
  }

  lemma GrownSince(s: Core, t: Core)
    requires Grows(s, t)
    ensures s.trace <= t.trace && Keeps(s.book, t.book)
  {
  }

  // --- Capability requests of one drain ---

  predicate IsOwner(owner: map<nat, nat>, token: nat, pid: nat) {
    token in owner && owner[token] == pid
  }

  /** The ledger `b` is `a` after these calls, the first of which has token `first`. */
  ghost predicate CallsMade(a: Ledger, first: nat, b: Ledger, pids: seq<nat>) {
    && b == a.(owner := b.owner) && LedgerGrows(a, b)
    && (forall t: nat :: t in a.owner <==> t < first)
    && (forall t :: t in b.owner ==> t < first + |pids|)
    && (forall i: nat :: i < |pids| ==> IsOwner(b.owner, first + i, pids[i]))
    && (forall t :: t in a.taken || t in a.aborted ==> t < first)
  }

  lemma NoCallsYet(inFlight: map<nat, seq<nat>>, nextToken: nat, ledger: Ledger, counted: nat)
    requires Registry(inFlight, nextToken, ledger) && Completions(nextToken, ledger, counted)
    ensures CallsMade(ledger, nextToken, ledger, [])
  {
  }

  lemma NextCall(a: Ledger, first: nat, b: Ledger, pids: seq<nat>, pid: nat)
    requires CallsMade(a, first, b, pids)
    ensures CallsMade(a, first, b.(owner := b.owner[first + |pids| := pid]), pids + [pid])
  {
    var n := |pids|;
    var owner := b.owner[first + n := pid];
    forall i: nat | i < n + 1
      ensures IsOwner(owner, first + i, (pids + [pid])[i])
    {
      if i < n { assert IsOwner(b.owner, first + i, pids[i]); }
    }
    assert forall t :: t in a.owner ==> t < first;
  }

  lemma CallsGrow(a: Ledger, first: nat, b: Ledger, pids: seq<nat>)
    requires CallsMade(a, first, b, pids)
    ensures LedgerGrows(a, b) && b.taken == a.taken && b.completed == a.completed && b.aborted == a.aborted
  {
  }

  /** After the calls, all requests of these pids are settled exactly if they were and
      none of the pids called. */
  lemma CallsOpen(a: Ledger, first: nat, b: Ledger, calls: seq<nat>, pids: set<nat>)
    requires CallsMade(a, first, b, calls)
    ensures SettledFor(b, first + |calls|, pids)
            <==> SettledFor(a, first, pids) && forall i :: 0 <= i < |calls| ==> calls[i] !in pids
  {
    forall t: nat | first <= t < first + |calls|
      ensures t in b.owner && b.owner[t] == calls[t - first]
    {
      assert IsOwner(b.owner, first + (t - first), calls[t - first]);
    }
    if SettledFor(b, first + |calls|, pids) {
      forall i: nat | i < |calls|
        ensures calls[i] !in pids
      {
        assert IsOwner(b.owner, first + i, calls[i]);
      }
    }
    if SettledFor(a, first, pids) && forall i :: 0 <= i < |calls| ==> calls[i] !in pids {
      assert SettledFor(b, first + |calls|, pids);
    }
  }

  // --- Hooks ---

  /** What `n` hooks leave: nothing at all if there are none. */
  ghost predicate HooksLeave(s: Core, t: Core, n: nat) {
    && (n == 0 ==> t == s)
    && (|t.scripts| == |s.scripts| ==> Hushed(s, t))
    && (n > 0 && OneSend(s.scripts) ==> SentOnce(s, t) && t.scripts == [])
  }

  lemma NoHooksLeave(s: Core)
    ensures HooksLeave(s, s, 0)
  {
  }

  lemma OneMoreHook(s: Core, before: Core, t: Core, n: nat)
    requires HooksLeave(s, before, n) && |t.scripts| <= |before.scripts| <= |s.scripts|
    requires |t.scripts| == |before.scripts| ==> Hushed(before, t)
    requires OneSend(before.scripts) ==> SentOnce(before, t) && t.scripts == []
    ensures HooksLeave(s, t, n + 1)
  {
    hide Hushed, SentOnce;
    if |t.scripts| == |s.scripts| {
      HushedTrans(s, before, t);
    }
    if OneSend(s.scripts) && n > 0 {
      SentThenHushed(s, before, t);
      assert t.scripts == [];
    }
  }

  /** What the sweep of these pids leaves: nothing if none has a request in flight. */
  ghost predicate Hooking(s: Core, t: Core, pids: set<nat>) {
    && (SettledFor(s.ledger, s.issued, pids) ==> t == s)
    && (|t.scripts| == |s.scripts| ==> Hushed(s, t))
    && (!SettledFor(s.ledger, s.issued, pids) && OneSend(s.scripts) ==> SentOnce(s, t) && t.scripts == [])
  }

  lemma NoHookYet(s: Core)
    ensures Hooking(s, s, {})
  {
  }

  lemma HookingPid(s: Core, aborted: Core, t: Core, pid: nat, entries: seq<nat>)
    requires SettledFor(s.ledger, s.issued, {pid}) <==> entries == []
    requires aborted == s.(ledger := s.ledger.(aborted := s.ledger.aborted + Members(entries)),
                           owed := s.owed + Members(entries))
    requires HooksLeave(aborted, t, |entries|)
    ensures Hooking(s, t, {pid})
  {
    if entries == [] {
      assert Members(entries) == {};
      assert aborted == s;
    }
  }

  lemma HookingNext(s: Core, before: Core, t: Core, pids: set<nat>, pid: nat)
    requires Hooking(s, before, pids) && Hooking(before, t, {pid})
    requires |t.scripts| <= |before.scripts| <= |s.scripts|
    ensures Hooking(s, t, pids + {pid})
  {
    hide Hushed, SentOnce, SettledFor;
    SettledForBoth(s.ledger, s.issued, pids, {pid});
    if |t.scripts| == |s.scripts| {
      HushedTrans(s, before, t);
    }
    if !SettledFor(s.ledger, s.issued, pids + {pid}) && OneSend(s.scripts) {
      if !SettledFor(s.ledger, s.issued, pids) {
        SentThenHushed(s, before, t);
        assert t.scripts == [];
      }
    }
  }

  lemma SettledForBoth(ledger: Ledger, bound: nat, a: set<nat>, b: set<nat>)
    ensures SettledFor(ledger, bound, a + b) <==> SettledFor(ledger, bound, a) && SettledFor(ledger, bound, b)
  {
  }

  // --- Answers of one observation ---

  lemma AnsweredLast(s: Core, before: Core, t: Core, exited: seq<nat>, errored: seq<nat>, trueIdle: bool)
    requires Follows(s, before) && t == before.(book := t.book, trace := t.trace, hookTurns := t.hookTurns)
    requires Tells(before.trace, t.trace, t.state) && before.hookTurns <= t.hookTurns
    requires Honest(before.trace, before.book.settled, before.hookTurns)
    requires Observed(before.book, t.book, Members(exited), Members(errored), trueIdle && !Pending(t))
    ensures AnswersIn(s, t, exited, errored, trueIdle, |before.trace|, before.book)
  {
    assert t.trace[..|before.trace|] == before.trace;
  }

  lemma AnsweredHere(s: Core, before: Core, t: Core, exited: seq<nat>, errored: seq<nat>, trueIdle: bool)
    requires Hooking(s, before, Members(exited) + Members(errored)) && |before.scripts| <= |s.scripts|
    requires t == before.(book := t.book, trace := t.trace, hookTurns := t.hookTurns)
    requires Tells(before.trace, t.trace, t.state)
    requires Observed(before.book, t.book, Members(exited), Members(errored), trueIdle && !Pending(t))
    ensures SettledFor(s.ledger, s.issued, Members(exited) + Members(errored)) ==> t.scripts == s.scripts
    ensures |t.scripts| == |s.scripts| ==> ResolvedIn(s, t, exited, errored, trueIdle, s.state)
    ensures !SettledFor(s.ledger, s.issued, Members(exited) + Members(errored)) && OneSend(s.scripts) ==>
              ResolvedIn(s, t, exited, errored, trueIdle, Queued)
  {
    hide Observed, SettledFor;
  }

  /** Nobody is left parked for the pids, so everybody who was parked for them is answered. */
  lemma GoneAreAnswered(before: Book, after: Book, pids: set<nat>)
    requires BookInv(after) && Keeps(before, after) && forall pid :: pid in pids ==> pid !in after.waiters
    ensures GoneAnswered(before, after, pids)
  {
    forall id: nat | id in before.pidOf && before.pidOf[id] in pids
      ensures id in after.settled
    {
      assert id in after.pidOf && after.pidOf[id] == before.pidOf[id];
      assert !Parked(after, after.pidOf[id], id);
    }
  }

  lemma ConcludeTurn(f: Core, finished: Core, t: Core, turn: Turn, at: nat, swept: Book)
    requires Grows(f, finished) && Grows(finished, t)
    requires turn.outcome.TrueIdle? ==> finished == f.(state := Idle)
    requires turn.outcome.FairnessYield? && turn.queueOk ==> finished == WithTurn(f)
    requires SettledFor(t.ledger, finished.issued, Exits(turn))
    requires AnswersFrom(finished, t, turn, at, swept) && GoneAnswered(finished.book, t.book, Exits(turn))
    requires SettledFor(finished.ledger, finished.issued, Exits(turn)) ==> t.scripts == finished.scripts
    requires |t.scripts| == |finished.scripts| ==> ConcludedIn(finished, t, turn, finished.state)
    requires !SettledFor(finished.ledger, finished.issued, Exits(turn)) && OneSend(finished.scripts) ==>
               ConcludedIn(finished, t, turn, Queued)
    ensures Concluded(f, t, turn)
  {
    hide Honest, Tells, Observed, ToldIn;
    KeepsTrans(f.book, finished.book, swept);
    assert AnswersFrom(f, t, turn, at, swept);
    EarlierSettled(f, finished, t.ledger, Exits(turn));
  }

  /** A waiter that was parked for a pid is answered by the next successful turn that
      observes the pid, whatever happened in between and whatever callbacks do; and if
      nobody answered it before, and no callback acts in the turn, with the pid's own
      outcome, an exit winning over an error. */
  lemma ParkedIsAnswered(parked: Core, s: Core, t: Core, turn: Turn, registered: bool, pid: nat, id: nat)
    requires id in parked.book.pidOf && parked.book.pidOf[id] == pid && GrowsOver(parked, s)
    requires Turned(s, t, turn, registered, true) && (pid in turn.exited || pid in turn.errored)
    ensures id in t.book.settled
    ensures id !in s.book.settled && Continues(turn) && NoHooks(s, turn) ==>
              t.book.settled[id] == if pid in turn.exited then Exited else Errored
  {
    hide AnswersFrom, SettledFor, AfterFlush, Accepted, Delivered, NoHooks;
    assert id in s.book.pidOf && s.book.pidOf[id] == pid;
    if id !in s.book.settled && Continues(turn) && NoHooks(s, turn) {
      assert AnsweredAs(s.book, t.book, turn, t);
    }
  }

  /** A turn in which a pid that exits has made a request, whose hook sends a message. */
  lemma SentInTurn(s: Core, t: Core, turn: Turn)
    requires Turned(s, t, turn, false, true) && Continues(turn) && OneSend(s.scripts)
    requires turn.capabilityCalls != [] && turn.capabilityCalls[0] in Exits(turn)
    ensures Resolved(s, t, turn, false, Queued)
  {
    hide AnswersFrom, GoneAnswered, SettledFor, Resolved;
  }

  /** When "idle" is told in an idle arbiter. Somebody waits for a pid that does not exit
      in this turn, the next callback after the flush would send a message, and the drain
      ends in a true idle with no deadline pending: everybody is told in Idle exactly if
      no pid that exits has a request in flight or makes one in the turn. */
  lemma ToldInIdleIff(s: Core, t: Core, turn: Turn, registered: bool, id: nat)
    requires Honest(s.trace, s.book.settled, s.hookTurns) && Honest(t.trace, t.book.settled, t.hookTurns)
    requires Turned(s, t, turn, registered, true) && turn.outcome.TrueIdle? && !Pending(t)
    requires OneSend(ScriptsAfterFlush(s, turn, registered))
    requires id in s.book.pidOf && id !in s.book.settled && s.book.pidOf[id] !in Exits(turn)
    ensures ToldIn(Output(s, turn, registered), t.trace, Idle) <==> NoHooks(s, turn)
  {
    hide AnswersFrom, GoneAnswered, SettledFor, OneSend, AfterFlush, Accepted;
    assert forall i :: 0 <= i < |s.trace| ==> t.trace[i] == Output(s, turn, registered)[i];
    if !NoHooks(s, turn) {
      assert Resolved(s, t, turn, registered, Queued);
      assert WasTold(t.trace, id);
    }
  }

  /** A waiter answered "idle" after `earlier`, in which nobody was told anything. */
  lemma IdleWasTold(book: Book, trace: seq<TraceEvent>, hookTurns: nat, id: nat, earlier: seq<TraceEvent>,
                    state: ArbiterState)
    requires id in book.settled && book.settled[id] == SettledIdle && Honest(trace, book.settled, hookTurns)
    requires ToldIn(earlier, trace, state) && forall i :: 0 <= i < |earlier| ==> !earlier[i].Told?
    ensures exists i :: 0 <= i < |trace| && IdleTold(trace[i]) && trace[i].state == state
  {
    assert WasTold(trace, id);
  }
}
