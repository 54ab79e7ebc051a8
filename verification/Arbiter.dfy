/** The host arbiter: the turn machine, its drain envelope, the failure latch and the
    exit waiters, over a host that may throw and callbacks that may re-enter. */
module Arbiter {
  import opened Wrappers
  import opened Deadline
  import opened Sink
  import opened Waiters
  import opened Capability
  import opened ArbiterLog

  datatype AwaitResult = Answer(answer: Waiters.Answer) | Parked(id: nat)

  datatype DrainResult = Drained | DrainFailed | AlreadyDraining

  /** What a host may do: call the VM, or run a callback it was given. */
  datatype HostEvent =
    | Call(op: HostOp)
    | TurnCallback(turn: Turn)
    | TimerCallback(token: nat, now: nat, queueOk: bool)
    | CapabilitySettled(pid: nat, token: nat, built: bool, accepted: bool, edge: bool, queueOk: bool)

  class HostArbiter {
    const deadline: HostDeadlineService
    const sink: HostIoSinkBridge
    const capabilities: CapabilityBridge

    var state: ArbiterState
    var ignoredCallbacks: nat
    var waiters: map<nat, seq<nat>>
    var lastError: bool
    var failureCallback: bool
    var counters: TurnCounters
    // the scheduler's retained results, and the behaviour of coming callbacks
    var exitResults: set<nat>
    var exitErrors: set<nat>
    var scripts: seq<Script>
    /** Host turn callbacks queued and not yet run. */
    var outstanding: nat
    var book: Book

    ghost var absorbed: nat
    ghost var queueThrows: nat
    ghost var trace: seq<TraceEvent>
    /** The arm may be out of date: a fire has been admitted, or a drain is under way. */
    ghost var stale: bool
    ghost var owed: set<nat>
    ghost var hookTurns: nat

    ghost function View(): Core
      reads this, deadline, capabilities
    {
      Core(state, ignoredCallbacks, counters, outstanding, lastError, book, trace, stale, !Untroubled(),
           scripts, capabilities.ledger, capabilities.nextToken, owed, hookTurns,
           deadline.receiveDeadlines, deadline.nativeEarliest)
    }

    /** No host primitive has thrown yet. */
    ghost predicate Untroubled()
      reads this, deadline
    {
      deadline.Untroubled() && queueThrows == 0
    }

    /** Waiters, answers and abort hooks are accounted for. */
    ghost predicate Accounted()
      reads this, capabilities
    {
      && BookInv(book) && book.waiters == waiters
      && Honest(trace, book.settled, hookTurns) && Hooked(trace, capabilities.ledger.aborted, owed)
    }

    ghost predicate Sound()
      reads this, deadline, capabilities
    {
      && deadline.Valid() && capabilities.Valid()
      && Turns(state, ignoredCallbacks, outstanding, counters, absorbed, queueThrows)
      && Accounted()
      && (lastError ==> waiters == map[])
      && (Untroubled() && !stale ==> deadline.Armed())
    }

    /** All but the promise that an idle arbiter is armed. */
    ghost predicate Almost()
      reads this, deadline, capabilities, sink
    {
      Sound() && sink.pending == []
    }

    /** What holds between any two calls. No timer is lost: until a host primitive
        throws, an idle arbiter is armed at the unified minimum. */
    ghost predicate Valid()
      reads this, deadline, capabilities, sink
    {
      Almost() && (Untroubled() && state == Idle ==> !stale)
    }

    lemma IsHonest()
      requires Valid()
      ensures Honest(trace, book.settled, hookTurns)
    {
    }

    constructor (behaviours: seq<Script>)
      ensures Valid() && state == Idle && !lastError && scripts == behaviours && owed == {} && !failureCallback
      ensures fresh(deadline) && fresh(sink) && fresh(capabilities) && Untroubled() && !stale
      ensures waiters == map[] && book == Book(map[], 0, map[], map[]) && trace == [] && hookTurns == 0
      ensures deadline.receiveDeadlines == map[] && deadline.nativeEarliest == None && exitResults == {} == exitErrors
      ensures capabilities.inFlight == map[] && capabilities.nextToken == 0 && !sink.registered && ignoredCallbacks == 0
    {
      hide Accounts, Timers, Departures, IsMinimum, Registry, Completions;
      hide Honest, Hooked, BookInv, Keeps;
      NothingYet();
      deadline := new HostDeadlineService();
      sink := new HostIoSinkBridge();
      capabilities := new CapabilityBridge();
      state, ignoredCallbacks, waiters, lastError, failureCallback := Idle, 0, map[], false, false;
      counters := TurnCounters(0, 0, 0);
      exitResults, exitErrors, scripts := {}, {}, behaviours;
      outstanding, absorbed, queueThrows, trace, stale := 0, 0, 0, [], false;
      book := Book(map[], 0, map[], map[]);
      owed, hookTurns := {}, 0;
    }

    // --- Requesting turns ---

    /** Where there is no error channel, a refused request is latched. */
    method RequestOrLatch(queueOk: bool)
      requires Almost() && state != Draining
      modifies this, deadline, sink, capabilities
      ensures Valid() && Follows(old(View()), View()) && |scripts| <= |old(scripts)|
      ensures if old(state) == Queued || queueOk then state == Queued else lastError && waiters == map[]
      decreases |scripts|, 4
    {
      hide Accounts, Timers, Departures, IsMinimum, Registry, Completions;
      hide Honest, Hooked, BookInv, LedgerGrows, Keeps, Grows, Sound;
      ghost var before := View();
      var ok := RequestExternalTurn(queueOk);
      if !ok {
        ghost var here := View();
        Fail();
        FollowsTrans(before, here, View());
      }
    }

    /** Queued or draining, a request is granted without doing anything. */
    method RequestExternalTurn(queueOk: bool) returns (ok: bool)
      requires Almost()
      modifies this, deadline, sink, capabilities
      ensures Valid() && Follows(old(View()), View()) && |scripts| <= |old(scripts)|
      ensures ok <==> old(state) != Idle || queueOk
      ensures ok ==> View() == Asked(old(View()))
      ensures ok ==> unchanged(deadline) && unchanged(sink) && unchanged(capabilities)
      ensures !ok ==> lastError && !Untroubled()
      decreases |scripts|, 3
    {
      hide Grows, BookInv;
      GrowsRefl(View());
      match state
      case Idle => ok := QueueTurn(queueOk);
      case Queued => ok := true;
      case Draining => ok := true;
    }

    /** Queue one host callback. A throwing host resets the machine and latches. */
    method QueueTurn(queueOk: bool) returns (ok: bool)
      requires Almost() && state != Queued
      modifies this, deadline, sink, capabilities
      ensures Valid() && Grows(old(View()), View()) && |scripts| <= |old(scripts)| && state != Draining
      ensures ok == queueOk && (!ok ==> lastError && !Untroubled())
      ensures ok ==> View() == WithTurn(old(View()))
      ensures ok ==> unchanged(deadline) && unchanged(sink) && unchanged(capabilities)
      decreases |scripts|, 2
    {
      hide Accounts, Timers, Departures, IsMinimum, Registry, Completions;
      hide Honest, Hooked, BookInv, LedgerGrows, Keeps, Grows, Follows;
      ghost var before := View();
      ok := queueOk;
      if ok {
        state := Queued;
        counters := counters.(requests := counters.requests + 1, queuedNow := 1);
        outstanding := outstanding + 1;
        TurnGrows(before);
      } else {
        ThrowOnQueue();
        ghost var reset := View();
        ThrowGrows(before, reset);
        Fail();
        FollowsGrows(reset, View());
        GrowsTrans(before, reset, View());
      }
    }

    /** The request is counted and the machine queued before the host throws; then both
        the state and the gauge are reset. */
    method ThrowOnQueue()
      requires Almost() && state != Queued
      modifies this`state, this`counters, this`queueThrows
      ensures Valid() && !Untroubled()
      ensures View() == old(View()).(state := Idle, troubled := true,
                       counters := old(counters).(requests := old(counters).requests + 1, queuedNow := 0))
    {
      hide Accounts, Timers, Departures, IsMinimum, Registry, Completions;
      hide Honest, Hooked, BookInv, LedgerGrows;
      state := Queued;
      counters := counters.(requests := counters.requests + 1, queuedNow := 1);
      state := Idle;
      counters := counters.(queuedNow := 0);
      queueThrows := queueThrows + 1;
    }

    /** Latch the error, reject every waiter, and push the one failure callback. */
    method Fail()
      requires Valid() && state != Draining
      modifies this, deadline, sink, capabilities
      ensures Valid() && Follows(old(View()), View()) && |scripts| <= |old(scripts)|
      ensures lastError && waiters == map[]
      ensures forall id: nat :: id in old(book).pidOf && id !in old(book).settled ==>
                id in book.settled && book.settled[id] == Rejected
      // the one-shot push comes after every rejection
      ensures exists told :: Tells(old(trace), told, old(state))
                             && (told + if old(failureCallback) then [FailurePushed] else []) <= trace
      ensures !old(failureCallback) ==>
                !failureCallback && Tells(old(trace), trace, old(state)) && scripts == old(scripts)
      decreases |scripts|, 1
    {
      hide Accounts, Timers, Departures, IsMinimum, Registry, Completions;
      hide Honest, Hooked, BookInv, LedgerGrows, Turns;
      hide Follows, Tells, Sound;
      ghost var before := View();
      LatchAndReject();
      ghost var latched := View();
      ghost var told := trace;
      PushFailure();
      FollowsTrans(before, latched, View());
      FollowsTrace(latched, View());
      KeepsAnswers(before, latched, View());
      assert Tells(old(trace), told, old(state));
    }

    method LatchAndReject()
      requires Valid() && state != Draining
      modifies this`lastError, this`waiters, this`book, this`trace
      ensures Valid() && Follows(old(View()), View()) && lastError && waiters == map[]
      ensures View() == old(View()).(latched := true, book := book, trace := trace)
      ensures Tells(old(trace), trace, state)
      ensures forall id: nat :: id in old(book).pidOf && id !in old(book).settled ==>
                id in book.settled && book.settled[id] == Rejected
    {
      hide Accounts, Timers, Departures, IsMinimum, Registry, Completions;
      hide Honest, Hooked, BookInv, LedgerGrows, Turns;
      GrowsRefl(View());
      lastError := true;
      AllParked(book);
      SettleAll(Rejected);
    }

    /** The one-shot failure callback is taken out of its slot and invoked. */
    method PushFailure()
      requires Valid() && state != Draining && lastError && waiters == map[]
      modifies this, deadline, sink, capabilities
      ensures Valid() && Follows(old(View()), View()) && |scripts| <= |old(scripts)| && lastError && waiters == map[]
      ensures old(failureCallback) ==>
                old(trace) + [FailurePushed] <= trace && (old(scripts) != [] ==> |scripts| < |old(scripts)|)
      ensures !old(failureCallback) ==> !failureCallback && View() == old(View())
      decreases |scripts|, 0, 1
    {
      hide Accounts, Timers, Departures, IsMinimum, Registry, Completions;
      hide Honest, Hooked, BookInv, LedgerGrows, Turns, Keeps, Follows;
      GrowsRefl(View());
      if failureCallback {
        failureCallback := false;
        ghost var before := View();
        OtherKeepsHonest(trace, book.settled, hookTurns, FailurePushed);
        HookedStays(trace, [FailurePushed], capabilities.ledger.aborted, owed);
        trace := trace + [FailurePushed];
        ghost var pushed := View();
        Pushed(before, pushed);
        var _ := InvokeCallback();
        AfterInvoke(pushed, View());
        FollowsTrans(before, pushed, View());
        FollowsTrace(pushed, View());
      }
    }

    /** Every parked waiter is removed and given the answer. */
    method SettleAll(answer: Waiters.Answer)
      requires Accounted()
      requires answer == SettledIdle ==>
                 !deadline.HasPendingDeadline() && state != Draining && (hookTurns == 0 ==> state == Idle)
      modifies this`waiters, this`book, this`trace
      ensures Accounted() && waiters == map[]
      ensures Settles(old(book), book, old(waiters).Keys, answer) && Tells(old(trace), trace, state)
    {
      hide Accounts, Timers, Departures, IsMinimum, Registry, Completions;
      hide Honest, Hooked, BookInv, LedgerGrows, Keeps;
      SettlesNone(book, answer);
      ghost var done: set<nat> := {};
      while waiters != map[]
        invariant Accounted()
        invariant Settles(old(book), book, done, answer) && Tells(old(trace), trace, state)
        invariant old(waiters).Keys == done + waiters.Keys
        decreases waiters.Keys
      {
        SomeKey(waiters);
        ghost var before := book;
        var pid :| pid in waiters;
        SettlePid(pid, answer);
        SettlesTrans(old(book), before, book, done, {pid}, answer);
        done := done + {pid};
      }
      assert done == old(waiters).Keys;
    }

    /** The waiters of one pid, if any, are removed and given the answer. */
    method SettlePid(pid: nat, answer: Waiters.Answer)
      requires Accounted()
      requires answer == SettledIdle ==>
                 !deadline.HasPendingDeadline() && state != Draining && (hookTurns == 0 ==> state == Idle)
      modifies this`waiters, this`book, this`trace
      ensures Accounted() && waiters == old(waiters) - {pid}
      ensures Settles(old(book), book, {pid}, answer) && Tells(old(trace), trace, state)
      ensures trace == old(trace)
                       + if pid in old(waiters)
                         then ToldAll(old(waiters)[pid], answer, deadline.HasPendingDeadline(), state)
                         else []
    {
      hide Accounts, Timers, Departures, IsMinimum, Registry, Completions;
      hide Honest, Hooked, BookInv, LedgerGrows, Keeps;
      SettleKeeps(book, pid, answer);
      SettlesPid(book, pid, answer);
      if pid in waiters {
        PidWaiters(book, pid);
        ghost var told := ToldAll(waiters[pid], answer, deadline.HasPendingDeadline(), state);
        TellingKeepsHonest(trace, book.settled, hookTurns, waiters[pid], answer, deadline.HasPendingDeadline(), state);
        HookedStays(trace, told, capabilities.ledger.aborted, owed);
        trace := trace + told;
        book := PidSettled(book, pid, answer);
        waiters := waiters - {pid};
      } else {
        assert waiters - {pid} == waiters && trace + [] == trace;
      }
    }

    // --- Re-entry ---

    /** Run the next callback invocation: its script, and then its throw, if any. */
    method InvokeCallback() returns (threw: bool)
      requires Valid()
      modifies this, deadline, sink, capabilities
      ensures Valid() && Follows(Invoked(old(View())), View()) && |scripts| <= |old(scripts)|
      ensures threw <==> ThrowsFirst(old(scripts))
      ensures old(scripts) != [] ==> |scripts| < |old(scripts)|
      ensures old(lastError) ==> waiters == map[]
      ensures |scripts| == |old(scripts)| ==> View() == old(View()) && waiters == old(waiters)
      ensures OneSend(old(scripts)) && old(state) != Draining ==> SentOnce(old(View()), View()) && scripts == []
      decreases |scripts|, 0, 0, 0
    {
      hide Accounts, Timers, Departures, IsMinimum, Registry, Completions;
      hide Honest, Hooked, BookInv, LedgerGrows, Keeps, Follows;
      GrowsRefl(View());
      threw := false;
      if scripts != [] {
        var script := scripts[0];
        scripts := scripts[1..];
        RunOps(script.ops);
        threw := script.throws;
      }
    }

    method RunOps(ops: seq<HostOp>)
      requires Valid()
      modifies this, deadline, sink, capabilities
      ensures Valid() && Follows(old(View()), View()) && |scripts| <= |old(scripts)|
      ensures old(lastError) ==> lastError
      ensures |ops| == 1 && IsSend(ops[0]) && old(state) != Draining ==>
                SentOnce(old(View()), View()) && scripts == old(scripts)
      decreases |scripts|, 9
    {
      hide Accounts, Timers, Departures, IsMinimum, Registry, Completions;
      hide Honest, Hooked, BookInv, LedgerGrows, Keeps;
      GrowsRefl(View());
      for i := 0 to |ops|
        invariant Valid() && Follows(old(View()), View()) && |scripts| <= |old(scripts)|
        invariant i == 0 ==> View() == old(View())
        invariant |ops| == 1 == i && IsSend(ops[0]) && old(state) != Draining ==>
                    SentOnce(old(View()), View()) && scripts == old(scripts)
      {
        ghost var before := View();
        Perform(ops[i]);
        FollowsTrans(old(View()), before, View());
      }
    }

    method Perform(op: HostOp)
      requires Valid()
      modifies this, deadline, sink, capabilities
      ensures Valid() && Follows(old(View()), View()) && |scripts| <= |old(scripts)|
      ensures IsSend(op) && old(state) != Draining ==> SentOnce(old(View()), View()) && scripts == old(scripts)
      decreases |scripts|, 8
    {
      hide Accounts, Timers, Departures, IsMinimum, Registry, Completions;
      hide Honest, Hooked, BookInv, LedgerGrows, Keeps, Grows, Follows, Sound, SentOnce;
      GrowsRefl(View());
      match op {
        case RunStep(turn) => var _ := RunManualDrain(turn);
        case AwaitExit(pid, runnable) => var _ := AwaitExit(pid, runnable);
        case SendMessage(sync) =>
          var _ := SendMessage(sync);
          if IsSend(op) && old(state) != Draining { SendLeaves(old(View()), sync); }
        case TimerFired(timerId, sync) => var _ := TimerFired(timerId, sync);
        case Spawn(edge, queueOk, infallible) => SpawnEdge(edge, queueOk, infallible);
        case _ => PerformAside(op);
      }
    }

    /** The calls that only set or take one field. */
    method PerformAside(op: HostOp)
      requires Valid()
      requires op.RegisterSink? || op.RegisterFailureCallback? || op.TakeExitResult? || op.TakeExitError?
      modifies this`failureCallback, this`exitResults, this`exitErrors, sink`registered
      ensures Valid() && View() == old(View())
      ensures sink.registered == (op.RegisterSink? || old(sink.registered))
      ensures failureCallback == (op.RegisterFailureCallback? || old(failureCallback))
      ensures exitResults == old(exitResults) - if op.TakeExitResult? then {op.pid} else {}
      ensures exitErrors == old(exitErrors) - if op.TakeExitError? then {op.pid} else {}
    {
      hide Accounts, Timers, Departures, IsMinimum, Registry, Completions;
      hide Honest, Hooked, BookInv, LedgerGrows, Turns;
      match op {
        case RegisterSink => sink.Register();
        case RegisterFailureCallback => failureCallback := true;
        case TakeExitResult(pid) => exitResults := exitResults - {pid};
        case TakeExitError(pid) => exitErrors := exitErrors - {pid};
      }
    }

    // --- Entry points between drains ---

    method AwaitExit(pid: nat, runnable: bool) returns (r: AwaitResult)
      requires Valid()
      modifies this`exitResults, this`waiters, this`book
      ensures Valid() && Follows(old(View()), View())
      ensures r == (if lastError then Answer(Rejected)
                    else if pid in old(exitResults) then Answer(Exited)
                    else if pid in exitErrors then Answer(Errored)
                    else if state == Idle && !runnable && !deadline.HasPendingDeadline() then Answer(SettledIdle)
                    else Parked(old(book).next))
      // an exit result is consumed by its answer, an exit error is not
      ensures exitResults == if r == Answer(Exited) then old(exitResults) - {pid} else old(exitResults)
      ensures r.Answer? ==> View() == old(View())
      ensures r.Parked? ==> View() == old(View()).(book := Registered(old(book), pid))
      // the new waiter stands at the end of its own pid's list, not yet answered, and no
      // other list changes
      ensures r.Parked? ==> r.id !in old(book).pidOf && r.id in book.pidOf && book.pidOf[r.id] == pid
      ensures r.Parked? ==> Waiters.Parked(book, pid, r.id) && r.id !in book.settled
      ensures r.Parked? ==>
                pid in waiters && waiters[pid] == (if pid in old(waiters) then old(waiters)[pid] else []) + [r.id]
      ensures forall p :: p != pid || r.Answer? ==>
                (p in waiters <==> p in old(waiters)) && (p in waiters ==> waiters[p] == old(waiters)[p])
      decreases |scripts|, 7
    {
      hide Accounts, Timers, Departures, IsMinimum, Registry, Completions;
      hide Honest, Hooked, BookInv, LedgerGrows, Keeps;
      GrowsRefl(View());
      if lastError {
        return Answer(Rejected);
      }
      if pid in exitResults {
        exitResults := exitResults - {pid};
        return Answer(Exited);
      }
      if pid in exitErrors {
        return Answer(Errored);
      }
      if state == Idle && !runnable && !deadline.HasPendingDeadline() {
        return Answer(SettledIdle);
      }
      var id := Park(pid);
      return Parked(id);
    }

    /** A new waiter for the pid, behind those it already has. */
    method Park(pid: nat) returns (id: nat)
      requires Valid() && !lastError
      modifies this`waiters, this`book
      ensures Valid() && Follows(old(View()), View()) && id == old(book).next
      ensures View() == old(View()).(book := Registered(old(book), pid))
      ensures id !in old(book).pidOf && id in book.pidOf && book.pidOf[id] == pid
      ensures Waiters.Parked(book, pid, id) && id !in book.settled
      ensures pid in waiters && waiters[pid] == (if pid in old(waiters) then old(waiters)[pid] else []) + [id]
      ensures forall p :: p != pid ==>
                (p in waiters <==> p in old(waiters)) && (p in waiters ==> waiters[p] == old(waiters)[p])
    {
      hide Accounts, Timers, Departures, IsMinimum, Registry, Completions;
      hide Honest, Hooked, BookInv, LedgerGrows, Keeps, Turns;
      RegisterKeeps(book, pid);
      RegistersAtEnd(book, pid);
      id := book.next;
      waiters := waiters[pid := (if pid in waiters then waiters[pid] else []) + [id]];
      book := Registered(book, pid);
      GrowsRefl(old(View()));
    }

    /** Between drains: take the scheduler's timer changes and reconcile the arm. */
    method SyncAndReconcile(sync: Sync) returns (ok: bool)
      requires Almost()
      modifies this`stale, deadline
      ensures Almost() && (stale ==> old(stale)) && (old(!Untroubled()) ==> !Untroubled())
      ensures View() == old(View()).(stale := stale, troubled := !Untroubled(),
                                     records := Synced(old(View()).records, sync))
      ensures ok ==> deadline.Armed() && !stale
      ensures !ok ==> !Untroubled()
      ensures sync.replies == Replies(true, true) ==> ok && Untroubled() == old(Untroubled())
    {
      hide Accounts, Timers, Departures, IsMinimum, Registry, Completions;
      hide Honest, Hooked, BookInv, LedgerGrows;
      var observed := deadline.SyncReceiveRecords(sync.cancellations, sync.schedules, sync.now);
      ok := deadline.Reconcile(observed, sync.replies);
      if ok {
        stale := false;
      }
    }

    /** A turn is requested only if the scheduler has something newly runnable. */
    method ScheduleExternalEdge(edge: bool, queueOk: bool) returns (ok: bool)
      requires Valid()
      modifies this, deadline, sink, capabilities
      ensures Valid() && Follows(old(View()), View()) && |scripts| <= |old(scripts)|
      ensures ok <==> !edge || old(state) != Idle || queueOk
      ensures ok ==> View() == (if edge then Asked(old(View())) else old(View()))
      ensures ok ==> unchanged(deadline) && unchanged(capabilities)
      ensures !ok ==> lastError && !Untroubled()
      decreases |scripts|, 4
    {
      hide Accounts, Timers, Departures, IsMinimum, Registry, Completions;
      hide Honest, Hooked, BookInv, LedgerGrows, Keeps, Grows;
      GrowsRefl(View());
      ok := true;
      if edge {
        ok := RequestExternalTurn(queueOk);
      }
    }

    /** A message: the arm is reconciled, then a turn is requested if one is due. */
    method SendMessage(sync: Sync) returns (ok: bool)
      requires Valid()
      modifies this, deadline, sink, capabilities
      ensures Valid() && Follows(old(View()), View()) && |scripts| <= |old(scripts)|
      ensures ok ==> deadline.Armed() && View() == Sent(old(View()), sync, !Untroubled())
      ensures ok && sync.replies == Replies(true, true) ==> Untroubled() == old(Untroubled())
      ensures !ok ==> !Untroubled() && (sync.replies == Replies(true, true) ==> lastError)
      ensures sync.replies == Replies(true, true) && (!sync.edge || old(state) != Idle || sync.queueOk) ==> ok
      decreases |scripts|, 5
    {
      hide Accounts, Timers, Departures, IsMinimum, Registry, Completions;
      hide Honest, Hooked, BookInv, LedgerGrows, Keeps, Grows, Sound;
      GrowsRefl(View());
      ok := SyncAndReconcile(sync);
      ghost var here := View();
      DeadlinesGrow(old(View()), here);
      if ok {
        ok := ScheduleExternalEdge(sync.edge, sync.queueOk);
        FollowsTrans(old(View()), here, View());
      }
    }

    /** A timer driven by the host: its record leaves, then as for a message. */
    method TimerFired(timerId: nat, sync: Sync) returns (ok: bool)
      requires Valid()
      modifies this, deadline, sink, capabilities
      ensures Valid() && Follows(old(View()), View()) && |scripts| <= |old(scripts)|
      ensures ok ==> deadline.Armed()
      ensures ok ==> View() == Sent(old(View()).(records := old(View()).records - {timerId}), sync, !Untroubled())
      ensures !ok ==> !Untroubled() && (sync.replies == Replies(true, true) ==> lastError)
      ensures sync.replies == Replies(true, true) && (!sync.edge || old(state) != Idle || sync.queueOk) ==> ok
      decreases |scripts|, 5
    {
      hide Accounts, Timers, Departures, IsMinimum, Registry, Completions;
      hide Honest, Hooked, BookInv, LedgerGrows, Keeps, Grows, Sound;
      GrowsRefl(View());
      ok := RemoveAndReconcile(timerId, sync);
      ghost var here := View();
      DeadlinesGrow(old(View()), here);
      if ok {
        ok := ScheduleExternalEdge(sync.edge, sync.queueOk);
        FollowsTrans(old(View()), here, View());
      }
    }

    method RemoveAndReconcile(timerId: nat, sync: Sync) returns (ok: bool)
      requires Almost()
      modifies this`stale, deadline
      ensures Almost() && (stale ==> old(stale)) && (old(!Untroubled()) ==> !Untroubled())
      ensures View() == old(View()).(stale := stale, troubled := !Untroubled(),
                                     records := Synced(old(View()).records - {timerId}, sync))
      ensures ok ==> deadline.Armed() && !stale
      ensures !ok ==> !Untroubled()
      ensures sync.replies == Replies(true, true) ==> ok && Untroubled() == old(Untroubled())
    {
      hide Accounts, Timers, Departures, IsMinimum, Registry, Completions;
      hide Honest, Hooked, BookInv, LedgerGrows, Turns;
      ghost var was := stale;
      RemoveRecord(timerId);
      ok := SyncAndReconcile(sync);
      if !ok {
        stale := was;
      }
    }

    method RemoveRecord(timerId: nat)
      requires Almost()
      modifies this`stale, deadline
      ensures Almost() && Untroubled() == old(Untroubled())
      ensures View() == old(View()).(stale := true, records := old(View()).records - {timerId})
    {
      hide Accounts, Timers, Departures, IsMinimum, Registry, Completions;
      hide Honest, Hooked, BookInv, LedgerGrows, Turns;
      var _ := deadline.RemoveReceiveRecord(timerId);
      stale := true;
    }

    /** A spawn or an actor call; where there is no error channel the error is latched. */
    method SpawnEdge(edge: bool, queueOk: bool, infallible: bool)
      requires Valid()
      modifies this, deadline, sink, capabilities
      ensures Valid() && Follows(old(View()), View()) && |scripts| <= |old(scripts)|
      ensures edge && old(state) == Idle && !queueOk ==> lastError && waiters == map[]
      ensures !(edge && old(state) == Idle && !queueOk) ==> View() == if edge then Asked(old(View())) else old(View())
      decreases |scripts|, 5
    {
      hide Accounts, Timers, Departures, IsMinimum, Registry, Completions;
      hide Honest, Hooked, BookInv, LedgerGrows, Keeps, Grows;
      var ok := ScheduleExternalEdge(edge, queueOk);
      if !ok && infallible {
        ghost var here := View();
        Fail();
        FollowsTrans(old(View()), here, View());
      }
    }

    // --- Turns ---

    /** The queued host callback. `outstanding` says the host owes one. */
    method ExecuteQueuedTurn(turn: Turn) returns (ghost ok: bool)
      requires Valid() && state != Draining && outstanding > 0
      modifies this, deadline, sink, capabilities
      ensures Valid() && state != Draining && |scripts| <= |old(scripts)|
      // an absorbed turn's callback does nothing
      ensures old(ignoredCallbacks) > 0 ==>
                View() == old(View()).(ignored := old(ignoredCallbacks) - 1, outstanding := old(outstanding) - 1)
      // the queued turn's callback runs exactly one drain
      ensures old(ignoredCallbacks) == 0 ==> old(state) == Queued && counters.executions == old(counters).executions + 1
      ensures old(ignoredCallbacks) == 0 ==> Turned(old(View()), View(), turn, old(sink.registered), ok)
      ensures old(ignoredCallbacks) == 0 && ok ==>
                forall pid :: pid in turn.exited || pid in turn.errored ==> pid !in waiters
      ensures !ok ==> lastError && waiters == map[]
      ensures turn.replies == Replies(true, true) ==> ok
      ensures GrowsOver(old(View()), View())
      decreases |scripts|, 7
    {
      hide Accounts, Timers, Departures, IsMinimum, Registry, Completions;
      hide Honest, Hooked, BookInv, LedgerGrows, Keeps, Grows, GrowsOver, Turned;
      GrowsRefl(View());
      ok := true;
      if ignoredCallbacks != 0 {
        outstanding, ignoredCallbacks := outstanding - 1, ignoredCallbacks - 1;
        AbsorbedOver(old(View()), View());
        return;
      }
      if state != Queued {
        assert false;
        return;
      }
      BeginQueued();
      ghost var start := View();
      ok := DrainEnvelope(turn);
      ExecutedOver(old(View()), start, View());
      TurnedFrom(old(View()), start, View(), turn, old(sink.registered), ok);
    }

    method BeginQueued()
      requires Valid() && state == Queued && ignoredCallbacks == 0 && outstanding > 0
      modifies this`state, this`stale, this`counters, this`outstanding
      ensures Almost() && View() == old(View()).(state := Draining, stale := true, outstanding := old(outstanding) - 1,
                       counters := old(counters).(queuedNow := 0, executions := old(counters).executions + 1))
    {
      hide Accounts, Timers, Departures, IsMinimum, Registry, Completions;
      hide Honest, Hooked, BookInv, LedgerGrows;
      outstanding := outstanding - 1;
      state := Draining;
      stale := true;
      counters := counters.(queuedNow := 0, executions := counters.executions + 1);
    }

    /** A manual drain; one queued turn, if any, is absorbed by it. */
    method RunManualDrain(turn: Turn) returns (r: DrainResult)
      requires Valid()
      modifies this, deadline, sink, capabilities
      ensures Valid() && Follows(old(View()), View()) && |scripts| <= |old(scripts)|
      ensures r == AlreadyDraining <==> old(state) == Draining
      ensures r == AlreadyDraining ==> View() == old(View())
      ensures r != AlreadyDraining ==>
                Turned(old(View()), View(), turn, old(sink.registered), r == Drained)
      ensures r == Drained ==> forall pid :: pid in turn.exited || pid in turn.errored ==> pid !in waiters
      ensures r == DrainFailed ==> lastError && waiters == map[]
      ensures turn.replies == Replies(true, true) ==> r != DrainFailed
      decreases |scripts|, 7
    {
      hide Accounts, Timers, Departures, IsMinimum, Registry, Completions;
      hide Honest, Hooked, BookInv, LedgerGrows, Keeps, Grows, Follows, Turned;
      GrowsRefl(View());
      if state == Draining {
        return AlreadyDraining;
      }
      BeginManual();
      ghost var start := View();
      var ok := DrainEnvelope(turn);
      r := if ok then Drained else DrainFailed;
      ManualFollows(old(View()), start, View());
      TurnedFrom(old(View()), start, View(), turn, old(sink.registered), ok);
    }

    method BeginManual()
      requires Valid() && state != Draining
      modifies this`state, this`stale, this`ignoredCallbacks, this`counters, this`absorbed
      ensures Almost()
      ensures View() == old(View()).(state := Draining, stale := true, ignored := ignoredCallbacks,
                                     counters := counters)
      ensures counters.executions == old(counters).executions
    {
      hide Accounts, Timers, Departures, IsMinimum, Registry, Completions;
      hide Honest, Hooked, BookInv, LedgerGrows;
      if state == Queued {
        ignoredCallbacks := ignoredCallbacks + 1;
        counters := counters.(queuedNow := 0);
        absorbed := absorbed + 1;
      }
      state := Draining;
      stale := true;
    }

    /** Drain, then flush while still draining, then leave the draining state, then
        settle waiters; a failed drain flushes too, then resets and latches. */
    method DrainEnvelope(turn: Turn) returns (ok: bool)
      requires Almost() && state == Draining && stale
      modifies this, deadline, sink, capabilities
      ensures Valid() && Grows(old(View()), View()) && |scripts| <= |old(scripts)| && state != Draining
      ensures Turned(old(View()), View(), turn, old(sink.registered), ok)
      ensures ok ==> forall pid :: pid in Exits(turn) ==> pid !in waiters
      ensures !ok ==> lastError && waiters == map[]
      ensures turn.replies == Replies(true, true) ==> ok
      decreases |scripts|, 6
    {
      hide Accounts, Timers, Departures, IsMinimum, Registry, Completions;
      hide Honest, Hooked, BookInv, LedgerGrows, Turns, Keeps, Grows, Follows;
      hide Delivered, Accepted, AfterFlush, SettledFor, Turned, Concluded, Stamp, Sound;
      ghost var v0 := View();
      ghost var registered := sink.registered;
      ok := PerformDrain(turn);
      ghost var v1 := View();
      ghost var k := Flush();
      ghost var v2 := View();
      FlushedGrows(v0, v1, v2);
      if ok {
        Conclude(turn);
        GrownSince(v2, View());
        GrowsTrans(v0, v2, View());
        TurnObserved(v0, v2, View(), turn, registered);
      } else {
        ResetAndFail();
        GrownSince(v2, View());
        TurnFailed(v0, v2, View(), turn, registered);
        GrowsTrans(v0, v2, View());
      }
    }

    /** A drain that succeeded: leave the draining state, then settle. */
    method Conclude(turn: Turn)
      requires Almost() && state == Draining && !stale
      modifies this, deadline, sink, capabilities
      ensures Valid() && Grows(old(View()), View()) && |scripts| <= |old(scripts)| && state != Draining
      ensures forall pid :: pid in Exits(turn) ==> pid !in waiters
      ensures Concluded(old(View()), View(), turn)
      decreases |scripts|, 5
    {
      hide Accounts, Timers, Departures, IsMinimum, Registry, Completions;
      hide Honest, Hooked, BookInv, LedgerGrows, Turns, Keeps, Grows, Follows;
      hide Observed, AnsweredAs, SettledFor, Concluded, ResolvedIn, AnswersIn, GoneAnswered;
      ghost var start := View();
      FinishDrain(turn.outcome, turn.queueOk);
      ghost var finished := View();
      ghost var at, swept := ResolveWaiters(turn.exited, turn.errored, turn.outcome.TrueIdle?);
      FollowsGrows(finished, View());
      GrowsTrans(start, finished, View());
      ConcludeTurn(start, finished, View(), turn, at, swept);
    }

    /** A drain whose deadline step failed: reset, then latch. */
    method ResetAndFail()
      requires Almost() && state == Draining && !Untroubled()
      modifies this, deadline, sink, capabilities
      ensures Valid() && Grows(old(View()), View()) && |scripts| <= |old(scripts)| && state != Draining
      ensures lastError && waiters == map[]
      decreases |scripts|, 2
    {
      hide Accounts, Timers, Departures, IsMinimum, Registry, Completions;
      hide Honest, Hooked, BookInv, LedgerGrows, Keeps;
      GrowsRefl(View());
      ghost var before := View();
      state := Idle;
      ghost var reset := View();
      Fail();
      GrowsTrans(before, reset, View());
    }

    /** Run the scheduler, then bring records, native deadline and arm up to date. */
    method PerformDrain(turn: Turn) returns (ok: bool)
      requires Almost() && state == Draining && stale
      modifies this`exitResults, this`exitErrors, this`stale, deadline, sink`pending, capabilities
      ensures Sound() && sink.pending == turn.writes
      ensures View() == old(View()).(stale := stale, troubled := !Untroubled(), ledger := View().ledger,
                                     issued := old(View()).issued + |turn.capabilityCalls|,
                                     records := Stamp(old(View()).records, turn),
                                     native := if turn.outcome.TrueIdle? then turn.outcome.native
                                               else old(View()).native)
      ensures Grows(old(View()), View())
      ensures SettledFor(View().ledger, View().issued, Exits(turn)) <==> NoHooks(old(View()), turn)
      ensures exitResults == old(exitResults) + Members(turn.exited)
              && exitErrors == old(exitErrors) + Members(turn.errored)
      ensures turn.replies == Replies(true, true) ==> ok
      ensures ok ==> !stale && deadline.Armed()
      ensures !ok ==> !Untroubled()
    {
      hide Accounts, Timers, Departures, IsMinimum, Registry, Completions;
      hide Honest, Hooked, BookInv, LedgerGrows, Turns, SettledFor, Sound, Grows;
      ghost var start := View();
      RunScheduler(turn);
      ghost var ran := View();
      ok := SettleDrained(turn);
      DeadlinesGrow(ran, View());
      GrowsTrans(start, ran, View());
    }

    /** The scheduler runs until it is idle or yields. */
    method RunScheduler(turn: Turn)
      requires Almost() && state == Draining
      modifies this`exitResults, this`exitErrors, sink`pending, capabilities
      ensures Sound() && sink.pending == turn.writes && Grows(old(View()), View())
      ensures View() == old(View()).(ledger := View().ledger, issued := old(View()).issued + |turn.capabilityCalls|)
      ensures SettledFor(View().ledger, View().issued, Exits(turn)) <==> NoHooks(old(View()), turn)
      ensures exitResults == old(exitResults) + Members(turn.exited)
              && exitErrors == old(exitErrors) + Members(turn.errored)
    {
      hide Accounts, Timers, Departures, IsMinimum, Registry, Completions;
      hide Honest, Hooked, BookInv, LedgerGrows, Turns, SettledFor, Keeps;
      GrowsRefl(View());
      ghost var first := capabilities.nextToken;
      RunUntilIdle(turn);
      CallsGrow(old(capabilities.ledger), first, capabilities.ledger, turn.capabilityCalls);
      CallsOpen(old(capabilities.ledger), first, capabilities.ledger, turn.capabilityCalls, Exits(turn));
    }

    /** Then the deadlines are brought up to date. */
    method SettleDrained(turn: Turn) returns (ok: bool)
      requires Sound() && stale
      modifies this`stale, deadline
      ensures Sound()
      ensures View() == old(View()).(stale := stale, troubled := !Untroubled(),
                                     records := Stamp(old(View()).records, turn),
                                     native := if turn.outcome.TrueIdle? then turn.outcome.native
                                               else old(View()).native)
      ensures old(!Untroubled()) ==> !Untroubled()
      ensures turn.replies == Replies(true, true) ==> ok
      ensures ok ==> !stale && deadline.Armed()
      ensures !ok ==> !Untroubled()
    {
      hide Accounts, Timers, Departures, IsMinimum, Registry, Completions;
      hide Honest, Hooked, BookInv, LedgerGrows, Turns;
      ok := SettleDeadlines(turn);
      if ok {
        stale := false;
      }
    }

    method SettleDeadlines(turn: Turn) returns (ok: bool)
      requires deadline.Valid()
      modifies deadline
      ensures deadline.Valid() && (ok ==> deadline.Armed()) && (!ok ==> !deadline.Untroubled())
      ensures old(!deadline.Untroubled()) ==> !deadline.Untroubled()
      ensures deadline.receiveDeadlines == Stamp(old(deadline.receiveDeadlines), turn)
      // a fairness yield carries no native deadline: the known one is kept
      ensures deadline.nativeEarliest
              == if turn.outcome.TrueIdle? then turn.outcome.native else old(deadline.nativeEarliest)
      ensures turn.replies == Replies(true, true) ==> ok
    {
      hide Accounts, Timers, Departures, IsMinimum;
      var observedReceive := deadline.SyncReceiveRecords(turn.cancellations, turn.schedules, turn.now);
      var observedNative := false;
      if turn.outcome.TrueIdle? {
        observedNative := deadline.UpdateNativeEarliest(turn.outcome.native);
      }
      ok := deadline.Reconcile(observedReceive || observedNative, turn.replies);
    }

    /** What the scheduler leaves behind: captured writes, capability calls, exits. */
    method RunUntilIdle(turn: Turn)
      requires capabilities.Valid() && sink.pending == []
      modifies this`exitResults, this`exitErrors, sink`pending, capabilities
      ensures capabilities.Valid() && sink.pending == turn.writes
      ensures capabilities.nextToken == old(capabilities.nextToken) + |turn.capabilityCalls|
      ensures CallsMade(old(capabilities.ledger), old(capabilities.nextToken), capabilities.ledger,
                        turn.capabilityCalls)
      ensures exitResults == old(exitResults) + Members(turn.exited)
              && exitErrors == old(exitErrors) + Members(turn.errored)
    {
      hide Registry, Completions;
      for i := 0 to |turn.writes|
        invariant sink.pending == turn.writes[..i] && capabilities.Valid()
        invariant capabilities.nextToken == old(capabilities.nextToken)
                  && capabilities.ledger == old(capabilities.ledger)
        invariant exitResults == old(exitResults) && exitErrors == old(exitErrors)
      {
        assert turn.writes[..i + 1] == turn.writes[..i] + [turn.writes[i]];
        sink.WriteStream(turn.writes[i].stream, turn.writes[i].text);
      }
      assert turn.writes[..|turn.writes|] == turn.writes;
      StartCalls(turn.capabilityCalls);
      exitResults := exitResults + Members(turn.exited);
      exitErrors := exitErrors + Members(turn.errored);
    }

    method StartCalls(pids: seq<nat>)
      requires capabilities.Valid()
      modifies capabilities
      ensures capabilities.Valid() && capabilities.nextToken == old(capabilities.nextToken) + |pids|
      ensures CallsMade(old(capabilities.ledger), old(capabilities.nextToken), capabilities.ledger, pids)
    {
      hide Registry, Completions, CallsMade;
      ghost var first := capabilities.nextToken;
      NoCallsYet(capabilities.inFlight, first, capabilities.ledger, capabilities.deadPidCompletions);
      assert pids[..0] == [];
      for i := 0 to |pids|
        invariant capabilities.Valid() && capabilities.nextToken == first + i
        invariant CallsMade(old(capabilities.ledger), first, capabilities.ledger, pids[..i])
      {
        NextCall(old(capabilities.ledger), first, capabilities.ledger, pids[..i], pids[i]);
        var _ := capabilities.StartCall(pids[i]);
        assert pids[..i + 1] == pids[..i] + [pids[i]];
      }
      assert pids[..|pids|] == pids;
    }

    /** Deliver every captured write in order; the first throw sends it and all that
        remain to the console. */
    method Flush() returns (ghost accepted: nat)
      requires Sound() && state == Draining
      modifies this, deadline, sink, capabilities
      ensures Almost() && |scripts| <= |old(scripts)|
      ensures accepted == if old(sink.registered) then Accepted(old(scripts), |old(sink.pending)|) else 0
      ensures scripts == if old(sink.registered) then AfterFlush(old(scripts), |old(sink.pending)|) else old(scripts)
      ensures trace == old(trace) + Delivered(old(sink.pending), accepted)
      ensures FlushKeeps(old(View()), View())
      ensures !old(sink.registered) ==> View().records == old(View()).records
      decreases |scripts|, 5
    {
      hide Accounts, Timers, Departures, IsMinimum, Registry, Completions;
      hide Honest, Hooked, BookInv, LedgerGrows, Turns, Keeps, Delivered, Flushing, Accepted, AfterFlush, Sound;
      hide FlushKeeps;
      FlushKeepsRefl(View());
      var writes := sink.Drain();
      var callback := sink.registered;
      ghost var n := |writes|;
      accepted := 0;
      assert writes[..0] == [] && Delivered([], 0) == [];
      FlushStart(scripts, callback, n);
      for i := 0 to |writes|
        invariant Almost() && |scripts| <= |old(scripts)| && state == Draining
        invariant Flushing(old(scripts), old(sink.registered), n, i, callback, accepted, scripts)
        invariant accepted <= i && (callback ==> accepted == i)
        invariant !old(sink.registered) ==> !callback && View().records == old(View()).records
        invariant trace == old(trace) + Delivered(writes[..i], accepted)
        invariant FlushKeeps(old(View()), View())
      {
        ghost var before := View();
        FlushNext(old(scripts), old(sink.registered), n, i, callback, accepted, scripts);
        var delivered := Deliver(writes[i], callback);
        callback := delivered;
        FlushKeepsTrans(old(View()), before, View());
        DeliveredNext(writes, i, accepted, delivered);
        accepted := if delivered then accepted + 1 else accepted;
      }
      assert writes[..|writes|] == writes;
      FlushEnd(old(scripts), old(sink.registered), n, callback, accepted, scripts);
      assert Flushed(old(scripts), old(sink.registered), n, accepted, scripts);
    }

    /** One captured write, to the callback if there is one that does not throw. */
    method Deliver(write: Write, callback: bool) returns (delivered: bool)
      requires Almost() && state == Draining
      modifies this, deadline, sink, capabilities
      ensures Almost()
      ensures delivered <==> callback && !ThrowsFirst(old(scripts))
      ensures scripts == if callback then Rest(old(scripts)) else old(scripts)
      ensures trace == old(trace) + [Wrote(write, if delivered then Callback else Console)]
      ensures FlushKeeps(old(View()), View())
      ensures !callback ==> View().records == old(View()).records
      decreases |scripts|, 4
    {
      hide Accounts, Timers, Departures, IsMinimum, Registry, Completions;
      hide Honest, Hooked, BookInv, LedgerGrows, Turns, Keeps;
      GrowsRefl(View());
      delivered := false;
      if callback {
        var threw := InvokeCallback();
        delivered := !threw;
      }
      ghost var event := Wrote(write, if delivered then Callback else Console);
      OtherKeepsHonest(trace, book.settled, hookTurns, event);
      HookedStays(trace, [event], capabilities.ledger.aborted, owed);
      trace := trace + [event];
    }

    method FinishDrain(outcome: RunState, queueOk: bool)
      requires Almost() && state == Draining && !stale
      modifies this, deadline, sink, capabilities
      ensures Valid() && Grows(old(View()), View()) && |scripts| <= |old(scripts)| && state != Draining
      ensures outcome.TrueIdle? ==> View() == old(View()).(state := Idle)
      // a fairness yield is continued by one queued turn, or by nothing ever again
      ensures outcome.FairnessYield? && queueOk ==> View() == WithTurn(old(View()))
      ensures outcome.FairnessYield? && !queueOk ==> lastError
      decreases |scripts|, 3
    {
      hide Accounts, Timers, Departures, IsMinimum, Registry, Completions;
      hide Honest, Hooked, BookInv, LedgerGrows, Keeps;
      GrowsRefl(View());
      if outcome.TrueIdle? {
        state := Idle;
      } else {
        var ok := QueueTurn(queueOk);
        if !ok {
          ghost var here := View();
          Fail();
          GrowsTrans(old(View()), here, View());
        }
      }
    }

    /** One observation of exits aborts the pids' capability requests, then settles the
        waiters. From `at` on it only tells; `swept` is the book when the last hook has
        returned. */
    method ResolveWaiters(exited: seq<nat>, errored: seq<nat>, trueIdle: bool)
      returns (ghost at: nat, ghost swept: Book)
      requires Valid() && state != Draining && (trueIdle ==> state == Idle)
      modifies this, deadline, sink, capabilities
      ensures Valid() && Follows(old(View()), View()) && |scripts| <= |old(scripts)|
      ensures forall pid :: pid in exited || pid in errored ==> pid !in waiters
      ensures SettledFor(capabilities.ledger, old(capabilities.nextToken), Members(exited) + Members(errored))
      // whatever hooks do, the waiters parked when they have returned are answered last
      ensures AnswersIn(old(View()), View(), exited, errored, trueIdle, at, swept)
      ensures GoneAnswered(old(book), book, Members(exited) + Members(errored))
      // no request of theirs in flight: no hook, and everybody is told in the state kept
      ensures old(capabilities.inFlight).Keys !! Members(exited) + Members(errored) ==> scripts == old(scripts)
      ensures |scripts| == |old(scripts)| ==> ResolvedIn(old(View()), View(), exited, errored, trueIdle, old(state))
      // one in flight: a hook that sends one message has everybody told while queued
      ensures (!(old(capabilities.inFlight).Keys !! Members(exited) + Members(errored)) && OneSend(old(scripts))) ==>
                ResolvedIn(old(View()), View(), exited, errored, trueIdle, Queued)
      ensures SettledFor(old(capabilities.ledger), old(capabilities.nextToken), Members(exited) + Members(errored))
              <==> old(capabilities.inFlight).Keys !! Members(exited) + Members(errored)
      decreases |scripts|, 2
    {
      hide Accounts, Timers, Departures, IsMinimum, Registry, Completions;
      hide Honest, Hooked, BookInv, LedgerGrows, Turns, Keeps, Follows, SettledFor;
      hide Observed, SentOnce, Hushed, GoneAnswered, AnswersIn, ResolvedIn;
      ghost var start := View();
      ghost var pids := exited + errored;
      NoneInFlight(capabilities.inFlight, capabilities.nextToken, capabilities.ledger, Members(pids));
      SweepCapabilities(exited + errored);
      assert Members(pids) == Members(exited) + Members(errored);
      ghost var before := View();
      at, swept := |trace|, book;
      SettleObserved(exited, errored, trueIdle);
      FollowsTrans(start, before, View());
      FollowsGrows(start, View());
      GrownSince(start, View());
      AnsweredLast(start, before, View(), exited, errored, trueIdle);
      AnsweredHere(start, before, View(), exited, errored, trueIdle);
      GoneAreAnswered(start.book, book, Members(pids));
    }

    /** Exited pids first, then errored ones; a settled idle then answers all that
        remain. Whether the arbiter is idle is taken from the drain that has ended. */
    method SettleObserved(exited: seq<nat>, errored: seq<nat>, trueIdle: bool)
      requires Valid() && state != Draining
      modifies this`waiters, this`book, this`trace, this`exitResults, this`hookTurns
      ensures Valid() && Follows(old(View()), View())
      ensures View() == old(View()).(book := book, trace := trace, hookTurns := hookTurns)
      ensures hookTurns == old(hookTurns) + if trueIdle && state != Idle then 1 else 0
      ensures Tells(old(trace), trace, state)
      ensures forall pid :: pid in exited || pid in errored ==> pid !in waiters
      ensures trueIdle && !deadline.HasPendingDeadline() ==> waiters == map[]
      ensures Observed(old(book), book, Members(exited), Members(errored), trueIdle && !Pending(View()))
    {
      hide Accounts, Timers, Departures, IsMinimum, Registry, Completions;
      hide Honest, Hooked, BookInv, LedgerGrows, Turns, Keeps, Observed, Settles;
      ghost var before := View();
      if trueIdle && state != Idle {
        HookTurnKeepsHonest(trace, book.settled, hookTurns);
        hookTurns := hookTurns + 1;
      }
      TellObserved(exited, errored, trueIdle);
      ObservedKeeps(old(book), book, Members(exited), Members(errored), trueIdle && !deadline.HasPendingDeadline());
      TellingFollows(before, View());
    }

    method TellObserved(exited: seq<nat>, errored: seq<nat>, trueIdle: bool)
      requires Accounted() && state != Draining && (trueIdle && hookTurns == 0 ==> state == Idle)
      modifies this`waiters, this`book, this`trace, this`exitResults
      ensures Accounted() && Tells(old(trace), trace, state) && waiters.Keys <= old(waiters).Keys
      ensures forall pid :: pid in exited || pid in errored ==> pid !in waiters
      ensures trueIdle && !deadline.HasPendingDeadline() ==> waiters == map[]
      ensures Observed(old(book), book, Members(exited), Members(errored), trueIdle && !deadline.HasPendingDeadline())
    {
      hide Accounts, Timers, Departures, IsMinimum, Registry, Completions;
      hide Honest, Hooked, BookInv, LedgerGrows, Turns, Keeps, Observed, Settles;
      SettleExited(exited);
      ghost var told := book;
      SettleErrored(errored);
      ghost var done := book;
      if trueIdle && !deadline.HasPendingDeadline() {
        SettleAll(SettledIdle);
      }
      ObservedInOrder(old(book), told, done, book, Members(exited), Members(errored),
                      trueIdle && !deadline.HasPendingDeadline());
    }

    /** The exit result is consumed only if somebody waited for it. */
    method SettleExited(pids: seq<nat>)
      requires Accounted() && state != Draining
      modifies this`waiters, this`book, this`trace, this`exitResults
      ensures Accounted() && Tells(old(trace), trace, state)
      ensures Settles(old(book), book, Members(pids), Exited)
      ensures waiters == old(waiters) - Members(pids)
      ensures exitResults == old(exitResults) - Members(pids) * old(waiters).Keys
    {
      hide Accounts, Timers, Departures, IsMinimum, Registry, Completions;
      hide Honest, Hooked, BookInv, LedgerGrows, Settles, Keeps;
      SettlesNone(book, Exited);
      assert Members(pids[..0]) == {};
      for i := 0 to |pids|
        invariant Accounted() && Tells(old(trace), trace, state)
        invariant Settles(old(book), book, Members(pids[..i]), Exited)
        invariant waiters == old(waiters) - Members(pids[..i])
        invariant exitResults == old(exitResults) - Members(pids[..i]) * old(waiters).Keys
      {
        assert Members(pids[..i + 1]) == Members(pids[..i]) + {pids[i]};
        ghost var before := book;
        var waited := pids[i] in waiters;
        SettlePid(pids[i], Exited);
        if waited {
          exitResults := exitResults - {pids[i]};
        }
        SettlesTrans(old(book), before, book, Members(pids[..i]), {pids[i]}, Exited);
      }
      assert pids[..|pids|] == pids;
    }

    method SettleErrored(pids: seq<nat>)
      requires Accounted() && state != Draining
      modifies this`waiters, this`book, this`trace
      ensures Accounted() && Tells(old(trace), trace, state)
      ensures Settles(old(book), book, Members(pids), Errored)
      ensures waiters == old(waiters) - Members(pids)
    {
      hide Accounts, Timers, Departures, IsMinimum, Registry, Completions;
      hide Honest, Hooked, BookInv, LedgerGrows, Settles, Keeps;
      SettlesNone(book, Errored);
      assert Members(pids[..0]) == {};
      for i := 0 to |pids|
        invariant Accounted() && Tells(old(trace), trace, state)
        invariant Settles(old(book), book, Members(pids[..i]), Errored)
        invariant waiters == old(waiters) - Members(pids[..i])
      {
        assert Members(pids[..i + 1]) == Members(pids[..i]) + {pids[i]};
        ghost var before := book;
        SettlePid(pids[i], Errored);
        SettlesTrans(old(book), before, book, Members(pids[..i]), {pids[i]}, Errored);
      }
      assert pids[..|pids|] == pids;
    }

    /** Aborts every request of the pids that was not taken, and calls its hook. */
    method SweepCapabilities(pids: seq<nat>)
      requires Valid() && state != Draining
      modifies this, deadline, sink, capabilities
      ensures Valid() && Follows(old(View()), View()) && |scripts| <= |old(scripts)| && state != Draining
      ensures SettledFor(capabilities.ledger, old(capabilities.nextToken), Members(pids))
      ensures Hooking(old(View()), View(), Members(pids))
      decreases |scripts|, 1
    {
      hide Accounts, Timers, Departures, IsMinimum, Registry, Completions;
      hide Honest, Hooked, BookInv, LedgerGrows, Keeps, Follows, Turns, SettledFor, Issued, Hooking;
      GrowsRefl(View());
      NobodySettled(capabilities.inFlight, capabilities.nextToken, capabilities.ledger);
      NoHookYet(View());
      assert Members(pids[..0]) == {};
      for i := 0 to |pids|
        invariant Valid() && Follows(old(View()), View()) && |scripts| <= |old(scripts)| && state != Draining
        invariant Issued(capabilities.ledger, old(capabilities.nextToken))
                  && SettledFor(capabilities.ledger, old(capabilities.nextToken), Members(pids[..i]))
        invariant Hooking(old(View()), View(), Members(pids[..i]))
      {
        assert Members(pids[..i + 1]) == Members(pids[..i]) + {pids[i]};
        ghost var before := View();
        AbortPid(pids[i]);
        HookingNext(old(View()), before, View(), Members(pids[..i]), pids[i]);
        SweptNext(old(View()), before, View(), Members(pids[..i]), pids[i]);
        FollowsTrans(old(View()), before, View());
      }
      assert pids[..|pids|] == pids;
    }

    /** The death sweep of one pid. All its entries leave the registry before the first
        hook is called. */
    method AbortPid(pid: nat)
      requires Valid() && state != Draining
      modifies this, deadline, sink, capabilities
      ensures Valid() && Follows(old(View()), View()) && |scripts| <= |old(scripts)| && state != Draining
      ensures Issued(capabilities.ledger, old(capabilities.nextToken))
              && SettledFor(capabilities.ledger, old(capabilities.nextToken), {pid})
      ensures Hooking(old(View()), View(), {pid})
      decreases |scripts|, 0, 2
    {
      hide Accounts, Timers, Departures, IsMinimum, Registry, Completions;
      hide Honest, Hooked, BookInv, LedgerGrows, Keeps, Follows, Turns, SettledFor, Issued, Hooking, SentOnce, Hushed;
      GrowsRefl(View());
      ghost var start := View();
      SettledIffAbsent(capabilities.inFlight, capabilities.nextToken, capabilities.ledger, pid);
      var entries := capabilities.OnPidExit(pid);
      SweptIsSettled(capabilities.inFlight, capabilities.nextToken, capabilities.ledger, pid);
      ghost var bound := capabilities.nextToken;
      assert Members(entries) !! start.ledger.aborted;
      NotOwedYet(trace, start.ledger.aborted, owed, Members(entries));
      MoreOwed(trace, start.ledger.aborted, owed, Members(entries));
      owed := owed + Members(entries);
      AbortStep(start, start, View(), owed);
      ghost var aborted := View();
      CallHooks(entries, start);
      LedgerStays(aborted, View(), bound, {pid});
      HookingPid(start, aborted, View(), pid, entries);
    }

    /** Calls the hook of every drained entry, in order, each recorded as it is called. */
    method CallHooks(entries: seq<nat>, ghost start: Core)
      requires Valid() && state != Draining && start.state != Draining
      requires Distinct(entries) && Members(entries) !! start.owed && owed == start.owed + Members(entries)
      requires Follows(start.(owed := owed), View())
      modifies this, deadline, sink, capabilities
      ensures Valid() && Follows(start, View()) && |scripts| <= |old(scripts)| && state != Draining
      ensures LedgerGrows(old(capabilities.ledger), capabilities.ledger)
      ensures HooksLeave(old(View()), View(), |entries|)
      decreases |scripts|, 0, 1
    {
      hide Accounts, Timers, Departures, IsMinimum, Registry, Completions;
      hide Honest, Hooked, BookInv, LedgerGrows, Keeps, Follows, Turns, HooksLeave, SentOnce, Hushed;
      assert entries[0..] == entries;
      LedgerRefl(capabilities.ledger);
      NoHooksLeave(View());
      for j := 0 to |entries|
        invariant Valid() && |scripts| <= |old(scripts)| && state != Draining
        invariant owed == start.owed + Members(entries[j..])
        invariant Follows(start.(owed := owed), View()) && LedgerGrows(old(capabilities.ledger), capabilities.ledger)
        invariant HooksLeave(old(View()), View(), j)
      {
        OneHookLess(start.owed, entries, j);
        ghost var before := View();
        CallHook(entries[j], start);
        LedgerTrans(old(capabilities.ledger), before.ledger, capabilities.ledger);
        OneMoreHook(old(View()), before, View(), j);
      }
      assert entries[|entries|..] == [] && Members([]) == {};
      assert start.(owed := owed) == start;
    }

    /** One abort hook. */
    method CallHook(token: nat, ghost start: Core)
      requires Valid() && state != Draining && start.state != Draining && token in owed
      requires Follows(start.(owed := owed), View())
      modifies this, deadline, sink, capabilities
      ensures Valid() && |scripts| <= |old(scripts)| && state != Draining && owed == old(owed) - {token}
      ensures Follows(start.(owed := owed), View()) && LedgerGrows(old(capabilities.ledger), capabilities.ledger)
      ensures old(trace) + [AbortHook(token)] <= trace && (old(scripts) != [] ==> |scripts| < |old(scripts)|)
      ensures |scripts| == |old(scripts)| ==> Hushed(old(View()), View())
      ensures OneSend(old(scripts)) ==> SentOnce(old(View()), View()) && scripts == []
      decreases |scripts|, 0, 0, 1
    {
      hide Accounts, Timers, Departures, IsMinimum, Registry, Completions;
      hide Honest, Hooked, BookInv, LedgerGrows, Keeps, Follows, Turns, Sound, Hushed, SentOnce;
      ghost var before := View();
      RecordHook(token);
      HookStep(start, before, View(), owed);
      ghost var called := View();
      var _ := InvokeCallback();
      AfterInvoke(called, View());
      FollowsTrace(called, View());
      FollowsTrans(start.(owed := called.owed), called, View());
      HookLeaves(before, called, View(), token);
    }

    method RecordHook(token: nat)
      requires Valid() && token in owed
      modifies this`trace, this`owed
      ensures Valid()
      ensures View() == old(View()).(trace := old(trace) + [AbortHook(token)], owed := old(owed) - {token})
    {
      hide Accounts, Timers, Departures, IsMinimum, Registry, Completions;
      hide Honest, Hooked, BookInv, LedgerGrows, Turns;
      OtherKeepsHonest(trace, book.settled, hookTurns, AbortHook(token));
      HookCalled(trace, capabilities.ledger.aborted, owed, token);
      trace, owed := trace + [AbortHook(token)], owed - {token};
    }

    // --- Host events ---

    /** A timeout's callback runs. An admitted fire asks for exactly one turn; the callback
        of a cleared or replaced timeout does nothing. */
    method DeadlineCallback(token: nat, now: nat, queueOk: bool) returns (due: seq<(nat, nat)>)
      requires Valid() && state != Draining
      modifies this, deadline, sink, capabilities
      ensures Valid() && state != Draining && Follows(old(View()), View()) && |scripts| <= |old(scripts)|
      ensures token !in old(deadline.hostTimers) ==> View() == old(View()) && due == []
      ensures old(Untroubled()) && token in old(deadline.hostTimers) ==>
                if old(state) == Queued || queueOk then state == Queued else lastError && waiters == map[]
      ensures forall id: nat, pid: nat :: (id, pid) in due ==> DueAt(old(deadline.receiveDeadlines), id, pid, now)
      ensures old(deadline.history).clearThrows == 0 && token in old(deadline.hostTimers) ==>
                forall id: nat, pid: nat :: DueAt(old(deadline.receiveDeadlines), id, pid, now) ==> (id, pid) in due
      decreases |scripts|, 7
    {
      hide Accounts, Timers, Departures, IsMinimum, Registry, Completions;
      hide Honest, Hooked, BookInv, LedgerGrows, Keeps, Grows, Follows, Sound, DueAt;
      ghost var before := View();
      var admitted;
      admitted, due := TakeFire(token, now);
      if admitted {
        ghost var here := View();
        RequestOrLatch(queueOk);
        FollowsTrans(before, here, View());
        FollowsGrows(before, View());
      }
    }

    /** The held timeout gives up its arm and its due records; from here until the next
        reconciliation the arm may be out of date. */
    method TakeFire(token: nat, now: nat) returns (admitted: bool, due: seq<(nat, nat)>)
      requires Valid() && state != Draining
      modifies this`stale, deadline
      ensures Almost() && Follows(old(View()), View())
      ensures admitted ==> token in old(deadline.hostTimers)
      ensures old(deadline.history).clearThrows == 0 ==> (admitted <==> token in old(deadline.hostTimers))
      ensures !admitted ==> Valid() && View() == old(View()) && due == []
      ensures forall id: nat, pid: nat :: (id, pid) in due ==> DueAt(old(deadline.receiveDeadlines), id, pid, now)
      ensures admitted ==>
                forall id: nat, pid: nat :: DueAt(old(deadline.receiveDeadlines), id, pid, now) ==> (id, pid) in due
    {
      hide Accounts, Timers, Departures, IsMinimum, Registry, Completions;
      hide Honest, Hooked, BookInv, LedgerGrows, Turns, DueAt;
      GrowsRefl(View());
      admitted, due := deadline.CallbackFired(token, now);
      if admitted {
        stale := true;
      }
    }

    /** A capability promise settles, once per token. */
    method PromiseSettled(pid: nat, token: nat, built: bool, accepted: bool, edge: bool, queueOk: bool)
      requires Valid() && state != Draining
      requires token < capabilities.nextToken && token in capabilities.ledger.owner
               && capabilities.ledger.owner[token] == pid && token !in capabilities.ledger.completed
      modifies this, deadline, sink, capabilities
      ensures Valid() && state != Draining && |scripts| <= |old(scripts)|
      ensures GrowsOver(old(View()), View())
      // the token is completed, and its entry taken unless the sweep had it
      ensures capabilities.ledger.completed == old(capabilities.ledger).completed + {token}
      ensures capabilities.ledger.taken
              == if token in old(capabilities.ledger).aborted then old(capabilities.ledger).taken
                 else old(capabilities.ledger).taken + {token}
      // a completion after the death sweep is counted and wakes nobody
      ensures token in old(capabilities.ledger).aborted ==>
                && View() == old(View()).(ledger := capabilities.ledger)
                && capabilities.deadPidCompletions == old(capabilities.deadPidCompletions) + 1
      ensures token !in old(capabilities.ledger).aborted && built && edge ==>
                if old(state) == Queued || queueOk then state == Queued else lastError && waiters == map[]
      decreases |scripts|, 7
    {
      hide Accounts, Timers, Departures, IsMinimum, Registry, Completions;
      hide Honest, Hooked, BookInv, LedgerGrows, Keeps, GrowsOver;
      GrowsRefl(View());
      var swept := token in capabilities.ledger.aborted;
      var _ := capabilities.FinishRequest(pid, token, built, accepted);
      assert LedgerGrows(old(capabilities.ledger), capabilities.ledger) by {
        Landed(old(capabilities.ledger), capabilities.ledger);
      }
      ghost var landed := View();
      GrowsRefl(landed);
      if !swept && built && edge {
        RequestOrLatch(queueOk);
      }
      GrownOver(old(View()), landed, View());
    }

    /** The host runs a turn callback only if it holds one, and settles a promise once.
        Any timeout callback may run, also of a timeout that was cleared or has run. */
    predicate HostMay(event: HostEvent)
      reads this, deadline, capabilities
    {
      match event
      case Call(_) => true
      case TurnCallback(_) => outstanding > 0
      case TimerCallback(_, _, _) => true
      case CapabilitySettled(pid, token, _, _, _, _) =>
        token < capabilities.nextToken && token in capabilities.ledger.owner
        && capabilities.ledger.owner[token] == pid && token !in capabilities.ledger.completed
    }

    /** Every run of the VM under every host: any calls, any callbacks the host may run
        in any order, anything throwing at any time. */
    method Run(events: seq<HostEvent>)
      requires Valid() && state != Draining && owed == {}
      modifies this, deadline, sink, capabilities
      ensures Valid() && state != Draining && owed == {}
      ensures GrowsOver(old(View()), View())
    {
      hide BookInv, Keeps, Almost, Follows, GrowsOver;
      OverRefl(View());
      for i := 0 to |events|
        invariant Valid() && state != Draining && owed == {}
        invariant GrowsOver(old(View()), View())
      {
        ghost var before := View();
        OverRefl(before);
        if HostMay(events[i]) {
          match events[i] {
            case Call(op) =>
              Perform(op);
              FollowsIsOver(before, View());
            case TurnCallback(turn) => var _ := ExecuteQueuedTurn(turn);
            case TimerCallback(token, now, queueOk) =>
              var _ := DeadlineCallback(token, now, queueOk);
              FollowsIsOver(before, View());
            case CapabilitySettled(pid, token, built, accepted, edge, queueOk) =>
              PromiseSettled(pid, token, built, accepted, edge, queueOk);
          }
        }
        OverTrans(old(View()), before, View());
      }
    }
  }

  /** An idle answer given while a turn is queued. Somebody waits for pid 2. In one queued
      turn pid 1 makes a capability request and exits, and the drain ends in a true idle;
      the hook of its request sends a message, which queues a turn; then the waiter for
      pid 2 is told "idle" all the same. */
  method IdleToldWhileQueued() returns (arbiter: HostArbiter)
    ensures arbiter.Valid() && arbiter.state == Queued
    ensures exists i :: 0 <= i < |arbiter.trace| && IdleTold(arbiter.trace[i]) && arbiter.trace[i].state == Queued
  {
    hide Accounts, Timers, Departures, IsMinimum, Registry, Completions;
    hide Honest, Hooked, BookInv, LedgerGrows, Turns, Keeps, Follows, GrowsOver, Turned, AnswersFrom, SettledFor;
    hide HostArbiter.Sound;
    arbiter := new HostArbiter([Script([SendMessage(Sync([], [], 0, Replies(true, true), true, true))], false)]);
    var waiter := arbiter.AwaitExit(2, true);
    var asked := arbiter.RequestExternalTurn(true);
    ghost var before := arbiter.View();
    assert waiter == Parked(0) && 0 in before.book.pidOf && before.book.pidOf[0] == 2 && 0 !in before.book.settled;
    var turn := Turn([], [1], [], [], 0, TrueIdle(None), [1], [], Replies(true, true), true);
    ghost var ok := arbiter.ExecuteQueuedTurn(turn);
    assert turn.capabilityCalls[0] in Exits(turn);
    SentInTurn(before, arbiter.View(), turn);
    assert Output(before, turn, false) == before.trace;
    arbiter.IsHonest();
    IdleWasTold(arbiter.book, arbiter.trace, arbiter.hookTurns, 0, before.trace, Queued);
  }

  /** From the wait to the answer: somebody waits for a pid, any host events happen, and
      then a drain observes the pid. `before` is the state in which that drain begins. */
  method AwaitedIsTold(arbiter: HostArbiter, pid: nat, runnable: bool, events: seq<HostEvent>, turn: Turn)
    returns (r: AwaitResult, d: DrainResult, ghost before: Core)
    requires arbiter.Valid() && arbiter.state != Draining && arbiter.owed == {}
    modifies arbiter, arbiter.deadline, arbiter.sink, arbiter.capabilities
    ensures arbiter.Valid() && d != AlreadyDraining
    // the waiter is answered, whatever callbacks do
    ensures r.Parked? && d == Drained && (pid in turn.exited || pid in turn.errored) ==> r.id in arbiter.book.settled
    // if nobody answered it before, and no callback acts, it is told what became of the pid
    ensures (r.Parked? && d == Drained && (pid in turn.exited || pid in turn.errored)
             && r.id !in before.book.settled && Continues(turn) && NoHooks(before, turn)) ==>
              arbiter.book.settled[r.id] == if pid in turn.exited then Waiters.Exited else Waiters.Errored
  {
    hide Accounts, Timers, Departures, IsMinimum, Registry, Completions;
    hide Honest, Hooked, BookInv, LedgerGrows, Turns, Keeps, Follows, GrowsOver, Turned, NoHooks, Continues;
    hide HostArbiter.Sound;
    r := arbiter.AwaitExit(pid, runnable);
    ghost var parked := arbiter.View();
    arbiter.Run(events);
    before := arbiter.View();
    ghost var registered := arbiter.sink.registered;
    d := arbiter.RunManualDrain(turn);
    if r.Parked? && d == Drained && (pid in turn.exited || pid in turn.errored) {
      ParkedIsAnswered(parked, before, arbiter.View(), turn, registered, pid, r.id);
    }
  }

  lemma SomeKey<K(!new), V>(m: map<K, V>)
    requires m != map[]
    ensures exists k :: k in m
  {
  }
}
