/** The unified deadline service: receive records and the native deadline, one host
    timeout armed at their minimum, and the accounting of every arm. */
module Deadline {
  import opened Wrappers

  datatype ReceiveDeadline = ReceiveDeadline(pid: nat, deadline: nat)
  datatype Schedule = Schedule(timerId: nat, pid: nat, milliseconds: nat)
  datatype Arm = Arm(deadline: nat, token: nat)

  datatype Counters = Counters(
    requests: nat, queuedNow: nat, executions: nat, cancellations: nat,
    rearmsEarlier: nat, cancelMovesOrClears: nat, laterNoops: nat, nextArms: nat)

  /** How the host answers the primitives one reconcile may call. */
  datatype Replies = Replies(clearOk: bool, setOk: bool)

  /** `m` is the least pending deadline of either class, or None when there is none. */
  ghost predicate IsMinimum(records: map<nat, ReceiveDeadline>, native: Option<nat>, m: Option<nat>) {
    match m
    case None => native == None && forall id :: id !in records
    case Some(d) =>
      && (native == Some(d) || exists id :: id in records && records[id].deadline == d)
      && (forall id :: id in records ==> d <= records[id].deadline)
      && (native.Some? ==> d <= native.value)
  }

  /** Ghost history: arms whose clear or set threw, records that came and went. */
  datatype History = History(
    clearThrows: nat, setThrows: nat, unmoved: nat,
    inserted: nat, fired: nat, retired: nat,
    fires: seq<(nat, nat)>)

  predicate DueAt(records: map<nat, ReceiveDeadline>, id: nat, pid: nat, now: nat) {
    id in records && records[id].deadline <= now && records[id].pid == pid
  }

  /** The records that a callback at `now` leaves. */
  function NotDue(records: map<nat, ReceiveDeadline>, now: nat): map<nat, ReceiveDeadline> {
    map id | id in records && records[id].deadline > now :: records[id]
  }

  function Less(n: nat): nat {
    if n == 0 then 0 else n - 1
  }

  /** Every arm requested was executed, cancelled or is still outstanding; the gauge
      counts the held arm and one more for each clear that threw; every retired arm
      was moved or cleared, unless the re-arm threw. */
  ghost predicate Accounts(c: Counters, arm: Option<Arm>, clearThrows: nat, setThrows: nat, unmoved: nat) {
    && c.requests == c.executions + c.cancellations + c.queuedNow
    && c.queuedNow == (if arm.Some? then 1 else 0) + clearThrows
    && c.cancellations == c.rearmsEarlier + c.cancelMovesOrClears + unmoved
    && unmoved <= setThrows
  }

  /** Tokens are never reused; the host holds the current arm and, until a clear has
      thrown, nothing else. */
  ghost predicate Timers(hostTimers: set<nat>, arm: Option<Arm>, nextToken: nat, clearThrows: nat) {
    && (forall t :: t in hostTimers ==> t < nextToken)
    && (arm.Some? ==> arm.value.token in hostTimers)
    && (clearThrows == 0 ==> forall t :: t in hostTimers <==> arm.Some? && t == arm.value.token)
  }

  /** Each record that came in is present or left exactly once, and none was fired
      before its stamp. */
  ghost predicate Departures(records: map<nat, ReceiveDeadline>, inserted: nat, fired: nat, retired: nat,
                             fires: seq<(nat, nat)>)
  {
    && inserted == |records| + fired + retired
    && |fires| == fired
    && (forall i :: 0 <= i < |fires| ==> fires[i].0 <= fires[i].1)
  }

  lemma RemovedNone(records: map<nat, ReceiveDeadline>)
    ensures records - Members([]) == records
  {
  }

  lemma RemovedNext(records: map<nat, ReceiveDeadline>, ids: seq<nat>, id: nat)
    ensures records - Members(ids + [id]) == records - Members(ids) - {id}
  {
  }

  class HostDeadlineService {
    var receiveDeadlines: map<nat, ReceiveDeadline>
    var nativeEarliest: Option<nat>
    var activeArm: Option<Arm>
    var nextArmToken: nat
    var counters: Counters
    /** Timeouts the host still holds, by arm token. */
    var hostTimers: set<nat>
    ghost var history: History

    ghost predicate Valid()
      reads this
    {
      && Accounts(counters, activeArm, history.clearThrows, history.setThrows, history.unmoved)
      && Timers(hostTimers, activeArm, nextArmToken, history.clearThrows)
      && Departures(receiveDeadlines, history.inserted, history.fired, history.retired, history.fires)
    }

    ghost predicate Armed()
      reads this
    {
      IsMinimum(receiveDeadlines, nativeEarliest, if activeArm.Some? then Some(activeArm.value.deadline) else None)
    }

    ghost predicate Untroubled()
      reads this
    {
      history.clearThrows == 0 && history.setThrows == 0
    }

    constructor ()
      ensures Valid() && Armed() && Untroubled() && receiveDeadlines == map[] && nativeEarliest == None
      ensures hostTimers == {}
    {
      receiveDeadlines, nativeEarliest, activeArm, nextArmToken := map[], None, None, 0;
      counters := Counters(0, 0, 0, 0, 0, 0, 0, 0);
      hostTimers := {};
      history := History(0, 0, 0, 0, 0, 0, []);
      new;
      hide IsMinimum, Departures, Accounts, Timers;
      FreshIsValid();
    }

    lemma FreshIsValid()
      requires (counters.requests == counters.queuedNow == counters.executions == counters.cancellations == 0)
               && counters.rearmsEarlier == 0 == counters.cancelMovesOrClears
      requires activeArm == None && hostTimers == {} && receiveDeadlines == map[] && nativeEarliest == None
      requires (history.clearThrows == history.setThrows == history.unmoved == history.inserted == 0)
               && history.fired == 0 == history.retired && history.fires == []
      ensures Valid() && Armed() && Untroubled()
    {
    }

    predicate HasPendingDeadline()
      reads this
    {
      nativeEarliest.Some? || receiveDeadlines != map[]
    }

    /** Cancellations first, then every schedule stamped at one sampled instant. */
    method SyncReceiveRecords(cancellations: seq<nat>, schedules: seq<Schedule>, now: nat) returns (observed: bool)
      requires Valid()
      modifies this`receiveDeadlines, this`history
      ensures Valid() && observed == (schedules != [])
      ensures receiveDeadlines == Stamped(old(receiveDeadlines) - Members(cancellations), schedules, now)
      ensures history == old(history).(retired := history.retired, inserted := history.inserted)
      // a timer scheduled here has the pid and the deadline of its last schedule, any other
      // keeps its record unless it is cancelled
      ensures forall k: nat :: LastFor(schedules, k) ==>
                var next := schedules[k];
                && next.timerId in receiveDeadlines
                && receiveDeadlines[next.timerId] == ReceiveDeadline(next.pid, now + next.milliseconds)
      ensures forall id: nat :: NotScheduled(schedules, id) ==>
                && (id in receiveDeadlines <==> id in old(receiveDeadlines) && id !in cancellations)
                && (id in receiveDeadlines ==> receiveDeadlines[id] == old(receiveDeadlines)[id])
    {
      StampedExactly(receiveDeadlines - Members(cancellations), schedules, now);
      DrainCancellations(cancellations);
      if schedules == [] {
        return false;
      }
      DrainSchedules(schedules, now);
      return true;
    }

    method DrainCancellations(cancellations: seq<nat>)
      requires Valid()
      modifies this`receiveDeadlines, this`history
      ensures Valid()
      ensures receiveDeadlines == old(receiveDeadlines) - Members(cancellations)
      ensures history == old(history).(retired := history.retired)
    {
      hide Accounts, Timers, Departures, Members;
      RemovedNone(receiveDeadlines);
      assert cancellations[..0] == [];
      for i := 0 to |cancellations|
        invariant Valid() && history == old(history).(retired := history.retired)
        invariant receiveDeadlines == old(receiveDeadlines) - Members(cancellations[..i])
      {
        assert cancellations[..i + 1] == cancellations[..i] + [cancellations[i]];
        RemovedNext(old(receiveDeadlines), cancellations[..i], cancellations[i]);
        var _ := RemoveReceiveRecord(cancellations[i]);
      }
      assert cancellations[..|cancellations|] == cancellations;
    }

    method DrainSchedules(schedules: seq<Schedule>, now: nat)
      requires Valid()
      modifies this`receiveDeadlines, this`history
      ensures Valid()
      ensures receiveDeadlines == Stamped(old(receiveDeadlines), schedules, now)
      ensures history == old(history).(retired := history.retired, inserted := history.inserted)
    {
      hide Accounts, Timers, Departures, Stamped;
      StampedNone(receiveDeadlines, now);
      assert schedules[..0] == [];
      for i := 0 to |schedules|
        invariant Valid() && history == old(history).(retired := history.retired, inserted := history.inserted)
        invariant receiveDeadlines == Stamped(old(receiveDeadlines), schedules[..i], now)
      {
        assert schedules[..i + 1] == schedules[..i] + [schedules[i]];
        StampedNext(old(receiveDeadlines), schedules[..i], schedules[i], now);
        Insert(schedules[i].timerId, ReceiveDeadline(schedules[i].pid, now + schedules[i].milliseconds));
      }
      assert schedules[..|schedules|] == schedules;
    }

    /** A record comes in; one with its id that was there before is retired. */
    method Insert(id: nat, record: ReceiveDeadline)
      requires Valid()
      modifies this`receiveDeadlines, this`history
      ensures Valid() && receiveDeadlines == old(receiveDeadlines)[id := record]
      ensures history == old(history).(retired := history.retired, inserted := history.inserted)
    {
      hide Accounts, Timers;
      InsertSize(receiveDeadlines, id, record);
      history := history.(inserted := history.inserted + 1,
                          retired := history.retired + if id in receiveDeadlines then 1 else 0);
      receiveDeadlines := receiveDeadlines[id := record];
    }

    method UpdateNativeEarliest(value: Option<nat>) returns (observed: bool)
      requires Valid()
      modifies this`nativeEarliest
      ensures Valid() && nativeEarliest == value
      ensures observed <==> value.Some? && value != old(nativeEarliest)
    {
      observed := value.Some? && value != nativeEarliest;
      nativeEarliest := value;
    }

    method RemoveReceiveRecord(timerId: nat) returns (removed: bool)
      requires Valid()
      modifies this`receiveDeadlines, this`history
      ensures Valid() && removed == (timerId in old(receiveDeadlines))
      ensures receiveDeadlines == old(receiveDeadlines) - {timerId}
      ensures history == old(history).(retired := old(history).retired + if removed then 1 else 0)
    {
      hide Accounts, Timers;
      removed := timerId in receiveDeadlines;
      RemoveSize(receiveDeadlines, timerId);
      receiveDeadlines := receiveDeadlines - {timerId};
      history := history.(retired := history.retired + if removed then 1 else 0);
    }

    method UnifiedMinimum() returns (m: Option<nat>)
      ensures IsMinimum(receiveDeadlines, nativeEarliest, m)
    {
      m := nativeEarliest;
      var left := receiveDeadlines.Keys;
      while left != {}
        invariant left <= receiveDeadlines.Keys
        invariant m.None? ==> nativeEarliest == None && left == receiveDeadlines.Keys
        invariant m.Some? ==>
                    || nativeEarliest == m
                    || exists id :: id in receiveDeadlines && receiveDeadlines[id].deadline == m.value
        invariant m.Some? ==> (nativeEarliest.Some? ==> m.value <= nativeEarliest.value)
        invariant m.Some? ==>
                    forall id :: id in receiveDeadlines && id !in left ==> m.value <= receiveDeadlines[id].deadline
        decreases left
      {
        var id :| id in left;
        left := left - {id};
        if m.None? || receiveDeadlines[id].deadline < m.value {
          m := Some(receiveDeadlines[id].deadline);
        }
      }
    }

    /** Bring the one host timeout in line with the unified minimum. */
    method Reconcile(observedNew: bool, replies: Replies) returns (ok: bool)
      requires Valid()
      modifies this`activeArm, this`nextArmToken, this`counters, this`hostTimers, this`history
      ensures Valid()
      ensures ok ==> Armed()
      ensures ok ==> history == old(history)
      ensures !ok ==> !Untroubled()
      ensures ok && old(Armed()) ==> activeArm == old(activeArm) && hostTimers == old(hostTimers)
      ensures history.fires == old(history).fires && history.fired == old(history).fired
      // it fails exactly when a primitive it has to call throws
      ensures ok
              <==> old(Armed())
                   || ((old(activeArm).None? || replies.clearOk) && (!HasPendingDeadline() || replies.setOk))
      ensures history.clearThrows == old(history).clearThrows
              + if !old(Armed()) && old(activeArm).Some? && !replies.clearOk then 1 else 0
      ensures history.clearThrows + history.setThrows
              == old(history).clearThrows + old(history).setThrows + if ok then 0 else 1
      ensures counters.executions == old(counters).executions
      // a throwing clear leaves the gauge up and the slot empty
      ensures history.clearThrows > old(history).clearThrows ==>
                activeArm == None && counters == old(counters) && hostTimers == old(hostTimers)
      // why each total moved
      ensures ok ==> counters.laterNoops - old(counters).laterNoops ==
                     if observedNew && old(Armed()) && old(activeArm).Some? then 1 else 0
      ensures ok ==> counters.nextArms - old(counters).nextArms ==
                     if old(activeArm).None? && activeArm.Some? then 1 else 0
      ensures ok ==> counters.rearmsEarlier - old(counters).rearmsEarlier ==
                     if old(activeArm).Some? && activeArm.Some?
                     && activeArm.value.deadline < old(activeArm).value.deadline then 1 else 0
      ensures ok ==> counters.cancelMovesOrClears - old(counters).cancelMovesOrClears ==
                     if old(activeArm).Some?
                     && (activeArm.None? || activeArm.value.deadline > old(activeArm).value.deadline) then 1 else 0
    {
      hide IsMinimum, Departures;
      var target := UnifiedMinimum();
      var previous := if activeArm.Some? then Some(activeArm.value.deadline) else None;
      if previous == target {
        if observedNew && target.Some? {
          counters := counters.(laterNoops := counters.laterNoops + 1);
        }
        return true;
      }
      MinimumUnique(receiveDeadlines, nativeEarliest, target, previous);
      NoMinimumIff(receiveDeadlines, nativeEarliest, target);
      var retired := activeArm;
      ok := ClearArm(replies.clearOk);
      if !ok {
        return;
      }
      if target.None? {
        counters := counters.(cancelMovesOrClears := counters.cancelMovesOrClears + 1);
        return true;
      }
      ok := ArmHost(target.value, replies.setOk);
      if !ok {
        history := history.(unmoved := history.unmoved + if retired.Some? then 1 else 0);
        return;
      }
      if previous.None? {
        counters := counters.(nextArms := counters.nextArms + 1);
      } else if target.value < previous.value {
        counters := counters.(rearmsEarlier := counters.rearmsEarlier + 1);
      } else {
        counters := counters.(cancelMovesOrClears := counters.cancelMovesOrClears + 1);
      }
    }

    /** The slot is emptied before the host is asked to clear its timeout, if any. */
    method ClearArm(clearOk: bool) returns (ok: bool)
      modifies this`activeArm, this`counters, this`hostTimers, this`history
      ensures activeArm == None && ok == (old(activeArm).None? || clearOk)
      ensures !ok ==> history == old(history).(clearThrows := old(history).clearThrows + 1)
                      && counters == old(counters) && hostTimers == old(hostTimers)
      ensures ok ==> history == old(history)
      ensures ok && old(activeArm).None? ==> counters == old(counters) && hostTimers == old(hostTimers)
      ensures ok && old(activeArm).Some? ==>
                && hostTimers == old(hostTimers) - {old(activeArm).value.token}
                && counters == old(counters).(cancellations := old(counters).cancellations + 1,
                                              queuedNow := Less(old(counters).queuedNow))
    {
      var retired := activeArm;
      activeArm := None;
      if retired.Some? {
        if !clearOk {
          history := history.(clearThrows := history.clearThrows + 1);
          return false;
        }
        hostTimers := hostTimers - {retired.value.token};
        counters := counters.(cancellations := counters.cancellations + 1, queuedNow := Less(counters.queuedNow));
      }
      return true;
    }

    /** One new host timeout, under a token never used before. */
    method ArmHost(deadline: nat, setOk: bool) returns (ok: bool)
      requires activeArm == None
      modifies this`activeArm, this`nextArmToken, this`counters, this`hostTimers, this`history
      ensures ok == setOk && nextArmToken == old(nextArmToken) + 1
      ensures ok ==> activeArm == Some(Arm(deadline, old(nextArmToken)))
      ensures ok ==> hostTimers == old(hostTimers) + {old(nextArmToken)}
      ensures ok ==> history == old(history)
                     && counters == old(counters).(requests := old(counters).requests + 1,
                                                   queuedNow := old(counters).queuedNow + 1)
      ensures !ok ==> activeArm == None && hostTimers == old(hostTimers) && counters == old(counters)
                      && history == old(history).(setThrows := old(history).setThrows + 1)
    {
      var token := nextArmToken;
      nextArmToken := token + 1;
      if !setOk {
        history := history.(setThrows := history.setThrows + 1);
        return false;
      }
      hostTimers := hostTimers + {token};
      activeArm := Some(Arm(deadline, token));
      counters := counters.(requests := counters.requests + 1, queuedNow := counters.queuedNow + 1);
      return true;
    }

    /** A timeout's callback runs, whether or not the host should still hold it. Only the
        held arm's own token is admitted; an admitted run takes exactly the records due
        at `now`. */
    method CallbackFired(token: nat, now: nat) returns (admitted: bool, due: seq<(nat, nat)>)
      requires Valid()
      modifies this
      ensures Valid() && hostTimers == old(hostTimers) - {token}
      ensures admitted <==> old(activeArm).Some? && old(activeArm).value.token == token
      // a cleared or replaced timeout is not admitted, nor is one that ran before
      ensures admitted ==> token in old(hostTimers)
      ensures old(history).clearThrows == 0 ==> (admitted <==> token in old(hostTimers))
      ensures !admitted ==> due == [] && activeArm == old(activeArm) && receiveDeadlines == old(receiveDeadlines)
                            && counters == old(counters) && history == old(history)
      ensures nativeEarliest == old(nativeEarliest) && nextArmToken == old(nextArmToken)
      ensures admitted ==> activeArm == None && counters.executions == old(counters).executions + 1
      ensures admitted ==> receiveDeadlines == NotDue(old(receiveDeadlines), now)
      ensures admitted ==>
                (forall id: nat, pid: nat :: (id, pid) in due <==> DueAt(old(receiveDeadlines), id, pid, now))
      // due is what is not later than `now`, spelled out
      ensures admitted ==>
                forall id: nat :: id in receiveDeadlines <==>
                                  id in old(receiveDeadlines) && old(receiveDeadlines)[id].deadline > now
      ensures admitted ==>
                forall id: nat, pid: nat :: (id, pid) in due <==>
                                            && id in old(receiveDeadlines) && old(receiveDeadlines)[id].pid == pid
                                            && old(receiveDeadlines)[id].deadline <= now
      ensures forall i, j :: 0 <= i < j < |due| ==> due[i].0 != due[j].0
      ensures |history.fires| == |old(history).fires| + |due|
      ensures history.clearThrows == old(history).clearThrows && history.setThrows == old(history).setThrows
    {
      due := [];
      admitted := activeArm.Some? && activeArm.value.token == token;
      hostTimers := hostTimers - {token};
      if !admitted {
        return;
      }
      activeArm := None;
      counters := counters.(executions := counters.executions + 1, queuedNow := Less(counters.queuedNow));
      due := TakeDue(now);
    }

    method DueIds(now: nat) returns (ids: seq<nat>)
      ensures forall id :: id in ids <==> id in receiveDeadlines && receiveDeadlines[id].deadline <= now
      ensures forall i, j :: 0 <= i < j < |ids| ==> ids[i] != ids[j]
    {
      ids := [];
      var left := receiveDeadlines.Keys;
      while left != {}
        invariant left <= receiveDeadlines.Keys
        invariant forall id ::
                    id in ids <==> id in receiveDeadlines && id !in left && receiveDeadlines[id].deadline <= now
        invariant forall i, j :: 0 <= i < j < |ids| ==> ids[i] != ids[j]
        decreases left
      {
        var id :| id in left;
        left := left - {id};
        if receiveDeadlines[id].deadline <= now {
          ids := ids + [id];
        }
      }
    }

    method TakeRecord(id: nat, now: nat) returns (pid: nat)
      requires Valid() && id in receiveDeadlines && receiveDeadlines[id].deadline <= now
      modifies this`receiveDeadlines, this`history
      ensures Valid() && receiveDeadlines == old(receiveDeadlines) - {id} && pid == old(receiveDeadlines)[id].pid
      ensures history == old(history).(fired := old(history).fired + 1,
                                       fires := old(history).fires + [(old(receiveDeadlines)[id].deadline, now)])
    {
      RemoveSize(receiveDeadlines, id);
      var record := receiveDeadlines[id];
      receiveDeadlines := receiveDeadlines - {id};
      history := history.(fired := history.fired + 1, fires := history.fires + [(record.deadline, now)]);
      return record.pid;
    }

    /** Collect and remove every due record, each once. */
    method TakeDue(now: nat) returns (due: seq<(nat, nat)>)
      requires Valid()
      modifies this`receiveDeadlines, this`history
      ensures Valid()
      ensures receiveDeadlines == NotDue(old(receiveDeadlines), now)
      ensures forall id: nat, pid: nat :: (id, pid) in due <==> DueAt(old(receiveDeadlines), id, pid, now)
      ensures forall i, j :: 0 <= i < j < |due| ==> due[i].0 != due[j].0
      ensures |history.fires| == |old(history).fires| + |due|
      ensures history == old(history).(fired := history.fired, fires := history.fires)
    {
      hide Accounts, Timers, Departures, DueAt, IsMinimum;
      var ids := DueIds(now);
      due := [];
      ghost var before := receiveDeadlines;
      for i := 0 to |ids|
        invariant Valid() && |due| == i
        invariant history == old(history).(fired := history.fired, fires := history.fires)
        invariant |history.fires| == |old(history).fires| + i
        invariant receiveDeadlines == Dropped(before, ids[..i])
        invariant forall j :: 0 <= j < i ==> ids[j] in before && due[j] == (ids[j], before[ids[j]].pid)
      {
        var id := ids[i];
        StillThere(before, ids, i);
        assert ids[..i + 1][..i] == ids[..i];
        var pid := TakeRecord(id, now);
        due := due + [(id, pid)];
      }
      assert ids[..|ids|] == ids;
      DroppedDue(before, ids, now);
      PairedDue(before, ids, due, now);
    }
  }

  /** The gauge tells whether an arm is held exactly as long as no clear has thrown. */
  lemma GaugeTellsArmIff(c: Counters, arm: Option<Arm>, clearThrows: nat, setThrows: nat, unmoved: nat)
    requires Accounts(c, arm, clearThrows, setThrows, unmoved)
    ensures c.queuedNow == (if arm.Some? then 1 else 0) <==> clearThrows == 0
    ensures clearThrows == 0 == setThrows ==> c.cancellations == c.rearmsEarlier + c.cancelMovesOrClears
  {
  }

  /** One throwing clear and one retry: the gauge reads two while one arm is held. */
  method ThrowingClearLeaksGauge() returns (service: HostDeadlineService)
    ensures service.Valid() && service.activeArm.Some? && service.counters.queuedNow == 2
  {
    hide Accounts, Timers, Departures;
    service := new HostDeadlineService();
    var _ := service.UpdateNativeEarliest(Some(20));
    var first := service.Reconcile(true, Replies(true, true));
    var _ := service.UpdateNativeEarliest(Some(10));
    var second := service.Reconcile(true, Replies(false, true));
    var third := service.Reconcile(false, Replies(true, true));
    GaugeOf(service);
  }

  lemma GaugeOf(service: HostDeadlineService)
    requires service.Valid()
    ensures service.counters.queuedNow == (if service.activeArm.Some? then 1 else 0) + service.history.clearThrows
  {
  }

  function Dropped(records: map<nat, ReceiveDeadline>, ids: seq<nat>): map<nat, ReceiveDeadline> {
    if ids == [] then records else Dropped(records, ids[..|ids| - 1]) - {ids[|ids| - 1]}
  }

  lemma {:induction false} DroppedKeys(records: map<nat, ReceiveDeadline>, ids: seq<nat>)
    ensures forall id :: id in Dropped(records, ids) <==> id in records && id !in ids
    ensures forall id :: id in Dropped(records, ids) ==> Dropped(records, ids)[id] == records[id]
  {
    if ids != [] {
      var n := |ids| - 1;
      DroppedKeys(records, ids[..n]);
      assert ids == ids[..n] + [ids[n]];
    }
  }

  lemma StillThere(records: map<nat, ReceiveDeadline>, ids: seq<nat>, i: nat)
    requires i < |ids| && (forall a, b :: 0 <= a < b < |ids| ==> ids[a] != ids[b])
    requires forall id :: id in ids ==> id in records
    ensures ids[i] in records && ids[i] in Dropped(records, ids[..i])
            && Dropped(records, ids[..i])[ids[i]] == records[ids[i]]
  {
    DroppedKeys(records, ids[..i]);
    assert ids[i] in ids;
  }

  lemma DroppedDue(records: map<nat, ReceiveDeadline>, ids: seq<nat>, now: nat)
    requires forall id :: id in ids <==> id in records && records[id].deadline <= now
    ensures Dropped(records, ids) == NotDue(records, now)
  {
    DroppedKeys(records, ids);
  }

  lemma PairedDue(records: map<nat, ReceiveDeadline>, ids: seq<nat>, due: seq<(nat, nat)>, now: nat)
    requires forall id :: id in ids <==> id in records && records[id].deadline <= now
    requires |due| == |ids|
    requires forall j :: 0 <= j < |ids| ==> ids[j] in records && due[j] == (ids[j], records[ids[j]].pid)
    ensures forall id: nat, pid: nat :: (id, pid) in due <==> DueAt(records, id, pid, now)
  {
  }

  function Stamped(records: map<nat, ReceiveDeadline>, schedules: seq<Schedule>, now: nat): map<nat, ReceiveDeadline> {
    if schedules == [] then records
    else
      var n := |schedules| - 1;
      var stamped := ReceiveDeadline(schedules[n].pid, now + schedules[n].milliseconds);
      Stamped(records, schedules[..n], now)[schedules[n].timerId := stamped]
  }

  /** The last schedule of its timer. */
  predicate LastFor(schedules: seq<Schedule>, k: nat) {
    k < |schedules| && forall j :: k < j < |schedules| ==> schedules[j].timerId != schedules[k].timerId
  }

  predicate NotScheduled(schedules: seq<Schedule>, id: nat) {
    forall k :: 0 <= k < |schedules| ==> schedules[k].timerId != id
  }

  lemma {:induction false} StampedLast(records: map<nat, ReceiveDeadline>, schedules: seq<Schedule>, now: nat, k: nat)
    requires LastFor(schedules, k)
    ensures var (stamped, next) := (Stamped(records, schedules, now), schedules[k]);
            && next.timerId in stamped
            && stamped[next.timerId] == ReceiveDeadline(next.pid, now + next.milliseconds)
  {
    var n := |schedules| - 1;
    if k < n {
      assert schedules[n].timerId != schedules[k].timerId;
      StampedLast(records, schedules[..n], now, k);
    }
  }

  lemma {:induction false} StampedOther(records: map<nat, ReceiveDeadline>, schedules: seq<Schedule>, now: nat, id: nat)
    requires NotScheduled(schedules, id)
    ensures var stamped := Stamped(records, schedules, now);
            (id in stamped <==> id in records) && (id in stamped ==> stamped[id] == records[id])
  {
    if schedules != [] {
      var n := |schedules| - 1;
      assert schedules[n].timerId != id;
      StampedOther(records, schedules[..n], now, id);
    }
  }

  /** What a list of schedules leaves, timer by timer. */
  lemma StampedExactly(records: map<nat, ReceiveDeadline>, schedules: seq<Schedule>, now: nat)
    ensures forall k: nat :: LastFor(schedules, k) ==>
              var (stamped, next) := (Stamped(records, schedules, now), schedules[k]);
              && next.timerId in stamped
              && stamped[next.timerId] == ReceiveDeadline(next.pid, now + next.milliseconds)
    ensures forall id: nat :: NotScheduled(schedules, id) ==>
              var stamped := Stamped(records, schedules, now);
              (id in stamped <==> id in records) && (id in stamped ==> stamped[id] == records[id])
  {
    hide Stamped;
    forall k: nat | LastFor(schedules, k)
      ensures var (stamped, next) := (Stamped(records, schedules, now), schedules[k]);
              && next.timerId in stamped
              && stamped[next.timerId] == ReceiveDeadline(next.pid, now + next.milliseconds)
    {
      StampedLast(records, schedules, now, k);
    }
    forall id: nat | NotScheduled(schedules, id)
      ensures var stamped := Stamped(records, schedules, now);
              (id in stamped <==> id in records) && (id in stamped ==> stamped[id] == records[id])
    {
      StampedOther(records, schedules, now, id);
    }
  }

  lemma StampedNone(records: map<nat, ReceiveDeadline>, now: nat)
    ensures Stamped(records, [], now) == records
  {
  }

  lemma StampedNext(records: map<nat, ReceiveDeadline>, schedules: seq<Schedule>, next: Schedule, now: nat)
    ensures Stamped(records, schedules + [next], now)
            == Stamped(records, schedules, now)[next.timerId := ReceiveDeadline(next.pid, now + next.milliseconds)]
  {
    assert (schedules + [next])[..|schedules|] == schedules;
  }

  lemma RemoveSize<K, V>(m: map<K, V>, k: K)
    ensures |m| == |m - {k}| + if k in m then 1 else 0
  {
  }

  lemma InsertSize<K, V>(m: map<K, V>, k: K, v: V)
    ensures |m[k := v]| == |m| + if k in m then 0 else 1
  {
  }

  lemma NoMinimumIff(records: map<nat, ReceiveDeadline>, native: Option<nat>, m: Option<nat>)
    requires IsMinimum(records, native, m)
    ensures m.None? <==> native == None && records == map[]
  {
  }

  lemma MinimumUnique(records: map<nat, ReceiveDeadline>, native: Option<nat>, a: Option<nat>, b: Option<nat>)
    requires IsMinimum(records, native, a) && a != b
    ensures !IsMinimum(records, native, b)
  {
  }
}
