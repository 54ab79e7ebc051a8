/** What the connection-event hub promises, stated on values: the global log, the
    peers table it determines, and what each subscriber has been told. */
module HubLog {

  datatype DownReason =
    | PeerClosed | ReadError | WriteError | WriteTimeout | ManualDisconnect | HeartbeatTimeout | ControlOverflow

  datatype HubEvent =
    | Up(node: string, generation: nat, creation: nat)
    | Down(node: string, generation: nat, reason: DownReason)

  datatype PeerRecord = PeerRecord(generation: nat, creation: nat, up: bool)

  /** One invocation of a subscriber's function: with a catch-up row before it is
      registered, or under its id with the event taken at `index`. */
  datatype Invocation =
    | CatchUp(callback: nat, event: HubEvent)
    | Call(callback: nat, event: HubEvent, id: nat, index: nat)

  /** The hub at one moment. `delivered` are the events taken from the queue so far and
      `invocations` all invocations made so far; `owner`, `start` and `stop` say, per
      subscriber id, which function it registered and how many events had been taken
      when it registered and when it was removed; `caught` is the stretch of
      invocations that were a snapshot subscriber's catch-up. */
  datatype State = State(
    peers: map<string, PeerRecord>,
    subscribers: seq<nat>, nextId: nat,
    queue: seq<HubEvent>, delivered: seq<HubEvent>,
    invocations: seq<Invocation>,
    owner: map<nat, nat>, start: map<nat, nat>, stop: map<nat, nat>,
    caught: map<nat, (nat, nat)>)

  /** The events that invocations under `id` were made with, in order. */
  function Seen(invocations: seq<Invocation>, id: nat): seq<HubEvent> {
    if invocations == [] then []
    else
      var n := |invocations| - 1;
      var i := invocations[n];
      Seen(invocations[..n], id) + if i.Call? && i.id == id then [i.event] else []
  }

  lemma SeenNext(invocations: seq<Invocation>, i: Invocation, id: nat)
    ensures Seen(invocations + [i], id) == Seen(invocations, id) + if i.Call? && i.id == id then [i.event] else []
  {
    assert (invocations + [i])[..|invocations|] == invocations;
  }

  lemma {:induction false} SeenNothing(invocations: seq<Invocation>, id: nat)
    requires forall i :: 0 <= i < |invocations| && invocations[i].Call? ==> invocations[i].id != id
    ensures Seen(invocations, id) == []
  {
    if invocations != [] {
      SeenNothing(invocations[..|invocations| - 1], id);
    }
  }

  /** The invocations that give `rows` to one function. */
  function Given(callback: nat, rows: seq<HubEvent>): (given: seq<Invocation>)
    ensures |given| == |rows| && forall i :: 0 <= i < |rows| ==> given[i] == CatchUp(callback, rows[i])
  {
    seq(|rows|, i requires 0 <= i < |rows| => CatchUp(callback, rows[i]))
  }

  function Rows(invocations: seq<Invocation>): (rows: seq<HubEvent>)
    ensures |rows| == |invocations| && forall i :: 0 <= i < |rows| ==> rows[i] == invocations[i].event
  {
    seq(|invocations|, i requires 0 <= i < |invocations| => invocations[i].event)
  }

  /** The catch-up invocations made for `id`. */
  function CaughtUpWith(s: State, id: nat): seq<Invocation>
    requires id in s.caught && s.caught[id].0 <= s.caught[id].1 <= |s.invocations|
  {
    s.invocations[s.caught[id].0..s.caught[id].1]
  }

  function Project(log: seq<HubEvent>, node: string): seq<HubEvent> {
    if log == [] then []
    else
      var n := |log| - 1;
      Project(log[..n], node) + if log[n].node == node then [log[n]] else []
  }

  lemma {:induction false} ProjectAppend(a: seq<HubEvent>, b: seq<HubEvent>, node: string)
    ensures Project(a + b, node) == Project(a, node) + Project(b, node)
  {
    if b == [] {
      assert a + b == a;
    } else {
      var n := |b| - 1;
      assert (a + b)[..|a| + n] == a + b[..n];
      ProjectAppend(a, b[..n], node);
    }
  }

  lemma ProjectOne(e: HubEvent, node: string)
    ensures Project([e], node) == if e.node == node then [e] else []
  {
  }

  /** Up(1), Down(1), Up(2), Down(2) and so on, of one peer. */
  ghost predicate Dense(s: seq<HubEvent>) {
    forall i :: 0 <= i < |s| ==> s[i].generation == i / 2 + 1 && (s[i].Up? <==> i % 2 == 0)
  }

  /** The peers table holds what the peer's events add up to. */
  ghost predicate Tracks(peers: map<string, PeerRecord>, node: string, s: seq<HubEvent>) {
    && Dense(s)
    && (node !in peers ==> s == [])
    && (node in peers ==>
          && peers[node].generation == (|s| + 1) / 2
          && (peers[node].up <==> |s| % 2 == 1)
          && (peers[node].up ==> s[|s| - 1] == Up(node, peers[node].generation, peers[node].creation)))
  }

  ghost predicate LogInv(s: State) {
    forall node :: Tracks(s.peers, node, Project(s.delivered + s.queue, node))
  }

  ghost function End(s: State, id: nat): nat {
    if id in s.stop then s.stop[id] else |s.delivered|
  }

  /** The subscriber's calls are the events taken between its registration and its
      removal; while an event is being handed out, `pending` still wait for it. */
  ghost predicate Told(s: State, pending: set<nat>, id: nat) {
    && id in s.owner && id in s.start
    && s.start[id] <= End(s, id) <= |s.delivered|
    && (id in pending ==> s.start[id] < End(s, id) == |s.delivered|)
    && Seen(s.invocations, id) == s.delivered[s.start[id]..if id in pending then End(s, id) - 1 else End(s, id)]
  }

  ghost predicate SubscriberInv(s: State, pending: set<nat>) {
    && (forall i, j :: 0 <= i < j < |s.subscribers| ==> s.subscribers[i] < s.subscribers[j])
    && (forall i :: 0 <= i < |s.subscribers| ==> s.subscribers[i] < s.nextId)
    && (forall id: nat :: id in s.stop <==> id < s.nextId && id !in s.subscribers)
    && (forall id :: id in pending ==> id < s.nextId)
    && (forall id: nat :: id < s.nextId ==> Told(s, pending, id))
    && (forall id :: id in s.owner || id in s.start ==> id < s.nextId)
  }

  /** The open session of a peer whose events are `s`, if any: its last Up. */
  ghost function OpenSession(s: seq<HubEvent>): seq<HubEvent> {
    if |s| % 2 == 1 then [s[|s| - 1]] else []
  }

  /** Catch-up rows are the sessions open after the first `n` events taken. */
  ghost predicate CaughtUp(rows: seq<HubEvent>, delivered: seq<HubEvent>, n: nat)
    requires n <= |delivered|
  {
    forall node :: Project(rows, node) == OpenSession(Project(delivered[..n], node))
  }

  ghost predicate SnapshotInv(s: State) {
    forall id :: id in s.caught ==> IsCatchUp(s, id)
  }

  /** The stretch holds the id's own function, invoked with the sessions open when the
      id registered. */
  ghost predicate IsCatchUp(s: State, id: nat)
    requires id in s.caught
  {
    && id in s.start && id in s.owner && s.start[id] <= |s.delivered|
    && s.caught[id].0 <= s.caught[id].1 <= |s.invocations|
    && (forall i :: 0 <= i < |CaughtUpWith(s, id)| ==>
          CaughtUpWith(s, id)[i].CatchUp? && CaughtUpWith(s, id)[i].callback == s.owner[id])
    && CaughtUp(Rows(CaughtUpWith(s, id)), s.delivered, s.start[id])
  }

  /** One order for all: calls go event by event and, within an event, in order of
      registration; whoever is still owed the current event comes after those called.
      Each call is of the function registered under its id, with the event it names. */
  ghost predicate OrderInv(s: State, pending: set<nat>) {
    && (forall i, j :: 0 <= i < j < |s.invocations| && s.invocations[i].Call? && s.invocations[j].Call? ==>
          Precedes(s.invocations[i], s.invocations[j]))
    && (forall i :: 0 <= i < |s.invocations| && s.invocations[i].Call? ==> RightCall(s, s.invocations[i]))
    && (forall i, p :: 0 <= i < |s.invocations| && s.invocations[i].Call? && p in pending ==>
          s.invocations[i].index + 1 == |s.delivered| ==> s.invocations[i].id < p)
  }

  ghost predicate Precedes(a: Invocation, b: Invocation)
    requires a.Call? && b.Call?
  {
    a.index < b.index || (a.index == b.index && a.id < b.id)
  }

  ghost predicate RightCall(s: State, i: Invocation)
    requires i.Call?
  {
    && i.index < |s.delivered| && i.event == s.delivered[i.index]
    && i.id in s.owner && i.callback == s.owner[i.id]
  }

  /** Nobody is given a catch-up row except as part of a snapshot subscription. */
  ghost predicate NoStray(s: State) {
    forall i :: 0 <= i < |s.invocations| && s.invocations[i].CatchUp? ==> InCatchUp(s, i)
  }

  ghost predicate InCatchUp(s: State, i: nat) {
    exists id :: id in s.caught && s.caught[id].0 <= i < s.caught[id].1
  }

  ghost predicate Inv(s: State, pending: set<nat>) {
    LogInv(s) && SubscriberInv(s, pending) && SnapshotInv(s) && OrderInv(s, pending)
  }

  // --- Steps ---

  /** A transition accepted for `node`: its record changes and its events are queued. */
  ghost function Accepted(s: State, node: string, record: PeerRecord, events: seq<HubEvent>): State {
    s.(peers := s.peers[node := record], queue := s.queue + events)
  }

  lemma AcceptKeepsInv(s: State, pending: set<nat>, node: string, record: PeerRecord, events: seq<HubEvent>)
    requires Inv(s, pending) && (forall i :: 0 <= i < |events| ==> events[i].node == node)
    requires Tracks(map[node := record], node, Project(s.delivered + s.queue, node) + events)
    ensures Inv(Accepted(s, node, record, events), pending)
  {
    hide Told, CaughtUp, Tracks, Project;
    var t := Accepted(s, node, record, events);
    forall other
      ensures Tracks(t.peers, other, Project(t.delivered + t.queue, other))
    {
      AcceptTracks(s, node, record, events, other);
    }
    TellingUnchanged(s, t, pending);
  }

  lemma AcceptTracks(s: State, node: string, record: PeerRecord, events: seq<HubEvent>, other: string)
    requires LogInv(s) && (forall i :: 0 <= i < |events| ==> events[i].node == node)
    requires Tracks(map[node := record], node, Project(s.delivered + s.queue, node) + events)
    ensures Tracks(s.peers[node := record], other, Project(s.delivered + (s.queue + events), other))
  {
    hide Dense, Project;
    var log := s.delivered + s.queue;
    assert s.delivered + (s.queue + events) == log + events;
    ProjectAppend(log, events, other);
    ProjectOwn(events, node, other);
    assert Tracks(s.peers, other, Project(log, other));
    if other == node {
      TracksOther(s.peers, node, record, other, Project(log, node) + events);
    } else {
      assert Project(log, other) + [] == Project(log, other);
      TracksOther(s.peers, node, record, other, Project(log, other));
    }
  }

  lemma TracksOther(peers: map<string, PeerRecord>, node: string, record: PeerRecord, other: string, log: seq<HubEvent>)
    requires if other == node then Tracks(map[node := record], node, log) else Tracks(peers, other, log)
    ensures Tracks(peers[node := record], other, log)
  {
  }

  lemma {:induction false} ProjectOwn(events: seq<HubEvent>, node: string, other: string)
    requires forall i :: 0 <= i < |events| ==> events[i].node == node
    ensures Project(events, other) == if other == node then events else []
  {
    if events != [] {
      var n := |events| - 1;
      ProjectOwn(events[..n], node, other);
      assert events == events[..n] + [events[n]];
    }
  }

  lemma TellingUnchanged(s: State, t: State, pending: set<nat>)
    requires SubscriberInv(s, pending) && SnapshotInv(s)
    requires t.delivered == s.delivered && t.subscribers == s.subscribers && t.nextId == s.nextId
    requires t.invocations == s.invocations && t.owner == s.owner && t.start == s.start && t.stop == s.stop
             && t.caught == s.caught
    ensures SubscriberInv(t, pending) && SnapshotInv(t)
  {
    assert forall id: nat :: Told(s, pending, id) <==> Told(t, pending, id);
    assert forall id :: id in s.caught ==> IsCatchUp(s, id);
    assert forall id :: id in t.caught ==> CaughtUpWith(t, id) == CaughtUpWith(s, id);
  }

  ghost function Subscribed(s: State, callback: nat): State {
    s.(subscribers := s.subscribers + [s.nextId], nextId := s.nextId + 1,
       owner := s.owner[s.nextId := callback], start := s.start[s.nextId := |s.delivered|])
  }

  lemma SubscribeKeepsInv(s: State, pending: set<nat>, callback: nat)
    requires Inv(s, pending)
    ensures Inv(Subscribed(s, callback), pending)
  {
    hide Seen, CaughtUp, LogInv, SnapshotInv;
    var t := Subscribed(s, callback);
    SubscribedRecords(s, pending, callback);
    SeenNothing(s.invocations, s.nextId);
    forall id: nat | id < t.nextId
      ensures Told(t, pending, id)
    {
      if id < s.nextId { assert Told(s, pending, id); }
    }
    assert forall id: nat :: id in t.subscribers <==> id in s.subscribers || id == s.nextId;
    assert LogInv(t) by { SameLog(s, t); }
  }

  lemma SubscribedRecords(s: State, pending: set<nat>, callback: nat)
    requires Inv(s, pending)
    ensures SnapshotInv(Subscribed(s, callback)) && OrderInv(Subscribed(s, callback), pending)
    ensures forall i :: 0 <= i < |s.invocations| && s.invocations[i].Call? ==> s.invocations[i].id != s.nextId
  {
    hide Seen, CaughtUp, LogInv;
    var t := Subscribed(s, callback);
    forall i | 0 <= i < |s.invocations| && s.invocations[i].Call?
      ensures s.invocations[i].id != s.nextId && RightCall(t, s.invocations[i])
    {
      assert RightCall(s, s.invocations[i]);
    }
    forall id | id in t.caught
      ensures IsCatchUp(t, id)
    {
      assert IsCatchUp(s, id) && CaughtUpWith(t, id) == CaughtUpWith(s, id);
    }
  }

  ghost function Removed(s: State, id: nat): State {
    if id in s.subscribers
    then s.(subscribers := Without(s.subscribers, id), stop := s.stop[id := |s.delivered|])
    else s
  }

  function Without(ids: seq<nat>, id: nat): seq<nat> {
    if ids == [] then []
    else Without(ids[..|ids| - 1], id) + if ids[|ids| - 1] == id then [] else [ids[|ids| - 1]]
  }

  lemma {:induction false} WithoutMembers(ids: seq<nat>, id: nat)
    requires forall i, j :: 0 <= i < j < |ids| ==> ids[i] < ids[j]
    ensures forall x: nat :: x in Without(ids, id) <==> x in ids && x != id
    ensures forall i, j :: 0 <= i < j < |Without(ids, id)| ==> Without(ids, id)[i] < Without(ids, id)[j]
    ensures id !in ids <==> |Without(ids, id)| == |ids|
    ensures |Without(ids, id)| <= |ids|
  {
    if ids != [] {
      var n := |ids| - 1;
      WithoutMembers(ids[..n], id);
      assert ids == ids[..n] + [ids[n]];
      var w := Without(ids[..n], id);
      forall i | 0 <= i < |w|
        ensures w[i] < ids[n]
      {
        assert w[i] in w;
        var k :| 0 <= k < n && ids[..n][k] == w[i];
      }
    }
  }

  lemma RemoveKeepsInv(s: State, pending: set<nat>, id: nat)
    requires Inv(s, pending)
    ensures Inv(Removed(s, id), pending)
  {
    hide Seen, CaughtUp;
    var t := Removed(s, id);
    if id in s.subscribers {
      WithoutMembers(s.subscribers, id);
      forall other: nat | other < t.nextId
        ensures Told(t, pending, other)
      {
        assert Told(s, pending, other);
      }
      forall i | 0 <= i < |t.subscribers|
        ensures t.subscribers[i] < t.nextId
      {
        assert t.subscribers[i] in t.subscribers;
      }
      SameRecords(s, t, pending);
    }
  }

  /** The clauses about the record of invocations do not see subscribers or ends. */
  lemma SameRecords(s: State, t: State, pending: set<nat>)
    requires SnapshotInv(s) && OrderInv(s, pending)
    requires t.delivered == s.delivered && t.invocations == s.invocations
    requires t.owner == s.owner && t.start == s.start && t.caught == s.caught
    ensures SnapshotInv(t) && OrderInv(t, pending)
  {
    hide CaughtUp;
    forall id | id in t.caught
      ensures IsCatchUp(t, id)
    {
      assert IsCatchUp(s, id) && CaughtUpWith(t, id) == CaughtUpWith(s, id);
    }
    assert forall i :: 0 <= i < |s.invocations| && s.invocations[i].Call? ==> RightCall(s, s.invocations[i]);
  }

  /** Taking the next event: every current subscriber is now owed one call. */
  ghost function Taken(s: State): State
    requires s.queue != []
  {
    s.(queue := s.queue[1..], delivered := s.delivered + [s.queue[0]])
  }

  ghost function Owed(s: State): set<nat> {
    set id | id in s.subscribers
  }

  lemma TakeKeepsInv(s: State)
    requires Inv(s, {}) && s.queue != []
    ensures Inv(Taken(s), Owed(s))
  {
    hide Seen, CaughtUp;
    var t := Taken(s);
    assert t.delivered + t.queue == s.delivered + s.queue;
    forall id: nat | id < t.nextId
      ensures Told(t, Owed(s), id)
    {
      assert Told(s, {}, id);
      assert t.delivered[s.start[id]..|s.delivered|] == s.delivered[s.start[id]..|s.delivered|];
      assert id in s.stop ==> t.delivered[s.start[id]..s.stop[id]] == s.delivered[s.start[id]..s.stop[id]];
    }
    TakenRecords(s);
  }

  lemma TakenRecords(s: State)
    requires Inv(s, {}) && s.queue != []
    ensures SnapshotInv(Taken(s)) && OrderInv(Taken(s), Owed(s))
  {
    hide LogInv, SubscriberInv;
    var t := Taken(s);
    forall id | id in t.caught
      ensures IsCatchUp(t, id)
    {
      assert IsCatchUp(s, id) && CaughtUpWith(t, id) == CaughtUpWith(s, id);
      assert t.delivered[..t.start[id]] == s.delivered[..s.start[id]];
    }
    forall i | 0 <= i < |t.invocations| && t.invocations[i].Call?
      ensures RightCall(t, t.invocations[i]) && t.invocations[i].index + 1 < |t.delivered|
    {
      assert RightCall(s, s.invocations[i]);
    }
  }

  /** One owed call is made, of the function registered under the id. */
  ghost function Called(s: State, id: nat): State
    requires id in s.owner && s.delivered != []
  {
    s.(invocations := s.invocations + [CallOf(s, id)])
  }

  ghost function CallOf(s: State, id: nat): Invocation
    requires id in s.owner && s.delivered != []
  {
    Call(s.owner[id], s.delivered[|s.delivered| - 1], id, |s.delivered| - 1)
  }

  lemma CallKeepsInv(s: State, pending: set<nat>, id: nat)
    requires Inv(s, pending) && id in pending && forall p :: p in pending ==> id <= p
    ensures id in s.owner && s.delivered != []
    ensures Inv(Called(s, id), pending - {id})
  {
    hide Seen, CaughtUp, Precedes, LogInv;
    assert Told(s, pending, id);
    var t := Called(s, id);
    var d := s.delivered;
    assert d[s.start[id]..|d|] == d[s.start[id]..|d| - 1] + [d[|d| - 1]];
    forall other: nat | other < t.nextId
      ensures Told(t, pending - {id}, other)
    {
      assert Told(s, pending, other);
      SeenNext(s.invocations, CallOf(s, id), other);
    }
    CalledRecords(s, pending, id);
    assert LogInv(t) by { SameLog(s, t); }
  }

  lemma SameLog(s: State, t: State)
    requires LogInv(s) && t.peers == s.peers && t.delivered == s.delivered && t.queue == s.queue
    ensures LogInv(t)
  {
  }

  lemma CalledRecords(s: State, pending: set<nat>, id: nat)
    requires SnapshotInv(s) && OrderInv(s, pending) && id in pending && forall p :: p in pending ==> id <= p
    requires id in s.owner && s.delivered != []
    ensures SnapshotInv(Called(s, id)) && OrderInv(Called(s, id), pending - {id})
  {
    hide CaughtUp;
    var t := Called(s, id);
    LongerRecord(s, t, CallOf(s, id));
    var n := |s.invocations|;
    forall i | 0 <= i < n && t.invocations[i].Call?
      ensures RightCall(t, t.invocations[i]) && Precedes(t.invocations[i], t.invocations[n])
    {
      assert t.invocations[i] == s.invocations[i] && RightCall(s, s.invocations[i]);
    }
  }

  /** One more invocation leaves every catch-up stretch as it was. */
  lemma LongerRecord(s: State, t: State, i: Invocation)
    requires SnapshotInv(s) && t == s.(invocations := s.invocations + [i])
    ensures SnapshotInv(t)
  {
    hide CaughtUp;
    forall id | id in t.caught
      ensures IsCatchUp(t, id)
    {
      assert IsCatchUp(s, id) && CaughtUpWith(t, id) == CaughtUpWith(s, id);
    }
  }

  /** A catch-up row is given to a function that is not registered yet. */
  lemma GiveKeepsInv(s: State, pending: set<nat>, callback: nat, row: HubEvent)
    requires Inv(s, pending)
    ensures Inv(s.(invocations := s.invocations + [CatchUp(callback, row)]), pending)
  {
    hide Seen, CaughtUp, Precedes, LogInv;
    var t := s.(invocations := s.invocations + [CatchUp(callback, row)]);
    forall id: nat | id < t.nextId
      ensures Told(t, pending, id)
    {
      assert Told(s, pending, id);
      SeenNext(s.invocations, CatchUp(callback, row), id);
    }
    LongerRecord(s, t, CatchUp(callback, row));
    forall i | 0 <= i < |t.invocations| && t.invocations[i].Call?
      ensures i < |s.invocations| && RightCall(t, t.invocations[i])
    {
      assert RightCall(s, s.invocations[i]);
    }
    assert LogInv(t) by { SameLog(s, t); }
  }

  /** A snapshot subscriber registers once its function has been given the rows: the
      last invocations, from `from` on. */
  lemma SnapshotJoins(s: State, t: State, callback: nat, from: nat, rows: seq<HubEvent>)
    requires SnapshotInv(t) && t == Subscribed(s, callback) && CaughtUp(rows, s.delivered, |s.delivered|)
    requires from <= |s.invocations| && s.invocations[from..] == Given(callback, rows)
    ensures SnapshotInv(t.(caught := s.caught[s.nextId := (from, |s.invocations|)]))
  {
    hide CaughtUp;
    var u := t.(caught := s.caught[s.nextId := (from, |s.invocations|)]);
    forall id | id in u.caught
      ensures IsCatchUp(u, id)
    {
      if id == s.nextId {
        assert CaughtUpWith(u, id) == Given(callback, rows) && Rows(Given(callback, rows)) == rows;
      } else {
        assert IsCatchUp(t, id) && CaughtUpWith(u, id) == CaughtUpWith(t, id);
      }
    }
  }

  lemma SnapshotKeepsInv(s: State, pending: set<nat>, callback: nat, from: nat, rows: seq<HubEvent>)
    requires Inv(s, pending) && CaughtUp(rows, s.delivered, |s.delivered|)
    requires from <= |s.invocations| && s.invocations[from..] == Given(callback, rows)
    ensures Inv(Subscribed(s, callback).(caught := s.caught[s.nextId := (from, |s.invocations|)]), pending)
  {
    hide Seen, CaughtUp, LogInv, OrderInv, SnapshotInv, Given;
    SubscribeKeepsInv(s, pending, callback);
    var t := Subscribed(s, callback);
    var u := t.(caught := s.caught[s.nextId := (from, |s.invocations|)]);
    assert forall id: nat :: Told(t, pending, id) <==> Told(u, pending, id);
    SnapshotJoins(s, t, callback, from, rows);
    assert LogInv(u) by { SameLog(t, u); }
    assert OrderInv(u, pending) by { SameOrder(t, u, pending); }
  }

  lemma SameOrder(s: State, t: State, pending: set<nat>)
    requires OrderInv(s, pending)
    requires t.delivered == s.delivered && t.invocations == s.invocations && t.owner == s.owner
    ensures OrderInv(t, pending)
  {
    assert forall i :: 0 <= i < |s.invocations| && s.invocations[i].Call? ==> RightCall(s, s.invocations[i]);
  }

  lemma SnapshotIsNoStray(s: State, callback: nat, from: nat)
    requires from <= |s.invocations| && s.nextId !in s.caught
    requires forall i :: 0 <= i < from && s.invocations[i].CatchUp? ==> InCatchUp(s, i)
    ensures NoStray(Subscribed(s, callback).(caught := s.caught[s.nextId := (from, |s.invocations|)]))
  {
    var u := Subscribed(s, callback).(caught := s.caught[s.nextId := (from, |s.invocations|)]);
    forall i | 0 <= i < |u.invocations| && u.invocations[i].CatchUp?
      ensures InCatchUp(u, i)
    {
      if i < from {
        var id :| id in s.caught && s.caught[id].0 <= i < s.caught[id].1;
        assert id in u.caught && u.caught[id] == s.caught[id];
      } else {
        assert s.nextId in u.caught;
      }
    }
  }

  // --- What subscribers observe ---

  /** Between events, the invocations made for a subscriber are of the function it
      registered, with one contiguous stretch of the events taken: no gap, no repeat,
      nothing from before or after. */
  lemma ToldExactly(s: State, id: nat)
    requires Inv(s, {}) && id < s.nextId
    ensures id in s.owner && id in s.start && s.start[id] <= End(s, id) <= |s.delivered|
    ensures Seen(s.invocations, id) == s.delivered[s.start[id]..End(s, id)]
    ensures forall i :: 0 <= i < |s.invocations| && s.invocations[i].Call? && s.invocations[i].id == id
                        ==> s.invocations[i].callback == s.owner[id]
  {
    hide Seen;
    assert Told(s, {}, id);
    assert forall i :: 0 <= i < |s.invocations| && s.invocations[i].Call? ==> RightCall(s, s.invocations[i]);
  }

  /** An alternating history that opens with an Up and misses no generation. */
  ghost predicate Seamless(view: seq<HubEvent>) {
    && (forall i :: 0 <= i < |view| ==> (view[i].Up? <==> i % 2 == 0))
    && (forall i :: 0 <= i < |view| - 1 ==>
          view[i + 1].generation == if view[i].Up? then view[i].generation else view[i].generation + 1)
  }

  /** For a snapshot subscriber the rows its function was given and the later calls
      join, per peer, into one seamless history. */
  lemma SnapshotIsSeamless(s: State, id: nat, node: string)
    requires Inv(s, {}) && id in s.caught
    ensures id in s.owner && s.caught[id].0 <= s.caught[id].1 <= |s.invocations|
    ensures forall i :: 0 <= i < |CaughtUpWith(s, id)| ==>
              CaughtUpWith(s, id)[i].CatchUp? && CaughtUpWith(s, id)[i].callback == s.owner[id]
    ensures Seamless(Project(Rows(CaughtUpWith(s, id)), node) + Project(Seen(s.invocations, id), node))
  {
    hide Tracks, Dense, Seamless, Seen, Rows;
    assert IsCatchUp(s, id);
    assert id < s.nextId;
    ToldExactly(s, id);
    var a, b := s.start[id], End(s, id);
    assert Tracks(s.peers, node, Project(s.delivered + s.queue, node));
    WholeIsDense(s, node);
    SliceIsSeamless(s.delivered, s.queue, a, b, node, Rows(CaughtUpWith(s, id)));
  }

  lemma WholeIsDense(s: State, node: string)
    requires LogInv(s)
    ensures Dense(Project(s.delivered + s.queue, node))
  {
  }

  /** The open session after `a` events, followed by the events up to `b`. */
  lemma SliceIsSeamless(delivered: seq<HubEvent>, queue: seq<HubEvent>, a: nat, b: nat, node: string,
                        rows: seq<HubEvent>)
    requires a <= b <= |delivered| && Dense(Project(delivered + queue, node))
    requires Project(rows, node) == OpenSession(Project(delivered[..a], node))
    ensures Seamless(Project(rows, node) + Project(delivered[a..b], node))
  {
    hide Project, Dense, Seamless;
    var before, between := Project(delivered[..a], node), Project(delivered[a..b], node);
    var after := Project(delivered[b..] + queue, node);
    assert Project(delivered + queue, node) == before + between + after by {
      assert delivered[..b] == delivered[..a] + delivered[a..b];
      ProjectAppend(delivered[..a], delivered[a..b], node);
      assert delivered + queue == delivered[..b] + (delivered[b..] + queue);
      ProjectAppend(delivered[..b], delivered[b..] + queue, node);
    }
    JoinIsSeamless(before, between, after);
  }

  lemma JoinIsSeamless(before: seq<HubEvent>, between: seq<HubEvent>, after: seq<HubEvent>)
    requires Dense(before + between + after)
    ensures Seamless(OpenSession(before) + between)
  {
    hide Dense, Seamless;
    var whole := before + between + after;
    var from := 2 * (|before| / 2);
    assert OpenSession(before) == before[from..];
    assert whole[..|before| + |between|] == before + between;
    assert (before + between)[from..] == before[from..] + between;
    DenseSuffix(whole, |before| + |between|, from);
  }

  lemma DenseSuffix(s: seq<HubEvent>, n: nat, from: nat)
    requires Dense(s) && from <= n <= |s| && from % 2 == 0
    ensures Seamless(s[..n][from..])
  {
  }

  // --- Counter widths ---

  const U32_MAX: nat := 0xffff_ffff

  /** The id minted by the k-th subscription of a saturating 32-bit counter. */
  function Minted(k: nat): nat {
    if k < U32_MAX then k else U32_MAX
  }

  /** Subscriber ids stay distinct exactly as long as the counter has not saturated. */
  lemma MintedDistinctIff(n: nat)
    ensures (forall i, j :: 0 <= i < j < n ==> Minted(i) != Minted(j)) <==> n <= 0x1_0000_0000
  {
    if n > U32_MAX + 1 {
      assert Minted(U32_MAX) == Minted(U32_MAX + 1);
    }
  }
}
