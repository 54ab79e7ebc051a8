/** The browser connection-event hub: ingress, subscription, and dispatch with
    callbacks that may re-enter every method. */
module Hub {
  import opened Wrappers
  import opened HubLog

  datatype ProtocolError = BareDoubleUp | UnmappedDownReason | DownWithoutUp | ReplacedWithoutSession
  datatype Outcome = Accept | Reject(error: ProtocolError)

  /** One call a host, or a subscriber callback, may make on the hub. */
  datatype HubOp =
    | ConnectionUp(node: string, creation: nat)
    | ConnectionDown(node: string, reason: string)
    | ConnectionReplaced(node: string, creation: nat, reason: string)
    | Subscribe(callback: nat)
    | SubscribeWithSnapshot(callback: nat)
    | Unsubscribe(id: nat)

  function ParseReason(reason: string): Option<DownReason> {
    match reason
    case "peer_closed" => Some(PeerClosed)
    case "read_error" => Some(ReadError)
    case "write_error" => Some(WriteError)
    case "write_timeout" => Some(WriteTimeout)
    case "manual_disconnect" => Some(ManualDisconnect)
    case "heartbeat_timeout" => Some(HeartbeatTimeout)
    case "control_overflow" => Some(ControlOverflow)
    case _ => None
  }

  function ReasonString(reason: DownReason): string {
    match reason
    case PeerClosed => "peer_closed"
    case ReadError => "read_error"
    case WriteError => "write_error"
    case WriteTimeout => "write_timeout"
    case ManualDisconnect => "manual_disconnect"
    case HeartbeatTimeout => "heartbeat_timeout"
    case ControlOverflow => "control_overflow"
  }

  /** The names of the seven reasons. */
  lemma ReasonNames()
    ensures ReasonString(PeerClosed) == "peer_closed" && ReasonString(ReadError) == "read_error"
    ensures ReasonString(WriteError) == "write_error" && ReasonString(WriteTimeout) == "write_timeout"
    ensures ReasonString(ManualDisconnect) == "manual_disconnect"
    ensures ReasonString(HeartbeatTimeout) == "heartbeat_timeout"
    ensures ReasonString(ControlOverflow) == "control_overflow"
  {
  }

  /** The canonical strings and the seven reasons determine each other. */
  lemma ReasonRoundTrip(text: string, reason: DownReason)
    ensures ParseReason(text) == Some(reason) <==> text == ReasonString(reason)
  {
  }

  function Ids(subscribers: seq<(nat, nat)>): (ids: seq<nat>)
    ensures |ids| == |subscribers| && forall i :: 0 <= i < |ids| ==> ids[i] == subscribers[i].0
  {
    seq(|subscribers|, i requires 0 <= i < |subscribers| => subscribers[i].0)
  }

  /** `retain`: every registration but those of `id`. */
  function Retain(subscribers: seq<(nat, nat)>, id: nat): (kept: seq<(nat, nat)>) {
    if subscribers == [] then []
    else
      var n := |subscribers| - 1;
      Retain(subscribers[..n], id) + if subscribers[n].0 == id then [] else [subscribers[n]]
  }

  lemma {:induction false} RetainIds(subscribers: seq<(nat, nat)>, id: nat)
    ensures Ids(Retain(subscribers, id)) == Without(Ids(subscribers), id)
  {
    if subscribers != [] {
      var n := |subscribers| - 1;
      RetainIds(subscribers[..n], id);
      assert Ids(subscribers)[..n] == Ids(subscribers[..n]);
    }
  }

  lemma {:induction false} WithoutAbsent(ids: seq<nat>, id: nat)
    requires id !in ids
    ensures Without(ids, id) == ids
  {
    if ids != [] {
      WithoutAbsent(ids[..|ids| - 1], id);
      assert ids[|ids| - 1] in ids;
    }
  }

  /** Names compare character by character. */
  predicate Before(a: string, b: string) {
    b != [] && (a == [] || a[0] < b[0] || (a[0] == b[0] && Before(a[1..], b[1..])))
  }

  lemma {:induction false} BeforeTotal(a: string, b: string)
    ensures a == b || Before(a, b) || Before(b, a)
  {
    if a != [] && b != [] && a[0] == b[0] {
      BeforeTotal(a[1..], b[1..]);
      assert a == [a[0]] + a[1..] && b == [b[0]] + b[1..];
    }
  }

  lemma {:induction false} BeforeTrans(a: string, b: string, c: string)
    requires Before(a, b) && Before(b, c)
    ensures Before(a, c)
  {
    if a != [] && a[0] == b[0] == c[0] {
      BeforeTrans(a[1..], b[1..], c[1..]);
    }
  }

  /** Lexicographic order: after a common prefix, `a` ends or goes on with a smaller
      character. */
  ghost predicate LexLess(a: string, b: string) {
    exists k :: LessAt(a, b, k)
  }

  predicate LessAt(a: string, b: string, k: nat) {
    k <= |a| && k < |b| && a[..k] == b[..k] && (k == |a| || a[k] < b[k])
  }

  lemma {:induction false} BeforeIsLexLess(a: string, b: string)
    ensures Before(a, b) <==> LexLess(a, b)
  {
    if a != [] && b != [] && a[0] == b[0] {
      BeforeIsLexLess(a[1..], b[1..]);
      if k: nat :| LessAt(a[1..], b[1..], k) {
        assert a == [a[0]] + a[1..] && b == [b[0]] + b[1..];
        assert a[..k + 1] == [a[0]] + a[1..][..k] && b[..k + 1] == [b[0]] + b[1..][..k];
        assert LessAt(a, b, k + 1);
      }
      if k: nat :| LessAt(a, b, k) {
        assert k > 0;
        assert a[1..][..k - 1] == a[..k][1..] && b[1..][..k - 1] == b[..k][1..];
        assert LessAt(a[1..], b[1..], k - 1);
      }
    } else if Before(a, b) {
      assert LessAt(a, b, 0);
    } else {
      forall k: nat
        ensures !LessAt(a, b, k)
      {
        LessAtHead(a, b, k);
      }
    }
  }

  lemma LessAtHead(a: string, b: string, k: nat)
    ensures LessAt(a, b, k) && k > 0 ==> a != [] && b != [] && a[0] == b[0]
  {
    assert LessAt(a, b, k) && k > 0 ==> a[0] == a[..k][0] == b[..k][0] == b[0];
  }

  method LeastName(names: set<string>) returns (least: string)
    requires names != {}
    ensures least in names && forall n :: n in names && n != least ==> Before(least, n)
  {
    hide Before;
    least :| least in names;
    var left := names - {least};
    while left != {}
      invariant left < names && least in names - left
      invariant forall n :: n in names - left && n != least ==> Before(least, n)
      decreases left
    {
      var n :| n in left;
      left := left - {n};
      BeforeTotal(least, n);
      if Before(n, least) {
        forall m | m in names - left && m != n
          ensures Before(n, m)
        {
          if m != least { BeforeTrans(n, least, m); }
        }
        least := n;
      }
    }
  }

  /** The catch-up row of a peer: its open session, if any. */
  function LiveRow(peers: map<string, PeerRecord>, node: string): seq<HubEvent> {
    if node in peers && peers[node].up then [Up(node, peers[node].generation, peers[node].creation)] else []
  }

  /** The rows of all peers but those `left`, in name order before any of these. */
  ghost predicate AreLiveRows(peers: map<string, PeerRecord>, rows: seq<HubEvent>, left: set<string>) {
    && (forall node :: Project(rows, node) == if node in left then [] else LiveRow(peers, node))
    && (forall i, j :: 0 <= i < j < |rows| ==> Before(rows[i].node, rows[j].node))
    && (forall i, node :: 0 <= i < |rows| && node in left ==> Before(rows[i].node, node))
  }

  lemma RowsInOrder(peers: map<string, PeerRecord>, rows: seq<HubEvent>)
    requires AreLiveRows(peers, rows, {})
    ensures forall i, j :: 0 <= i < j < |rows| ==> LexLess(rows[i].node, rows[j].node)
  {
    hide Before, LexLess, Project;
    forall i, j | 0 <= i < j < |rows|
      ensures LexLess(rows[i].node, rows[j].node)
    {
      BeforeIsLexLess(rows[i].node, rows[j].node);
    }
  }

  lemma NoRowsYet(peers: map<string, PeerRecord>)
    ensures AreLiveRows(peers, [], peers.Keys)
  {
  }

  lemma NextRow(peers: map<string, PeerRecord>, rows: seq<HubEvent>, left: set<string>, next: string)
    requires AreLiveRows(peers, rows, left) && next in left && next in peers
    requires forall n :: n in left && n != next ==> Before(next, n)
    ensures AreLiveRows(peers, rows + LiveRow(peers, next), left - {next})
  {
    hide Before, Project, LiveRow;
    var more := rows + LiveRow(peers, next);
    assert forall i :: |rows| <= i < |more| ==> i == |rows| && more[i].node == next by { OneRow(peers, next); }
    forall node
      ensures Project(more, node) == if node in left - {next} then [] else LiveRow(peers, node)
    {
      RowAdded(peers, rows, next, node);
    }
    forall i, node | 0 <= i < |more| && node in left - {next}
      ensures Before(more[i].node, node)
    {
    }
    forall i, j | 0 <= i < j < |more|
      ensures Before(more[i].node, more[j].node)
    {
    }
  }

  lemma OneRow(peers: map<string, PeerRecord>, node: string)
    ensures |LiveRow(peers, node)| <= 1
    ensures forall i :: 0 <= i < |LiveRow(peers, node)| ==> LiveRow(peers, node)[i].node == node
  {
  }

  lemma RowAdded(peers: map<string, PeerRecord>, rows: seq<HubEvent>, next: string, node: string)
    ensures Project(rows + LiveRow(peers, next), node)
            == Project(rows, node) + if node == next then LiveRow(peers, next) else []
  {
    ProjectAppend(rows, LiveRow(peers, next), node);
    if LiveRow(peers, next) != [] {
      ProjectOne(LiveRow(peers, next)[0], node);
    }
  }

  ghost predicate Registered(subscribers: seq<(nat, nat)>, owner: map<nat, nat>) {
    forall i :: 0 <= i < |subscribers| ==> subscribers[i].0 in owner && owner[subscribers[i].0] == subscribers[i].1
  }

  lemma RegisteredAt(subscribers: seq<(nat, nat)>, owner: map<nat, nat>, i: nat)
    requires Registered(subscribers, owner) && i < |subscribers|
    ensures subscribers[i].0 in owner && owner[subscribers[i].0] == subscribers[i].1
  {
  }

  lemma {:induction false} RetainRegistered(subscribers: seq<(nat, nat)>, owner: map<nat, nat>, id: nat)
    requires Registered(subscribers, owner)
    ensures Registered(Retain(subscribers, id), owner)
  {
    if subscribers != [] {
      RetainRegistered(subscribers[..|subscribers| - 1], owner, id);
    }
  }

  /** The registrations of a fresh hub after subscribing these functions, with the ids
      that the saturating counter mints. */
  function MintedRegistrations(callbacks: seq<nat>): (subscribers: seq<(nat, nat)>)
    ensures |subscribers| == |callbacks|
    ensures forall k :: 0 <= k < |callbacks| ==> subscribers[k] == (Minted(k), callbacks[k])
  {
    seq(|callbacks|, k requires 0 <= k < |callbacks| => (Minted(k), callbacks[k]))
  }

  /** Unsubscribing an id that was handed out removes its subscriber only, exactly as
      long as the counter has not saturated: past that, two share the last id and one
      unsubscription removes both. */
  lemma UnsubscribeRemovesOneIff(callbacks: seq<nat>)
    ensures (forall k :: 0 <= k < |callbacks| ==>
               |Retain(MintedRegistrations(callbacks), Minted(k))| == |callbacks| - 1)
            <==> |callbacks| <= 0x1_0000_0000
  {
    hide Retain, Without;
    var subscribers := MintedRegistrations(callbacks);
    var ids := Ids(subscribers);
    forall k | 0 <= k < |callbacks|
      ensures |Retain(subscribers, Minted(k))| == |Without(ids, Minted(k))|
    {
      RetainIds(subscribers, Minted(k));
      assert |Retain(subscribers, Minted(k))| == |Ids(Retain(subscribers, Minted(k)))|;
    }
    if |callbacks| <= U32_MAX + 1 {
      forall k | 0 <= k < |callbacks|
        ensures |Without(ids, Minted(k))| == |ids| - 1
      {
        assert ids[k] == Minted(k);
        WithoutOne(ids, Minted(k));
      }
    } else {
      assert ids[U32_MAX] == U32_MAX == ids[U32_MAX + 1];
      WithoutTwo(ids, U32_MAX, U32_MAX, U32_MAX + 1);
      assert Minted(U32_MAX) == U32_MAX;
    }
  }

  /** Nothing that has happened is undone. */
  ghost predicate Later(s: State, t: State) {
    && s.delivered <= t.delivered && s.delivered + s.queue <= t.delivered + t.queue && s.nextId <= t.nextId
    && s.invocations <= t.invocations
    && (forall id :: id in s.owner ==> id in t.owner && s.owner[id] == t.owner[id])
    && (forall id :: id in s.start ==> id in t.start && s.start[id] == t.start[id])
    && (forall id :: id in s.stop ==> id in t.stop && s.stop[id] == t.stop[id])
    && (forall id :: id in s.caught ==> id in t.caught && s.caught[id] == t.caught[id])
  }

  /** While the latch is set, a call only queues, registers or removes: it invokes
      nobody. */
  ghost predicate Latched(s: State, t: State) {
    && Later(s, t) && t.delivered == s.delivered && s.queue <= t.queue
    && t.invocations == s.invocations && t.caught == s.caught
  }

  lemma LaterTrans(s: State, t: State, u: State)
    requires Later(s, t) && Later(t, u)
    ensures Later(s, u)
  {
  }

  lemma FreshInv()
    ensures var s := State(map[], [], 0, [], [], [], map[], map[], map[], map[]); Inv(s, {}) && NoStray(s)
  {
  }

  class BrowserConnectionHub {
    var peers: map<string, PeerRecord>
    var subscribers: seq<(nat, nat)>
    var nextSubscriberId: nat
    var queue: seq<HubEvent>
    var dispatching: bool
    /** What the coming callback invocations will do, in order of invocation. */
    var scripts: seq<seq<HubOp>>

    ghost var delivered: seq<HubEvent>
    ghost var invocations: seq<Invocation>
    ghost var owner: map<nat, nat>
    ghost var start: map<nat, nat>
    ghost var stop: map<nat, nat>
    ghost var caught: map<nat, (nat, nat)>

    ghost function View(): State
      reads this
    {
      State(peers, Ids(subscribers), nextSubscriberId, queue, delivered, invocations, owner, start, stop, caught)
    }

    /** The history invariants hold, and each registration holds the function that
        `owner` records for its id. */
    ghost predicate Sound(pending: set<nat>)
      reads this
    {
      Inv(View(), pending) && Registered(subscribers, owner)
    }

    /** Whenever the latch is clear, the queue is empty, nobody is owed a call, and every
        catch-up row given belongs to a snapshot subscription. */
    ghost predicate Ready(pending: set<nat>)
      reads this
    {
      Sound(pending) && (!dispatching ==> queue == [] && pending == {} && NoStray(View()))
    }

    constructor (behaviours: seq<seq<HubOp>>)
      ensures Ready({}) && !dispatching && scripts == behaviours
      ensures View() == State(map[], [], 0, [], [], [], map[], map[], map[], map[])
    {
      peers, subscribers, nextSubscriberId, queue, dispatching := map[], [], 0, [], false;
      scripts := behaviours;
      delivered, invocations, owner, start, stop, caught := [], [], map[], map[], map[], map[];
      new;
      hide Inv, NoStray;
      FreshInv();
    }

    /** Any sequence of calls, from the host or from inside a callback. */
    method Run(ops: seq<HubOp>, ghost pending: set<nat>)
      requires Ready(pending)
      modifies this
      ensures Ready(pending) && dispatching == old(dispatching) && |scripts| <= |old(scripts)|
      ensures if dispatching then Latched(old(View()), View()) else Later(old(View()), View())
      decreases |scripts|, 4
    {
      hide Inv, Later, Latched;
      LaterRefl(View());
      for i := 0 to |ops|
        invariant Ready(pending) && dispatching == old(dispatching) && |scripts| <= |old(scripts)|
        invariant if dispatching then Latched(old(View()), View()) else Later(old(View()), View())
      {
        ghost var before := View();
        match ops[i] {
          case ConnectionUp(node, creation) =>
            var _ := ConnectionUp(node, creation, pending);
          case ConnectionDown(node, reason) =>
            var _ := ConnectionDown(node, reason, pending);
          case ConnectionReplaced(node, creation, reason) =>
            var _ := ConnectionReplaced(node, creation, reason, pending);
          case Subscribe(callback) =>
            var _ := Subscribe(callback, pending);
          case SubscribeWithSnapshot(callback) =>
            var _ := SubscribeWithSnapshot(callback, pending);
          case Unsubscribe(id) =>
            var _ := Unsubscribe(id, pending);
        }
        StepTrans(dispatching, old(View()), before, View());
      }
    }

    method ConnectionUp(node: string, creation: nat, ghost pending: set<nat>) returns (r: Outcome)
      requires Ready(pending)
      modifies this
      ensures Ready(pending) && dispatching == old(dispatching) && |scripts| <= |old(scripts)|
      ensures if dispatching then Latched(old(View()), View()) else Later(old(View()), View())
      ensures r.Accept? <==> !(node in old(peers) && old(peers)[node].up)
      ensures r.Reject? ==> View() == old(View()) && r.error == BareDoubleUp
      ensures r.Accept? ==>
                var last := if node in old(peers) then old(peers)[node].generation else 0;
                Announced(old(View()), View(), dispatching, [Up(node, last + 1, creation)])
      decreases |scripts|, 3
    {
      hide Inv;
      LaterRefl(View());
      var record := if node in peers then peers[node] else PeerRecord(0, 0, false);
      if record.up {
        return Reject(BareDoubleUp);
      }
      var session := PeerRecord(record.generation + 1, creation, true);
      var event := Up(node, session.generation, creation);
      UpTracks(View(), pending, node, session);
      peers := peers[node := session];
      Deliver([event], old(View()), node, session, pending);
      r := Accept;
    }

    method ConnectionDown(node: string, reason: string, ghost pending: set<nat>) returns (r: Outcome)
      requires Ready(pending)
      modifies this
      ensures Ready(pending) && dispatching == old(dispatching) && |scripts| <= |old(scripts)|
      ensures if dispatching then Latched(old(View()), View()) else Later(old(View()), View())
      ensures r.Accept? <==> ParseReason(reason).Some? && node in old(peers) && old(peers)[node].up
      ensures r.Reject? ==> View() == old(View())
      ensures r.Reject? ==> r.error == if ParseReason(reason).None? then UnmappedDownReason else DownWithoutUp
      ensures r.Accept? ==> Announced(old(View()), View(), dispatching,
                                      [Down(node, old(peers)[node].generation, ParseReason(reason).value)])
      decreases |scripts|, 3
    {
      hide Inv;
      LaterRefl(View());
      var parsed := ParseReason(reason);
      if parsed.None? {
        return Reject(UnmappedDownReason);
      }
      if !(node in peers && peers[node].up) {
        return Reject(DownWithoutUp);
      }
      var closed := peers[node].(up := false);
      DownTracks(View(), pending, node, parsed.value);
      peers := peers[node := closed];
      Deliver([Down(node, closed.generation, parsed.value)], old(View()), node, closed, pending);
      r := Accept;
    }

    /** Both events of a replacement are queued before delivery begins: they are
        adjacent in the log. */
    method ConnectionReplaced(node: string, creation: nat, reason: string, ghost pending: set<nat>) returns (r: Outcome)
      requires Ready(pending)
      modifies this
      ensures Ready(pending) && dispatching == old(dispatching) && |scripts| <= |old(scripts)|
      ensures if dispatching then Latched(old(View()), View()) else Later(old(View()), View())
      ensures r.Accept? <==> ParseReason(reason).Some? && node in old(peers) && old(peers)[node].up
      ensures r.Reject? ==> View() == old(View())
      ensures r.Reject? ==> r.error == if ParseReason(reason).None? then UnmappedDownReason else ReplacedWithoutSession
      ensures r.Accept? ==> Announced(old(View()), View(), dispatching,
                                      [Down(node, old(peers)[node].generation, ParseReason(reason).value),
                                       Up(node, old(peers)[node].generation + 1, creation)])
      decreases |scripts|, 3
    {
      hide Inv;
      LaterRefl(View());
      var parsed := ParseReason(reason);
      if parsed.None? {
        return Reject(UnmappedDownReason);
      }
      if !(node in peers && peers[node].up) {
        return Reject(ReplacedWithoutSession);
      }
      var generation := peers[node].generation;
      var renewed := PeerRecord(generation + 1, creation, true);
      ReplaceTracks(View(), pending, node, parsed.value, creation);
      peers := peers[node := renewed];
      Deliver([Down(node, generation, parsed.value), Up(node, generation + 1, creation)], old(View()), node, renewed,
              pending);
      r := Accept;
    }

    method Subscribe(callback: nat, ghost pending: set<nat>) returns (id: nat)
      requires Ready(pending)
      modifies this
      ensures Ready(pending) && dispatching == old(dispatching) && scripts == old(scripts)
      ensures Latched(old(View()), View()) && queue == old(queue)
      ensures View() == Subscribed(old(View()), callback) && id == old(nextSubscriberId)
      ensures subscribers == old(subscribers) + [(id, callback)]
      ensures id <= U32_MAX ==> id == Minted(old(nextSubscriberId))
      decreases |scripts|, 0
    {
      hide Inv, Later, Latched, NoStray;
      id := nextSubscriberId;
      ghost var before := View();
      SubscribeKeepsInv(before, pending, callback);
      NotYetKnown(before, pending);
      SubscribedLatched(before, callback);
      nextSubscriberId := id + 1;
      subscribers := subscribers + [(id, callback)];
      owner, start := owner[id := callback], start[id := |delivered|];
      assert View() == Subscribed(old(View()), callback);
    }

    method Unsubscribe(id: nat, ghost pending: set<nat>) returns (removed: bool)
      requires Ready(pending)
      modifies this
      ensures Ready(pending) && dispatching == old(dispatching) && scripts == old(scripts)
      ensures Latched(old(View()), View()) && queue == old(queue)
      ensures removed <==> id in Ids(old(subscribers))
      ensures View() == Removed(old(View()), id)
      decreases |scripts|, 0
    {
      hide Inv, Later, Latched, Without;
      var before := |subscribers|;
      RemoveKeepsInv(View(), pending, id);
      RemovedLatched(View(), pending, id);
      RetainRemoves(subscribers, id, View(), pending);
      RetainRegistered(subscribers, owner, id);
      if id in Ids(subscribers) {
        stop := stop[id := |delivered|];
      }
      subscribers := Retain(subscribers, id);
      removed := |subscribers| != before;
      assert View() == Removed(old(View()), id);
    }

    method SubscribeWithSnapshot(callback: nat, ghost pending: set<nat>) returns (id: nat)
      requires Ready(pending)
      modifies this
      ensures Ready(pending) && dispatching == old(dispatching) && |scripts| <= |old(scripts)|
      ensures if dispatching then Latched(old(View()), View()) else Later(old(View()), View())
      ensures id in owner && owner[id] == callback
      // the function was given the open sessions, and nothing was taken from the log
      // between that and its registration
      ensures !dispatching ==>
                && id in caught && id !in old(caught) && caught[id].0 == |old(invocations)| && IsCatchUp(View(), id)
                && start[id] == |old(delivered)|
                && AreLiveRows(old(peers), Rows(CaughtUpWith(View(), id)), {})
      ensures dispatching ==> View() == Subscribed(old(View()), callback)
      decreases |scripts|, 3
    {
      hide Inv, Later, Latched, CaughtUp, NoStray, AreLiveRows, Rows;
      if dispatching {
        id := Subscribe(callback, pending);
        return;
      }
      dispatching := true;
      var rows := LiveRows();
      CatchUpRows(View(), rows);
      ghost var before := View();
      GiveRows(callback, rows);
      ghost var given := View();
      RowsGiven(before, given, callback, rows);
      id := RegisterCaughtUp(callback, rows, |before.invocations|);
      ghost var registered := View();
      DrainQueue();
      JoinedLater(before, given, registered, View(), callback, rows);
      CatchUpStands(View(), {}, id);
      dispatching := false;
    }

    /** Hand the rows to the function that is about to be registered. */
    method GiveRows(callback: nat, rows: seq<HubEvent>)
      requires Sound({}) && dispatching
      modifies this
      ensures Sound({}) && dispatching && |scripts| <= |old(scripts)|
      ensures Latched(old(View()).(invocations := old(invocations) + Given(callback, rows)), View())
      decreases |scripts|, 2
    {
      hide Inv, Later, Latched;
      ghost var before := View();
      LaterRefl(before);
      assert before.(invocations := before.invocations + Given(callback, rows[..0])) == before;
      for i := 0 to |rows|
        invariant Sound({}) && dispatching && |scripts| <= |old(scripts)|
        invariant Latched(before.(invocations := before.invocations + Given(callback, rows[..i])), View())
      {
        ghost var here := View();
        InvokeCallback(callback, rows[i], None, {});
        assert Given(callback, rows[..i + 1]) == Given(callback, rows[..i]) + [CatchUp(callback, rows[i])];
        GivenLatched(before, here, View(), Given(callback, rows[..i]), CatchUp(callback, rows[i]));
      }
      assert rows[..|rows|] == rows;
    }

    /** The function is registered, and the rows it was given from `first` on are recorded
        as its catch-up. */
    method RegisterCaughtUp(callback: nat, ghost rows: seq<HubEvent>, ghost first: nat) returns (id: nat)
      requires Sound({}) && dispatching && CaughtUp(rows, delivered, |delivered|)
      requires first <= |invocations| && invocations[first..] == Given(callback, rows)
      requires forall i :: 0 <= i < first && invocations[i].CatchUp? ==> InCatchUp(View(), i)
      modifies this
      ensures Sound({}) && dispatching && NoStray(View()) && scripts == old(scripts) && id == old(nextSubscriberId)
      ensures id !in old(caught) && id !in old(start) && id !in old(owner)
      ensures View() == Subscribed(old(View()), callback).(caught := old(caught)[id := (first, |old(invocations)|)])
      decreases |scripts|, 1
    {
      hide Inv, Later, Latched, CaughtUp, NoStray, InCatchUp;
      ghost var given := View();
      id := Subscribe(callback, {});
      SnapshotKeepsInv(given, {}, callback, first, rows);
      NotYetKnown(given, {});
      SnapshotIsNoStray(given, callback, first);
      caught := caught[id := (first, |invocations|)];
      assert View() == Subscribed(given, callback)
                       .(caught := given.caught[given.nextId := (first, |given.invocations|)]);
    }

    /** One synthetic Up per live peer, in name order. */
    method LiveRows() returns (rows: seq<HubEvent>)
      ensures AreLiveRows(peers, rows, {})
      ensures forall i, j :: 0 <= i < j < |rows| ==> LexLess(rows[i].node, rows[j].node)
    {
      hide AreLiveRows;
      rows := [];
      var left := peers.Keys;
      NoRowsYet(peers);
      while left != {}
        invariant left <= peers.Keys && AreLiveRows(peers, rows, left)
        decreases left
      {
        var next := LeastName(left);
        NextRow(peers, rows, left, next);
        left := left - {next};
        if peers[next].up {
          rows := rows + [Up(next, peers[next].generation, peers[next].creation)];
        } else {
          assert rows + LiveRow(peers, next) == rows;
        }
      }
      RowsInOrder(peers, rows);
    }

    /** Queue the events and deliver all that is pending, unless a dispatch is
        already running: then that dispatch will. */
    method Deliver(events: seq<HubEvent>, ghost before: State, ghost node: string, ghost record: PeerRecord,
                   ghost pending: set<nat>)
      requires Inv(Accepted(before, node, record, events), pending)
      requires View() == before.(peers := before.peers[node := record])
      requires Registered(subscribers, owner)
      requires !dispatching ==> queue == [] && pending == {} && NoStray(View())
      modifies this
      ensures Ready(pending) && dispatching == old(dispatching) && |scripts| <= |old(scripts)|
      ensures if dispatching then Latched(before, View()) else Later(before, View())
      ensures Announced(before, View(), dispatching, events)
      decreases |scripts|, 2
    {
      hide Inv, Later, Latched, NoStray, Announced, Registered;
      ghost var entered := View();
      queue := queue + events;
      ghost var queued := View();
      QueuedLatched(before, queued, events);
      QueuedLatched(entered, queued, events);
      assert queued == Accepted(before, node, record, events);
      if dispatching {
        return;
      }
      dispatching := true;
      DrainQueue();
      dispatching := false;
      LaterTrans(before, queued, View());
      DrainedAnnounced(before, queued, View(), events);
    }

    /** Hand every queued event to the subscribers registered when it is taken. */
    method DrainQueue()
      requires Sound({}) && dispatching
      modifies this
      ensures Sound({}) && dispatching && queue == [] && |scripts| <= |old(scripts)|
      ensures NoStray(old(View())) ==> NoStray(View())
      ensures Later(old(View()), View())
      decreases |scripts|, 1
    {
      hide Inv, Later, Latched;
      LaterRefl(View());
      while queue != []
        invariant Sound({}) && dispatching && |scripts| <= |old(scripts)|
        invariant Later(old(View()), View()) && (NoStray(old(View())) ==> NoStray(View()))
        decreases |scripts|, |queue|
      {
        ghost var before := View();
        TakeKeepsInv(before);
        var event := queue[0];
        delivered := delivered + [event];
        queue := queue[1..];
        ghost var pending := Owed(View());
        assert View() == Taken(before) && pending == Owed(before);
        TakenNoStray(before);
        HandOut(event, pending);
        HandedLater(old(View()), before, View());
      }
    }

    /** Call every subscriber of this moment, in order of registration, with the event. */
    method HandOut(event: HubEvent, ghost pending: set<nat>)
      requires Sound(pending) && dispatching && pending == Owed(View())
      requires delivered != [] && event == delivered[|delivered| - 1]
      modifies this
      ensures Sound({}) && dispatching
      ensures |scripts| < |old(scripts)| || (scripts == old(scripts) && queue == old(queue))
      ensures Later(old(View()), View()) && delivered == old(delivered)
      // one invocation per registration, each of the registered function
      ensures invocations == old(invocations) + HandedOut(old(subscribers), event, |delivered| - 1)
      ensures NoStray(old(View())) ==> NoStray(View())
      decreases |scripts|, 0, 1
    {
      hide Inv, Later, Latched, HandedOut, NoStray, Ids, Waiting, Registered;
      var snapshot := subscribers;
      ghost var left := pending;
      LaterRefl(View());
      OwedAscending(View(), pending, snapshot);
      assert snapshot[..0] == [] && HandedOut([], event, |delivered| - 1) == [];
      for i := 0 to |snapshot|
        invariant Sound(left) && dispatching && delivered == old(delivered)
        invariant left == Waiting(snapshot, i)
        invariant |scripts| < |old(scripts)| || (scripts == old(scripts) && queue == old(queue))
        invariant Later(old(View()), View()) && Registered(snapshot, owner)
        invariant invocations == old(invocations) + HandedOut(snapshot[..i], event, |delivered| - 1)
        invariant caught == old(caught)
      {
        ghost var before := View();
        ghost var id := snapshot[i].0;
        WaitingLeast(snapshot, i);
        RegisteredAt(snapshot, owner, i);
        InvokeCallback(snapshot[i].1, event, Some(id), left);
        left := left - {id};
        CalledRecord(old(View()), before, View(), id, snapshot);
        HandedNext(snapshot, i, event, |delivered| - 1);
      }
      WaitingNone(snapshot);
      assert snapshot[..|snapshot|] == snapshot;
      CallsNoStray(old(View()), View(), HandedOut(snapshot, event, |delivered| - 1));
    }

    /** One invocation of a subscriber's function, recorded as it is made: a catch-up
        row, or an event for the registration `to` of that function. What it does is the
        next script; what it throws is discarded. */
    method InvokeCallback(callback: nat, event: HubEvent, ghost to: Option<nat>, ghost pending: set<nat>)
      requires Sound(pending) && dispatching
      requires to.Some? ==> to.value in pending && (forall p :: p in pending ==> to.value <= p)
                            && delivered != [] && event == delivered[|delivered| - 1]
                            && to.value in owner && owner[to.value] == callback
      modifies this
      ensures dispatching && Sound(if to.Some? then pending - {to.value} else pending)
      ensures to.None? ==> Latched(old(View()).(invocations := old(invocations) + [CatchUp(callback, event)]), View())
      ensures to.Some? ==> Latched(Called(old(View()), to.value), View())
      ensures if old(scripts) != [] then |scripts| < |old(scripts)| else scripts == [] && queue == old(queue)
      decreases |scripts|, 0, 0
    {
      hide Inv, Later, Latched;
      ghost var owed := pending;
      if to.Some? {
        CallKeepsInv(View(), pending, to.value);
        invocations := invocations + [Call(callback, event, to.value, |delivered| - 1)];
        owed := pending - {to.value};
        assert View() == Called(old(View()), to.value);
      } else {
        GiveKeepsInv(View(), pending, callback, event);
        invocations := invocations + [CatchUp(callback, event)];
      }
      LaterRefl(View());
      if scripts != [] {
        var ops := scripts[0];
        scripts := scripts[1..];
        Run(ops, owed);
      }
    }
  }

  /** The calls that hand one event to all registrations, in their order. */
  ghost function HandedOut(subscribers: seq<(nat, nat)>, event: HubEvent, index: nat): (calls: seq<Invocation>)
    ensures |calls| == |subscribers|
    ensures forall i :: 0 <= i < |calls| ==> calls[i] == Call(subscribers[i].1, event, subscribers[i].0, index)
  {
    seq(|subscribers|, i requires 0 <= i < |subscribers| => Call(subscribers[i].1, event, subscribers[i].0, index))
  }

  /** The accepted events entered the log, adjacent and in order: at its end while a
      dispatch is running, else already handed out. */
  ghost predicate Announced(s: State, t: State, dispatching: bool, events: seq<HubEvent>) {
    if dispatching then t.queue == s.queue + events && t.delivered == s.delivered
    else s.delivered + events <= t.delivered
  }

  // --- Facts the methods rest on ---

  lemma LaterRefl(s: State)
    ensures Later(s, s) && Latched(s, s)
  {
  }

  lemma SubscribedLatched(s: State, callback: nat)
    requires s.nextId !in s.owner && s.nextId !in s.start
    ensures Latched(s, Subscribed(s, callback))
    ensures NoStray(s) ==> NoStray(Subscribed(s, callback))
  {
    assert forall i :: InCatchUp(s, i) <==> InCatchUp(Subscribed(s, callback), i);
  }

  lemma StepTrans(dispatching: bool, s: State, t: State, u: State)
    requires if dispatching then Latched(s, t) && Latched(t, u) else Later(s, t) && (Later(t, u) || Latched(t, u))
    ensures if dispatching then Latched(s, u) else Later(s, u)
  {
  }

  lemma UpTracks(s: State, pending: set<nat>, node: string, session: PeerRecord)
    requires Inv(s, pending) && session.up
    requires !(node in s.peers && s.peers[node].up)
    requires session.generation == 1 + if node in s.peers then s.peers[node].generation else 0
    ensures Inv(Accepted(s, node, session, [Up(node, session.generation, session.creation)]), pending)
  {
    hide SubscriberInv, SnapshotInv, OrderInv, Project;
    assert Tracks(s.peers, node, Project(s.delivered + s.queue, node));
    AcceptKeepsInv(s, pending, node, session, [Up(node, session.generation, session.creation)]);
  }

  lemma DownTracks(s: State, pending: set<nat>, node: string, reason: DownReason)
    requires Inv(s, pending) && node in s.peers && s.peers[node].up
    ensures Inv(Accepted(s, node, s.peers[node].(up := false), [Down(node, s.peers[node].generation, reason)]), pending)
  {
    hide SubscriberInv, SnapshotInv, OrderInv, Project;
    assert Tracks(s.peers, node, Project(s.delivered + s.queue, node));
    AcceptKeepsInv(s, pending, node, s.peers[node].(up := false), [Down(node, s.peers[node].generation, reason)]);
  }

  lemma ReplaceTracks(s: State, pending: set<nat>, node: string, reason: DownReason, creation: nat)
    requires Inv(s, pending) && node in s.peers && s.peers[node].up
    ensures var g := s.peers[node].generation;
            Inv(Accepted(s, node, PeerRecord(g + 1, creation, true),
                         [Down(node, g, reason), Up(node, g + 1, creation)]), pending)
  {
    hide SubscriberInv, SnapshotInv, OrderInv, Project;
    assert Tracks(s.peers, node, Project(s.delivered + s.queue, node));
    var g := s.peers[node].generation;
    AcceptKeepsInv(s, pending, node, PeerRecord(g + 1, creation, true),
                   [Down(node, g, reason), Up(node, g + 1, creation)]);
  }

  lemma NotYetKnown(s: State, pending: set<nat>)
    requires Inv(s, pending)
    ensures s.nextId !in s.owner && s.nextId !in s.start && s.nextId !in s.stop && s.nextId !in s.caught
  {
  }

  lemma RetainRemoves(subscribers: seq<(nat, nat)>, id: nat, s: State, pending: set<nat>)
    requires Inv(s, pending) && s.subscribers == Ids(subscribers)
    ensures Ids(Retain(subscribers, id)) == if id in s.subscribers then Without(s.subscribers, id) else s.subscribers
    ensures |Retain(subscribers, id)| != |subscribers| <==> id in s.subscribers
  {
    hide Inv;
    RemovedOnce(s, pending, id);
    RetainIds(subscribers, id);
    WithoutMembers(Ids(subscribers), id);
    assert |Retain(subscribers, id)| == |Ids(Retain(subscribers, id))|;
    if id in Ids(subscribers) {
      WithoutShorter(Ids(subscribers), id);
    } else {
      WithoutAbsent(Ids(subscribers), id);
    }
  }

  lemma RemovedOnce(s: State, pending: set<nat>, id: nat)
    requires Inv(s, pending)
    ensures id in s.subscribers ==> id !in s.stop
    ensures forall i, j :: 0 <= i < j < |s.subscribers| ==> s.subscribers[i] < s.subscribers[j]
  {
  }

  lemma RemovedLatched(s: State, pending: set<nat>, id: nat)
    requires Inv(s, pending)
    ensures Latched(s, Removed(s, id))
  {
    hide Inv, Without;
    RemovedOnce(s, pending, id);
  }

  lemma {:induction false} WithoutShorter(ids: seq<nat>, id: nat)
    requires id in ids
    ensures |Without(ids, id)| < |ids|
  {
    var n := |ids| - 1;
    WithoutBounded(ids[..n], id);
    if ids[n] != id { WithoutShorter(ids[..n], id); }
  }

  lemma {:induction false} WithoutOne(ids: seq<nat>, id: nat)
    requires id in ids && forall i, j :: 0 <= i < j < |ids| ==> ids[i] != ids[j]
    ensures |Without(ids, id)| == |ids| - 1
  {
    var n := |ids| - 1;
    if ids[n] == id {
      WithoutAbsent(ids[..n], id);
    } else {
      WithoutOne(ids[..n], id);
    }
  }

  lemma {:induction false} WithoutTwo(ids: seq<nat>, id: nat, i: nat, j: nat)
    requires i < j < |ids| && ids[i] == id == ids[j]
    ensures |Without(ids, id)| <= |ids| - 2
  {
    var n := |ids| - 1;
    if j == n {
      assert ids[..n][i] == id;
      WithoutShorter(ids[..n], id);
    } else {
      WithoutTwo(ids[..n], id, i, j);
    }
  }

  lemma {:induction false} WithoutBounded(ids: seq<nat>, id: nat)
    ensures |Without(ids, id)| <= |ids|
  {
    if ids != [] { WithoutBounded(ids[..|ids| - 1], id); }
  }

  lemma CatchUpRows(s: State, rows: seq<HubEvent>)
    requires Inv(s, {}) && s.queue == []
    requires AreLiveRows(s.peers, rows, {})
    ensures CaughtUp(rows, s.delivered, |s.delivered|)
  {
    hide Project;
    assert s.delivered[..|s.delivered|] == s.delivered && s.delivered + s.queue == s.delivered;
    forall node
      ensures Project(rows, node) == OpenSession(Project(s.delivered, node))
    {
      assert Tracks(s.peers, node, Project(s.delivered + s.queue, node));
    }
  }

  lemma HandedNext(subscribers: seq<(nat, nat)>, i: nat, event: HubEvent, index: nat)
    requires i < |subscribers|
    ensures HandedOut(subscribers[..i + 1], event, index)
            == HandedOut(subscribers[..i], event, index) + [Call(subscribers[i].1, event, subscribers[i].0, index)]
  {
  }

  lemma GivenLatched(before: State, here: State, after: State, given: seq<Invocation>, i: Invocation)
    requires Latched(before.(invocations := before.invocations + given), here)
    requires Latched(here.(invocations := here.invocations + [i]), after)
    ensures Latched(before.(invocations := before.invocations + (given + [i])), after)
  {
    assert before.invocations + (given + [i]) == before.invocations + given + [i];
  }

  lemma RowsGiven(before: State, given: State, callback: nat, rows: seq<HubEvent>)
    requires Latched(before.(invocations := before.invocations + Given(callback, rows)), given)
    requires NoStray(before)
    ensures given.delivered == before.delivered && given.caught == before.caught
    ensures |before.invocations| <= |given.invocations|
    ensures given.invocations[|before.invocations|..] == Given(callback, rows)
    ensures forall i :: 0 <= i < |before.invocations| && given.invocations[i].CatchUp? ==> InCatchUp(given, i)
  {
    forall i | 0 <= i < |before.invocations| && given.invocations[i].CatchUp?
      ensures InCatchUp(given, i)
    {
      assert given.invocations[i] == before.invocations[i] && InCatchUp(before, i);
    }
  }

  lemma CatchUpStands(s: State, pending: set<nat>, id: nat)
    requires Inv(s, pending) && id in s.caught
    ensures IsCatchUp(s, id)
  {
  }

  lemma TakenNoStray(s: State)
    requires s.queue != []
    ensures NoStray(s) ==> NoStray(Taken(s))
  {
    assert forall i :: InCatchUp(s, i) <==> InCatchUp(Taken(s), i);
  }

  /** One call made: what a hand-out needs to go on. */
  lemma CalledRecord(first: State, s: State, t: State, id: nat, snapshot: seq<(nat, nat)>)
    requires Later(first, s) && id in s.owner && s.delivered != [] && Latched(Called(s, id), t)
    requires Registered(snapshot, s.owner)
    ensures Later(first, t) && t.delivered == s.delivered
    ensures t.invocations == s.invocations + [CallOf(s, id)] && t.caught == s.caught && Registered(snapshot, t.owner)
  {
    LaterTrans(first, s, Called(s, id));
    LaterTrans(first, Called(s, id), t);
  }

  ghost predicate AscendingIds(subscribers: seq<(nat, nat)>) {
    forall i, j :: 0 <= i < j < |subscribers| ==> subscribers[i].0 < subscribers[j].0
  }

  /** The registrations from the i-th on, still to be called. */
  ghost function Waiting(subscribers: seq<(nat, nat)>, i: nat): set<nat> {
    set j | i <= j < |subscribers| :: subscribers[j].0
  }

  lemma WaitingLeast(subscribers: seq<(nat, nat)>, i: nat)
    requires AscendingIds(subscribers) && i < |subscribers|
    ensures subscribers[i].0 in Waiting(subscribers, i)
    ensures forall p :: p in Waiting(subscribers, i) ==> subscribers[i].0 <= p
    ensures Waiting(subscribers, i + 1) == Waiting(subscribers, i) - {subscribers[i].0}
  {
  }

  lemma WaitingNone(subscribers: seq<(nat, nat)>)
    ensures Waiting(subscribers, |subscribers|) == {}
  {
  }

  lemma CallsNoStray(s: State, t: State, calls: seq<Invocation>)
    requires t.invocations == s.invocations + calls && t.caught == s.caught
    requires forall i :: 0 <= i < |calls| ==> calls[i].Call?
    ensures NoStray(s) ==> NoStray(t)
  {
    if NoStray(s) {
      forall i | 0 <= i < |t.invocations| && t.invocations[i].CatchUp?
        ensures InCatchUp(t, i)
      {
        assert i < |s.invocations| && t.invocations[i] == s.invocations[i];
        assert InCatchUp(s, i);
      }
    }
  }

  /** The rows given before the registration are what the catch-up of the id consists of. */
  lemma JoinedRows(before: State, given: State, after: State, callback: nat, rows: seq<HubEvent>, id: nat)
    requires given.invocations == before.invocations + Given(callback, rows) && given.invocations <= after.invocations
    requires id in after.caught && after.caught[id] == (|before.invocations|, |given.invocations|)
    ensures after.caught[id].1 <= |after.invocations| && Rows(CaughtUpWith(after, id)) == rows
  {
    assert CaughtUpWith(after, id) == Given(callback, rows);
    assert Rows(Given(callback, rows)) == rows;
  }

  lemma JoinedLater(before: State, given: State, registered: State, after: State, callback: nat, rows: seq<HubEvent>)
    requires Latched(before.(invocations := before.invocations + Given(callback, rows)), given)
    requires given.nextId !in given.caught && given.nextId !in given.start && given.nextId !in given.owner
    requires registered == Subscribed(given, callback)
                           .(caught := given.caught[given.nextId := (|before.invocations|, |given.invocations|)])
    requires Later(registered, after)
    ensures var id := given.nextId;
            && Later(before, after)
            && id in after.owner && after.owner[id] == callback && id !in before.caught
            && id in after.caught && after.caught[id].0 == |before.invocations|
            && id in after.start && after.start[id] == |before.delivered|
            && after.caught[id].1 <= |after.invocations| && Rows(CaughtUpWith(after, id)) == rows
  {
    hide Rows, CaughtUpWith, Given;
    assert Later(before, registered);
    LaterTrans(before, registered, after);
    JoinedRows(before, given, after, callback, rows, given.nextId);
  }

  lemma QueuedLatched(before: State, queued: State, events: seq<HubEvent>)
    requires queued == before.(peers := queued.peers, queue := before.queue + events)
    ensures Latched(before, queued) && Later(before, queued) && Announced(before, queued, true, events)
    ensures NoStray(before) <==> NoStray(queued)
  {
    assert before.delivered + (before.queue + events) == before.delivered + before.queue + events;
    assert forall i :: InCatchUp(before, i) <==> InCatchUp(queued, i);
  }

  lemma DrainedAnnounced(before: State, queued: State, after: State, events: seq<HubEvent>)
    requires Later(queued, after) && after.queue == [] && before.queue == []
    requires queued.delivered == before.delivered && queued.queue == before.queue + events
    ensures Announced(before, after, false, events)
  {
    assert after.delivered + after.queue == after.delivered;
  }

  lemma HandedLater(first: State, before: State, after: State)
    requires Later(first, before) && before.queue != [] && Later(Taken(before), after)
    ensures Later(first, after)
  {
  }

  lemma OwedAscending(s: State, pending: set<nat>, subscribers: seq<(nat, nat)>)
    requires Inv(s, pending) && s.subscribers == Ids(subscribers) && pending == Owed(s)
    ensures AscendingIds(subscribers) && pending == Waiting(subscribers, 0)
  {
    assert forall i :: 0 <= i < |subscribers| ==> s.subscribers[i] == subscribers[i].0;
    forall id
      ensures id in pending <==> id in Waiting(subscribers, 0)
    {
      if id in pending {
        var i :| 0 <= i < |s.subscribers| && s.subscribers[i] == id;
        assert subscribers[i].0 == id;
      }
    }
  }
}
