/** Exit waiters: each one registered is parked under its pid or settled, once. */
module Waiters {
  import opened Wrappers

  datatype Answer = Exited | Errored | SettledIdle | Rejected

  /** `pidOf` is the pid each waiter was registered for, `settled` its answer. */
  datatype Book = Book(waiters: map<nat, seq<nat>>, next: nat, pidOf: map<nat, nat>, settled: map<nat, Answer>)

  ghost predicate Parked(b: Book, pid: nat, id: nat) {
    pid in b.waiters && id in b.waiters[pid]
  }

  /** Registered waiters divide into parked and settled. */
  ghost predicate BookInv(b: Book) {
    && (forall pid :: pid in b.waiters ==> Distinct(b.waiters[pid]))
    && (forall pid: nat, id: nat :: Parked(b, pid, id) ==>
          id < b.next && id in b.pidOf && b.pidOf[id] == pid && id !in b.settled)
    && (forall id: nat :: id < b.next ==> id in b.pidOf && (id in b.settled || Parked(b, b.pidOf[id], id)))
    && (forall id: nat :: id in b.settled || id in b.pidOf ==> id < b.next)
  }

  /** An answer, once given, is never taken back or given again. */
  ghost predicate Keeps(a: Book, b: Book) {
    && a.next <= b.next
    && (forall id :: id in a.settled ==> id in b.settled && b.settled[id] == a.settled[id])
    && (forall id :: id in a.pidOf ==> id in b.pidOf && b.pidOf[id] == a.pidOf[id])
  }

  function Registered(b: Book, pid: nat): Book {
    b.(waiters := b.waiters[pid := (if pid in b.waiters then b.waiters[pid] else []) + [b.next]],
       next := b.next + 1, pidOf := b.pidOf[b.next := pid])
  }

  lemma RegisterKeeps(b: Book, pid: nat)
    requires BookInv(b)
    ensures BookInv(Registered(b, pid)) && Keeps(b, Registered(b, pid))
  {
    var c := Registered(b, pid);
    var ids := if pid in b.waiters then b.waiters[pid] else [];
    assert forall id :: id in ids ==> Parked(b, pid, id);
    assert b.next !in ids;
    assert forall i :: 0 <= i < |ids| ==> ids[i] in ids;
    assert Distinct(ids + [b.next]);
    forall p: nat, id: nat
      ensures Parked(c, p, id) <==> Parked(b, p, id) || (p == pid && id == b.next)
    {
    }
  }

  /** The new waiter is nobody else's, stands under its own pid behind those that waited
      before, and changes no other list. */
  lemma RegistersAtEnd(b: Book, pid: nat)
    requires BookInv(b)
    ensures var c := Registered(b, pid);
            && b.next !in b.pidOf && b.next in c.pidOf && c.pidOf[b.next] == pid
            && Parked(c, pid, b.next) && b.next !in c.settled
            && pid in c.waiters && c.waiters[pid] == (if pid in b.waiters then b.waiters[pid] else []) + [b.next]
            && forall p :: p != pid ==> (p in c.waiters <==> p in b.waiters)
                                        && (p in c.waiters ==> c.waiters[p] == b.waiters[p])
  {
  }

  function Answered(ids: seq<nat>, answer: Answer): map<nat, Answer> {
    map id | id in ids :: answer
  }

  /** The waiters of one pid are removed and all get the same answer. */
  function PidSettled(b: Book, pid: nat, answer: Answer): Book {
    if pid in b.waiters
    then b.(waiters := b.waiters - {pid}, settled := b.settled + Answered(b.waiters[pid], answer))
    else b
  }

  lemma SettleKeeps(b: Book, pid: nat, answer: Answer)
    requires BookInv(b)
    ensures BookInv(PidSettled(b, pid, answer)) && Keeps(b, PidSettled(b, pid, answer))
  {
    if pid in b.waiters {
      var c := PidSettled(b, pid, answer);
      assert forall id :: id in b.waiters[pid] ==> Parked(b, pid, id);
      forall p: nat, id: nat
        ensures Parked(c, p, id) <==> Parked(b, p, id) && p != pid
      {
      }
      assert forall p: nat, id: nat :: Parked(b, p, id) && p != pid ==> id !in b.waiters[pid];
    }
  }

  /** Exactly the waiters parked under `pids` are settled, all with the one answer. */
  ghost predicate Settles(a: Book, b: Book, pids: set<nat>, answer: Answer) {
    && Keeps(a, b) && b.next == a.next && b.pidOf == a.pidOf
    && forall id: nat :: id in a.pidOf && id !in a.settled ==>
         if a.pidOf[id] in pids then id in b.settled && b.settled[id] == answer else id !in b.settled
  }

  lemma SettlesNone(b: Book, answer: Answer)
    ensures Settles(b, b, {}, answer)
  {
  }

  lemma SettlesPid(b: Book, pid: nat, answer: Answer)
    requires BookInv(b)
    ensures Settles(b, PidSettled(b, pid, answer), {pid}, answer)
  {
    SettleKeeps(b, pid, answer);
    forall id: nat | id in b.pidOf && id !in b.settled
      ensures b.pidOf[id] == pid <==> pid in b.waiters && id in b.waiters[pid]
    {
      assert Parked(b, b.pidOf[id], id);
      assert pid in b.waiters && id in b.waiters[pid] ==> Parked(b, pid, id);
    }
  }

  lemma SettlesTrans(a: Book, b: Book, c: Book, first: set<nat>, second: set<nat>, answer: Answer)
    requires Settles(a, b, first, answer) && Settles(b, c, second, answer)
    ensures Settles(a, c, first + second, answer)
  {
  }

  /** What one observation of exits does to the waiters parked before it: an exited
      pid wins over an errored one, and only a settled idle answers the others. */
  ghost predicate Observed(a: Book, b: Book, exited: set<nat>, errored: set<nat>, settledIdle: bool) {
    && Keeps(a, b)
    && forall id: nat :: id in a.pidOf && id !in a.settled ==>
         if a.pidOf[id] in exited then id in b.settled && b.settled[id] == Exited
         else if a.pidOf[id] in errored then id in b.settled && b.settled[id] == Errored
         else if settledIdle then id in b.settled && b.settled[id] == SettledIdle
         else id !in b.settled
  }

  lemma ObservedInOrder(a: Book, b: Book, c: Book, d: Book, exited: set<nat>, errored: set<nat>, settledIdle: bool)
    requires Settles(a, b, exited, Exited) && Settles(b, c, errored, Errored)
    requires if settledIdle then BookInv(c) && Settles(c, d, c.waiters.Keys, SettledIdle) else d == c
    ensures Observed(a, d, exited, errored, settledIdle)
  {
  }

  lemma ObservedKeeps(a: Book, b: Book, exited: set<nat>, errored: set<nat>, settledIdle: bool)
    requires Observed(a, b, exited, errored, settledIdle)
    ensures Keeps(a, b)
  {
  }

  lemma AllParked(b: Book)
    requires BookInv(b)
    ensures forall id: nat :: id in b.pidOf && id !in b.settled ==> b.pidOf[id] in b.waiters
  {
  }

  lemma PidWaiters(b: Book, pid: nat)
    requires BookInv(b) && pid in b.waiters
    ensures Distinct(b.waiters[pid]) && forall id :: id in b.waiters[pid] ==> id !in b.settled
  {
    assert forall id :: id in b.waiters[pid] ==> Parked(b, pid, id);
  }

  lemma KeepsTrans(a: Book, b: Book, c: Book)
    requires Keeps(a, b) && Keeps(b, c)
    ensures Keeps(a, c)
  {
  }
}
