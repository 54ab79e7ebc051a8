/** The in-flight registry of asynchronous capability requests: each token is taken
    by its completion or aborted by the death sweep, never both. */
module Capability {
  import opened Wrappers

  /** Registered under its pid. */
  predicate InFlight(inFlight: map<nat, seq<nat>>, pid: nat, token: nat) {
    pid in inFlight && token in inFlight[pid]
  }

  /** What has become of the tokens. `owner` is the pid each was issued for. */
  datatype Ledger = Ledger(owner: map<nat, nat>, taken: set<nat>, aborted: set<nat>, completed: set<nat>,
                           refused: set<nat>)

  ghost predicate Registry(inFlight: map<nat, seq<nat>>, nextToken: nat, ledger: Ledger) {
    && (forall pid :: pid in inFlight ==> inFlight[pid] != [] && Distinct(inFlight[pid]))
    && (forall pid: nat, t: nat :: InFlight(inFlight, pid, t) ==>
          t < nextToken && t in ledger.owner && ledger.owner[t] == pid && t !in ledger.taken && t !in ledger.aborted)
    && (forall t :: t in ledger.owner ==> t < nextToken)
    && (forall t: nat :: t < nextToken ==>
          t in ledger.owner && (t in ledger.taken || t in ledger.aborted || InFlight(inFlight, ledger.owner[t], t)))
  }

  /** Completions: a token completes once; it takes its entry, or comes after the sweep. */
  ghost predicate Completions(nextToken: nat, ledger: Ledger, counted: nat) {
    && ledger.taken !! ledger.aborted
    && (forall t :: t in ledger.aborted ==> t < nextToken)
    && (forall t :: t in ledger.completed ==> t < nextToken && (t in ledger.taken || t in ledger.aborted))
    && ledger.taken <= ledger.completed && ledger.refused <= ledger.taken
    && counted == |ledger.completed * ledger.aborted| + |ledger.refused|
  }

  class CapabilityBridge {
    var inFlight: map<nat, seq<nat>>
    var nextToken: nat
    var deadPidCompletions: nat
    var ledger: Ledger

    ghost predicate Valid()
      reads this
    {
      Registry(inFlight, nextToken, ledger) && Completions(nextToken, ledger, deadPidCompletions)
    }

    constructor ()
      ensures Valid() && inFlight == map[] && nextToken == 0 && deadPidCompletions == 0
      ensures ledger == Ledger(map[], {}, {}, {}, {})
    {
      inFlight, nextToken, deadPidCompletions := map[], 0, 0;
      ledger := Ledger(map[], {}, {}, {}, {});
    }

    /** The host accepted a call: its token is registered and the caller parks. */
    method StartCall(pid: nat) returns (token: nat)
      requires Valid()
      modifies this
      ensures Valid() && token == old(nextToken) && nextToken == token + 1
      ensures inFlight == old(inFlight)[pid := (if pid in old(inFlight) then old(inFlight)[pid] else []) + [token]]
      ensures ledger == old(ledger).(owner := old(ledger).owner[token := pid])
              && deadPidCompletions == old(deadPidCompletions)
    {
      hide Completions, Registry;
      token := nextToken;
      CompletionsMore(nextToken, ledger, deadPidCompletions, ledger.owner[token := pid]);
      StartKeeps(inFlight, nextToken, ledger, deadPidCompletions, pid);
      nextToken := token + 1;
      inFlight := inFlight[pid := (if pid in inFlight then inFlight[pid] else []) + [token]];
      ledger := ledger.(owner := ledger.owner[token := pid]);
    }

    /** Removes one entry by its token; a pid left without entries leaves the map. */
    method TakeInFlight(pid: nat, token: nat) returns (found: bool)
      requires Registry(inFlight, nextToken, ledger)
      modifies this`inFlight, this`ledger
      ensures found <==> InFlight(old(inFlight), pid, token)
      ensures !found ==> inFlight == old(inFlight) && ledger == old(ledger)
      ensures found ==> ledger == old(ledger).(taken := old(ledger).taken + {token})
      ensures Registry(inFlight, nextToken, ledger)
      ensures forall p: nat, t: nat ::
                InFlight(inFlight, p, t) <==> InFlight(old(inFlight), p, t) && !(p == pid && t == token)
    {
      hide Registry;
      if pid !in inFlight {
        return false;
      }
      var entries := inFlight[pid];
      var index := 0;
      while index < |entries| && entries[index] != token
        invariant 0 <= index <= |entries| && token !in entries[..index]
      {
        index := index + 1;
      }
      if index == |entries| {
        assert entries[..index] == entries;
        return false;
      }
      var rest := entries[..index] + entries[index + 1..];
      RemoveKeeps(inFlight, nextToken, ledger, pid, token, index);
      inFlight := if rest == [] then inFlight - {pid} else inFlight[pid := rest];
      ledger := ledger.(taken := ledger.taken + {token});
      return true;
    }

    /** The death sweep: every entry of the pid is drained, to be aborted. */
    method OnPidExit(pid: nat) returns (entries: seq<nat>)
      requires Valid()
      modifies this`inFlight, this`ledger
      ensures Valid() && pid !in inFlight && inFlight == old(inFlight) - {pid}
      ensures entries == (if pid in old(inFlight) then old(inFlight)[pid] else []) && Distinct(entries)
      // only requests not yet taken are considered for an abort
      ensures forall t :: t in entries ==> t !in old(ledger).taken && t !in old(ledger).aborted
      ensures ledger == old(ledger).(aborted := old(ledger).aborted + Members(entries))
    {
      hide Registry, Completions;
      if pid !in inFlight {
        assert inFlight - {pid} == inFlight;
        entries := [];
        assert ledger.aborted + Members(entries) == ledger.aborted;
        return;
      }
      entries := inFlight[pid];
      SweepKeeps(inFlight, nextToken, ledger, deadPidCompletions, pid);
      inFlight := inFlight - {pid};
      ledger := ledger.(aborted := ledger.aborted + Members(entries));
    }

    /** A completion lands. `built` and `accepted` are the outcomes of building the
        completion term and of its delivery to the scheduler. */
    method FinishRequest(pid: nat, token: nat, built: bool, accepted: bool) returns (delivered: bool)
      requires Valid() && token in ledger.owner && ledger.owner[token] == pid && token < nextToken
      requires token !in ledger.completed
      modifies this
      ensures Valid() && nextToken == old(nextToken) && ledger.aborted == old(ledger).aborted
              && ledger.owner == old(ledger).owner
      ensures ledger.completed == old(ledger).completed + {token}
      ensures ledger.taken == if token in old(ledger).aborted then old(ledger).taken else old(ledger).taken + {token}
      ensures old(ledger).refused <= ledger.refused
      ensures token in old(ledger).aborted <==> token !in ledger.taken
      // after the sweep: nothing is delivered, and it is counted once
      ensures token in old(ledger).aborted ==>
                !delivered && deadPidCompletions == old(deadPidCompletions) + 1 && inFlight == old(inFlight)
      ensures token !in old(ledger).aborted ==> delivered == (built && accepted)
      ensures token !in old(ledger).aborted ==>
                deadPidCompletions == old(deadPidCompletions) + if built && !accepted then 1 else 0
    {
      hide Registry, Completions, InFlight;
      EntryIff(inFlight, nextToken, ledger, deadPidCompletions, pid, token);
      var before := ledger;
      var found := TakeInFlight(pid, token);
      delivered := false;
      var refused := false;
      if !found {
        deadPidCompletions := deadPidCompletions + 1;
      } else if built {
        delivered := accepted;
        if !delivered {
          deadPidCompletions := deadPidCompletions + 1;
          refused := true;
        }
      }
      FinishKeeps(nextToken, before, old(deadPidCompletions), token, found, refused);
      ledger := Finished(before, token, found, refused);
      RegistrySame(inFlight, nextToken, if found then before.(taken := before.taken + {token}) else before, ledger);
    }
  }

  /** Tokens keep their owner, and no fate is taken back. */
  ghost predicate LedgerGrows(a: Ledger, b: Ledger) {
    && (forall t :: t in a.owner ==> t in b.owner && b.owner[t] == a.owner[t])
    && a.taken <= b.taken && a.aborted <= b.aborted && a.completed <= b.completed && a.refused <= b.refused
  }

  /** Of the first `bound` tokens, those of `pids` are taken or aborted. */
  ghost predicate SettledFor(ledger: Ledger, bound: nat, pids: set<nat>) {
    forall t: nat :: t < bound && t in ledger.owner && ledger.owner[t] in pids ==>
      t in ledger.taken || t in ledger.aborted
  }

  ghost predicate Issued(ledger: Ledger, bound: nat) {
    forall t: nat :: t < bound ==> t in ledger.owner
  }

  /** A pid has a request in flight exactly if one of its tokens is neither taken nor
      aborted. */
  lemma SettledIffAbsent(inFlight: map<nat, seq<nat>>, nextToken: nat, ledger: Ledger, pid: nat)
    requires Registry(inFlight, nextToken, ledger)
    ensures SettledFor(ledger, nextToken, {pid}) <==> pid !in inFlight
    ensures pid in inFlight ==> inFlight[pid] != []
  {
    if pid in inFlight {
      var t := inFlight[pid][0];
      assert InFlight(inFlight, pid, t);
    }
  }

  lemma NoneInFlight(inFlight: map<nat, seq<nat>>, nextToken: nat, ledger: Ledger, pids: set<nat>)
    requires Registry(inFlight, nextToken, ledger)
    ensures SettledFor(ledger, nextToken, pids) <==> inFlight.Keys !! pids
  {
    hide Registry;
    forall pid | pid in pids
      ensures SettledFor(ledger, nextToken, {pid}) <==> pid !in inFlight
    {
      SettledIffAbsent(inFlight, nextToken, ledger, pid);
    }
    if inFlight.Keys !! pids {
      forall t: nat | t < nextToken && t in ledger.owner && ledger.owner[t] in pids
        ensures t in ledger.taken || t in ledger.aborted
      {
        assert SettledFor(ledger, nextToken, {ledger.owner[t]});
      }
    } else {
      var pid :| pid in inFlight.Keys && pid in pids;
      assert !SettledFor(ledger, nextToken, {pid});
    }
  }

  /** A pid without entries has all its tokens taken or aborted. */
  lemma SweptIsSettled(inFlight: map<nat, seq<nat>>, nextToken: nat, ledger: Ledger, pid: nat)
    requires Registry(inFlight, nextToken, ledger) && pid !in inFlight
    ensures Issued(ledger, nextToken) && SettledFor(ledger, nextToken, {pid})
  {
  }

  function Finished(ledger: Ledger, token: nat, found: bool, refused: bool): Ledger {
    ledger.(taken := if found then ledger.taken + {token} else ledger.taken,
            completed := ledger.completed + {token},
            refused := if refused then ledger.refused + {token} else ledger.refused)
  }

  /** No token is lost: every one issued is taken, aborted or in flight, and only one
      of the three. */
  lemma IssuedAccounted(inFlight: map<nat, seq<nat>>, nextToken: nat, ledger: Ledger, counted: nat, t: nat)
    requires Registry(inFlight, nextToken, ledger) && Completions(nextToken, ledger, counted) && t < nextToken
    ensures t in ledger.owner
    ensures (t in ledger.taken && t !in ledger.aborted && !InFlight(inFlight, ledger.owner[t], t))
         || (t !in ledger.taken && t in ledger.aborted && !InFlight(inFlight, ledger.owner[t], t))
         || (t !in ledger.taken && t !in ledger.aborted && InFlight(inFlight, ledger.owner[t], t))
    ensures forall pid :: InFlight(inFlight, pid, t) ==> pid == ledger.owner[t]
  {
  }

  lemma CompletionsMore(nextToken: nat, ledger: Ledger, counted: nat, owner: map<nat, nat>)
    requires Completions(nextToken, ledger, counted)
    ensures Completions(nextToken + 1, ledger.(owner := owner), counted)
  {
  }

  lemma FatesAreIssued(nextToken: nat, ledger: Ledger, counted: nat)
    requires Completions(nextToken, ledger, counted)
    ensures forall t :: t in ledger.taken || t in ledger.aborted ==> t < nextToken
  {
  }

  lemma StartKeeps(inFlight: map<nat, seq<nat>>, nextToken: nat, ledger: Ledger, counted: nat, pid: nat)
    requires Registry(inFlight, nextToken, ledger) && Completions(nextToken, ledger, counted)
    ensures Registry(inFlight[pid := (if pid in inFlight then inFlight[pid] else []) + [nextToken]], nextToken + 1,
                     ledger.(owner := ledger.owner[nextToken := pid]))
  {
    hide Completions;
    FatesAreIssued(nextToken, ledger, counted);
    var entries := if pid in inFlight then inFlight[pid] else [];
    var after := inFlight[pid := entries + [nextToken]];
    forall p: nat, t: nat
      ensures InFlight(after, p, t) <==> InFlight(inFlight, p, t) || (p == pid && t == nextToken)
    {
    }
    assert forall t :: t in entries ==> InFlight(inFlight, pid, t);
    var owned := ledger.(owner := ledger.owner[nextToken := pid]);
    forall p: nat, t: nat | InFlight(after, p, t)
      ensures t < nextToken + 1 && t in owned.owner && owned.owner[t] == p && t !in owned.taken && t !in owned.aborted
    {
      if t != nextToken || p != pid { assert InFlight(inFlight, p, t); }
    }
    forall t: nat | t < nextToken + 1
      ensures t in owned.owner && (t in owned.taken || t in owned.aborted || InFlight(after, owned.owner[t], t))
    {
    }
    assert nextToken !in entries;
    assert forall i :: 0 <= i < |entries| ==> entries[i] in entries;
    assert Distinct(entries + [nextToken]);
  }

  lemma RemoveKeeps(inFlight: map<nat, seq<nat>>, nextToken: nat, ledger: Ledger, pid: nat, token: nat, index: nat)
    requires Registry(inFlight, nextToken, ledger) && pid in inFlight && index < |inFlight[pid]|
             && inFlight[pid][index] == token
    ensures var rest := inFlight[pid][..index] + inFlight[pid][index + 1..];
            var after := if rest == [] then inFlight - {pid} else inFlight[pid := rest];
            && Registry(after, nextToken, ledger.(taken := ledger.taken + {token}))
            && forall p: nat, t: nat :: InFlight(after, p, t) <==> InFlight(inFlight, p, t) && !(p == pid && t == token)
  {
    var entries := inFlight[pid];
    var rest := entries[..index] + entries[index + 1..];
    var after := if rest == [] then inFlight - {pid} else inFlight[pid := rest];
    RestMembers(entries, index);
    assert InFlight(inFlight, pid, token);
    forall p: nat, t: nat
      ensures InFlight(after, p, t) <==> InFlight(inFlight, p, t) && !(p == pid && t == token)
    {
    }
  }

  lemma RestMembers(entries: seq<nat>, index: nat)
    requires Distinct(entries) && index < |entries|
    ensures var rest := entries[..index] + entries[index + 1..];
            Distinct(rest) && forall t: nat :: t in rest <==> t in entries && t != entries[index]
  {
  }

  lemma SweepKeeps(inFlight: map<nat, seq<nat>>, nextToken: nat, ledger: Ledger, counted: nat, pid: nat)
    requires Registry(inFlight, nextToken, ledger) && Completions(nextToken, ledger, counted) && pid in inFlight
    ensures Distinct(inFlight[pid]) && forall t :: t in inFlight[pid] ==> t !in ledger.taken && t !in ledger.aborted
    ensures var swept := ledger.(aborted := ledger.aborted + Members(inFlight[pid]));
            Registry(inFlight - {pid}, nextToken, swept) && Completions(nextToken, swept, counted)
  {
    var entries := inFlight[pid];
    var swept := ledger.(aborted := ledger.aborted + Members(entries));
    assert forall t :: t in entries ==> InFlight(inFlight, pid, t);
    forall p: nat, t: nat
      ensures InFlight(inFlight - {pid}, p, t) <==> InFlight(inFlight, p, t) && p != pid
    {
    }
    assert ledger.completed * swept.aborted == ledger.completed * ledger.aborted;
  }

  /** A token not yet completed has its entry exactly if the sweep has not taken it. */
  lemma EntryIff(inFlight: map<nat, seq<nat>>, nextToken: nat, ledger: Ledger, counted: nat, pid: nat, token: nat)
    requires Registry(inFlight, nextToken, ledger) && Completions(nextToken, ledger, counted)
    requires token < nextToken && token in ledger.owner && ledger.owner[token] == pid && token !in ledger.completed
    ensures InFlight(inFlight, pid, token) <==> token !in ledger.aborted
    ensures token !in ledger.taken
  {
  }

  lemma FinishKeeps(nextToken: nat, ledger: Ledger, counted: nat, token: nat, found: bool, refused: bool)
    requires Completions(nextToken, ledger, counted) && token < nextToken && token !in ledger.completed
    requires found <==> token !in ledger.aborted
    requires refused ==> found
    ensures Completions(nextToken, Finished(ledger, token, found, refused),
                        counted + if !found || refused then 1 else 0)
  {
    var after := Finished(ledger, token, found, refused);
    if found {
      assert after.completed * after.aborted == ledger.completed * ledger.aborted;
    } else {
      assert after.completed * after.aborted == ledger.completed * ledger.aborted + {token};
    }
    assert token !in ledger.refused;
  }

  lemma RegistrySame(inFlight: map<nat, seq<nat>>, nextToken: nat, a: Ledger, b: Ledger)
    requires Registry(inFlight, nextToken, a) && a.owner == b.owner && a.taken == b.taken && a.aborted == b.aborted
    ensures Registry(inFlight, nextToken, b)
  {
  }
}
