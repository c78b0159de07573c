/** Paging while creates, edits, deletes and the worker go on. */
module PagingRuns {
  import opened Wrappers
  import opened Messages
  import opened Stores
  import opened Relay
  import opened RelayInvariants
  import opened Orders
  import opened Paging

  /** A create of the group commits before any create that reserved a later order. */
  ghost predicate CommitsInTurn(s: State, a: Action, group: string) {
    a.Commit? && a.t in Reservations(s.creates) && s.creates[a.t].m.groupId == group ==>
      forall u :: u in Reservations(s.creates) && u != a.t && s.creates[u].m.groupId == group ==>
        OrderOf(s.creates[a.t].m) < OrderOf(s.creates[u].m)
  }

  ghost predicate ReservedAbove(s: State, group: string) {
    forall id, t :: id in s.store.messages && s.store.messages[id].groupId == group
                    && t in Reservations(s.creates) && s.creates[t].m.groupId == group
                    ==> OrderOf(s.store.messages[id]) < OrderOf(s.creates[t].m)
  }

  lemma ReserveKeepsAbove(s: State, t: Ticket, group: string)
    requires Enabled(s, Reserve(t)) && OrdersConserved(s) && ReservedAbove(s, group)
    ensures ReservedAbove(Step(s, Reserve(t)), group)
  {
    var s' := Step(s, Reserve(t));
    forall id | id in s.store.messages && s.store.messages[id].groupId == s.creates[t].m.groupId
      ensures OrderOf(s.store.messages[id]) < OrderOf(s'.creates[t].m)
    {
      assert SlotOf(s.store.messages[id]) in StoredSlots(s.store.messages);
      assert Issued(s, SlotOf(s.store.messages[id]));
    }
    assert forall u :: u in Reservations(s'.creates) && u != t ==>
        u in Reservations(s.creates) && s'.creates[u] == s.creates[u];
  }

  lemma CommitInTurn(s: State, t: Ticket, group: string)
    requires Enabled(s, Commit(t)) && ReservedAbove(s, group) && CommitsInTurn(s, Commit(t), group)
    ensures ReservedAbove(Step(s, Commit(t)), group)
    ensures GainsAtEnd(s.store.messages, Step(s, Commit(t)).store.messages, group)
  {
    var s', m := Step(s, Commit(t)), s.creates[t].m;
    assert t in Reservations(s.creates);
    assert forall u :: u in Reservations(s'.creates) ==>
        u in Reservations(s.creates) && u != t && s'.creates[u] == s.creates[u];
    assert forall id :: id in s'.store.messages ==>
        s'.store.messages[id] == m || (id in s.store.messages && s'.store.messages[id] == s.store.messages[id]);
  }

  lemma StepGainsAtEnd(s: State, a: Action, group: string)
    requires Enabled(s, a) && InFlight(s) && Keyed(s.store) && OrdersConserved(s)
    requires ReservedAbove(s, group) && CommitsInTurn(s, a, group)
    ensures ReservedAbove(Step(s, a), group)
    ensures GainsAtEnd(s.store.messages, Step(s, a).store.messages, group)
  {
    if a.Reserve? {
      ReserveKeepsAbove(s, a.t, group);
    } else if a.Commit? {
      CommitInTurn(s, a.t, group);
    } else {
      OtherStepsKeepOrders(s, a);
      SameSlots(s.store.messages, Step(s, a).store.messages);
      assert forall id :: id in s.store.messages ==>
          SlotOf(Step(s, a).store.messages[id]) == SlotOf(s.store.messages[id]);
    }
  }

  lemma GainsCompose(a: map<Uuid, Message>, b: map<Uuid, Message>, c: map<Uuid, Message>, group: string)
    requires Keeps(a, b) && Keeps(b, c) && GainsAtEnd(a, b, group) && GainsAtEnd(b, c, group)
    ensures GainsAtEnd(a, c, group)
  {
    forall i, j | i in a && a[i].groupId == group && j in c && j !in a && c[j].groupId == group
      ensures OrderOf(a[i]) < OrderOf(c[j])
    {
      assert i in b && SameIdentity(a[i], b[i]);
      if j in b {
        assert SameIdentity(b[j], c[j]);
        assert OrderOf(a[i]) < OrderOf(b[j]);
      } else {
        assert OrderOf(b[i]) < OrderOf(c[j]);
      }
    }
  }

  ghost predicate AllInTurn(states: seq<State>, acts: seq<Action>, group: string)
    requires |states| == |acts| + 1
  {
    forall i :: 0 <= i < |acts| ==> CommitsInTurn(states[i], acts[i], group)
  }

  lemma {:induction false} RunKeepsAbove(states: seq<State>, acts: seq<Action>, group: string, i: nat)
    requires Run(states, acts) && AllInTurn(states, acts, group) && i <= |acts|
    ensures ReservedAbove(states[i], group)
  {
    if i > 0 {
      RunKeepsAbove(states, acts, group, i - 1);
      StepInTurn(states, acts, group, i - 1);
    }
  }

  lemma StepInTurn(states: seq<State>, acts: seq<Action>, group: string, i: nat)
    requires Run(states, acts) && i < |acts|
    requires ReservedAbove(states[i], group) && CommitsInTurn(states[i], acts[i], group)
    ensures ReservedAbove(states[i + 1], group)
    ensures GainsAtEnd(states[i].store.messages, states[i + 1].store.messages, group)
  {
    RunConservesOrders(states, acts, i);
    assert InFlight(states[i]) && Keyed(states[i].store) by { RunIsSound(states, acts, i); }
    StepGainsAtEnd(states[i], acts[i], group);
    assert states[i + 1] == Step(states[i], acts[i]);
  }

  lemma {:induction false} ChainGainsAtEnd(ms: seq<map<Uuid, Message>>, group: string, i: nat, j: nat)
    requires i <= j < |ms|
    requires forall k :: 0 < k < |ms| ==> Keeps(ms[k - 1], ms[k]) && GainsAtEnd(ms[k - 1], ms[k], group)
    ensures Keeps(ms[i], ms[j]) && GainsAtEnd(ms[i], ms[j], group)
    decreases j
  {
    if i < j {
      ChainGainsAtEnd(ms, group, i, j - 1);
      assert Keeps(ms[j - 1], ms[j]) && GainsAtEnd(ms[j - 1], ms[j], group);
      KeepsCompose(ms[i], ms[j - 1], ms[j]);
      GainsCompose(ms[i], ms[j - 1], ms[j], group);
    }
  }

  lemma KeepsCompose(a: map<Uuid, Message>, b: map<Uuid, Message>, c: map<Uuid, Message>)
    requires Keeps(a, b) && Keeps(b, c)
    ensures Keeps(a, c)
  {
    forall id | id in a
      ensures id in c && SameIdentity(a[id], c[id])
    {
      assert id in b && SameIdentity(a[id], b[id]);
    }
  }

  /** With creates committing in turn, a group only grows at its end. */
  lemma RunGainsAtEnd(states: seq<State>, acts: seq<Action>, group: string, i: nat, j: nat)
    requires Run(states, acts) && AllInTurn(states, acts, group) && i <= j <= |acts|
    ensures GainsAtEnd(states[i].store.messages, states[j].store.messages, group)
  {
    var ms := seq(|states|, k requires 0 <= k < |states| => states[k].store.messages);
    forall k | 0 < k < |ms|
      ensures Keeps(ms[k - 1], ms[k]) && GainsAtEnd(ms[k - 1], ms[k], group)
    {
      RunKeepsAbove(states, acts, group, k - 1);
      StepInTurn(states, acts, group, k - 1);
      IdentityIsStable(states, acts, k - 1, k);
    }
    ChainGainsAtEnd(ms, group, i, j);
  }

  /** What the requests of a client see when they are served at the given moments of a run. */
  function StoresAt(states: seq<State>, times: seq<nat>): seq<Store>
    requires forall k :: 0 <= k < |times| ==> times[k] < |states|
  {
    seq(|times|, k requires 0 <= k < |times| => states[times[k]].store)
  }

  ghost predicate Moments(acts: seq<Action>, times: seq<nat>) {
    && times != []
    && (forall k :: 0 <= k < |times| ==> times[k] <= |acts|)
    && forall k, l :: 0 <= k <= l < |times| ==> times[k] <= times[l]
  }

  lemma SeenInRun(states: seq<State>, acts: seq<Action>, times: seq<nat>)
    requires Run(states, acts) && Moments(acts, times)
    ensures forall s :: s in StoresAt(states, times) ==> SeenBefore(s, states[times[|times| - 1]].store)
  {
    var last := times[|times| - 1];
    forall s | s in StoresAt(states, times)
      ensures SeenBefore(s, states[last].store)
    {
      var k :| 0 <= k < |times| && StoresAt(states, times)[k] == s;
      assert times[k] <= last;
      RunIsSound(states, acts, times[k]);
      IdentityIsStable(states, acts, times[k], last);
    }
  }

  /** Paging under writes, in every interleaving: nothing is shown twice, and a message committed
      by the last request is shown exactly when it was committed by the request whose page runs
      past its order. */
  lemma PagingUnderWrites(states: seq<State>, acts: seq<Action>, times: seq<nat>, group: string, start: Option<int>,
                          limit: nat, pages: seq<Page>, id: Uuid)
    requires Run(states, acts) && Moments(acts, times)
    requires Paged(StoresAt(states, times), group, start, limit, pages)
    requires id in states[times[|times| - 1]].store.messages
    requires var m := states[times[|times| - 1]].store.messages[id]; m.groupId == group && Above(start, OrderOf(m))
    ensures Ascending(Concat(pages))
    ensures Shows(Concat(pages), id)
            <==> CommittedInTime(StoresAt(states, times), pages, states[times[|times| - 1]].store.messages[id])
  {
    var stores, end := StoresAt(states, times), states[times[|times| - 1]].store;
    PagedIsPolled(stores, group, start, limit, pages);
    PagesAscend(stores, group, start, limit, pages);
    SeenInRun(states, acts, times);
    assert end.messages[id].id == id by { RunIsSound(states, acts, times[|times| - 1]); }
    ShownIff(stores, end, group, start, limit, pages, end.messages[id]);
  }

  lemma GainsInRun(states: seq<State>, acts: seq<Action>, times: seq<nat>, group: string)
    requires Run(states, acts) && Moments(acts, times) && AllInTurn(states, acts, group)
    ensures forall s :: s in StoresAt(states, times) ==>
              GainsAtEnd(s.messages, states[times[|times| - 1]].store.messages, group)
  {
    var last := times[|times| - 1];
    forall s | s in StoresAt(states, times)
      ensures GainsAtEnd(s.messages, states[last].store.messages, group)
    {
      var k :| 0 <= k < |times| && StoresAt(states, times)[k] == s;
      assert times[k] <= last;
      RunGainsAtEnd(states, acts, group, times[k], last);
    }
  }

  /** With creates committing in the order they reserved, nothing committed by the last request
      is missed. */
  lemma PagingInTurnIsComplete(states: seq<State>, acts: seq<Action>, times: seq<nat>, group: string,
                               start: Option<int>,
                               limit: nat, pages: seq<Page>, id: Uuid)
    requires Run(states, acts) && Moments(acts, times) && AllInTurn(states, acts, group)
    requires Paged(StoresAt(states, times), group, start, limit, pages)
    requires id in states[times[|times| - 1]].store.messages
    requires var m := states[times[|times| - 1]].store.messages[id]; m.groupId == group && Above(start, OrderOf(m))
    ensures Shows(Concat(pages), id)
  {
    var stores, last := StoresAt(states, times), times[|times| - 1];
    SeenInRun(states, acts, times);
    GainsInRun(states, acts, times, group);
    InOrderPagingIsComplete(stores, states[last].store, group, start, limit, pages, id);
  }
}
