/** Order numbers over interleavings: reserving and committing are separate steps. */
module Orders {
  import opened Messages
  import opened Stores
  import opened Archive
  import opened Relay
  import opened RelayInvariants

  function SlotOf(m: Message): Slot {
    Slot(m.groupId, OrderOf(m))
  }

  function SlotsOf(messages: map<Uuid, Message>, ids: set<Uuid>): set<Slot> {
    set id | id in ids && id in messages :: SlotOf(messages[id])
  }

  function StoredSlots(messages: map<Uuid, Message>): set<Slot> {
    SlotsOf(messages, messages.Keys)
  }

  /** Tickets between reserving and committing. */
  function Reservations(creates: map<Ticket, Creating>): set<Ticket> {
    set t | t in creates && creates[t].Reserved?
  }

  function SlotsHeld(creates: map<Ticket, Creating>, ts: set<Ticket>): set<Slot> {
    set t | t in ts && t in creates :: SlotOf(creates[t].m)
  }

  function ReservedSlots(creates: map<Ticket, Creating>): set<Slot> {
    SlotsHeld(creates, Reservations(creates))
  }

  /** Numbers handed out so far. */
  ghost predicate Issued(s: State, slot: Slot) {
    1 <= slot.order <= Counter(s.store, slot.group)
  }

  ghost predicate OneOrderEach(s: State) {
    && (forall id {:trigger s.store.messages[id]} :: id in s.store.messages ==> s.store.messages[id].order.Some?)
    && (forall i, j {:trigger s.store.messages[i], s.store.messages[j]} ::
          i in s.store.messages && j in s.store.messages && i != j ==>
            SlotOf(s.store.messages[i]) != SlotOf(s.store.messages[j]))
    && (forall t {:trigger s.creates[t]} :: t in Reservations(s.creates) ==> s.creates[t].m.order.Some?)
    && (forall t, u {:trigger s.creates[t], s.creates[u]} ::
          t in Reservations(s.creates) && u in Reservations(s.creates) && t != u ==>
            SlotOf(s.creates[t].m) != SlotOf(s.creates[u].m))
    && (forall g :: g in s.store.groupOrders ==> s.store.groupOrders[g] >= 1)
  }

  /** Every number handed out belongs to a stored message, to a create in flight or to a
      rejected create, and to only one of them. */
  ghost predicate Partitioned(s: State) {
    var stored, reserved := StoredSlots(s.store.messages), ReservedSlots(s.creates);
    && (forall slot :: Issued(s, slot) <==> slot in stored + reserved + s.burned)
    && stored !! reserved && stored !! s.burned && reserved !! s.burned
  }

  lemma SameSlots(before: map<Uuid, Message>, after: map<Uuid, Message>)
    requires before.Keys == after.Keys && Keeps(before, after)
    ensures StoredSlots(before) == StoredSlots(after)
    ensures forall id :: id in before ==> SlotOf(before[id]) == SlotOf(after[id]) && before[id].order == after[id].order
  {
    forall id | id in before
      ensures SlotOf(before[id]) == SlotOf(after[id])
    {
      assert SameIdentity(before[id], after[id]);
    }
  }

  // ---- The steps that matter ----

  lemma ReserveKeepsOrders(s: State, t: Ticket)
    requires Enabled(s, Reserve(t)) && OneOrderEach(s) && Partitioned(s)
    ensures OneOrderEach(Step(s, Reserve(t))) && Partitioned(Step(s, Reserve(t)))
  {
    var s' := Step(s, Reserve(t));
    var slot := SlotOf(s'.creates[t].m);
    assert slot.order == Counter(s.store, slot.group) + 1 && !Issued(s, slot);
    assert Reservations(s'.creates) == Reservations(s.creates) + {t};
    assert forall u :: u in Reservations(s.creates) ==> u != t && s'.creates[u] == s.creates[u];
    assert ReservedSlots(s'.creates) == ReservedSlots(s.creates) + {slot};
    forall x
      ensures Issued(s', x) <==> Issued(s, x) || x == slot
    {
    }
    ReserveKeepsDistinct(s, t);
  }

  lemma ReserveKeepsDistinct(s: State, t: Ticket)
    requires Enabled(s, Reserve(t)) && OneOrderEach(s) && Partitioned(s)
    ensures OneOrderEach(Step(s, Reserve(t)))
  {
    var s' := Step(s, Reserve(t));
    var slot := SlotOf(s'.creates[t].m);
    forall u | u in Reservations(s.creates)
      ensures u != t && s'.creates[u] == s.creates[u] && SlotOf(s.creates[u].m) != slot
    {
      assert SlotOf(s.creates[u].m) in ReservedSlots(s.creates);
      assert Issued(s, SlotOf(s.creates[u].m));
    }
  }

  lemma CommitMovesSlot(s: State, t: Ticket)
    requires Enabled(s, Commit(t)) && OneOrderEach(s) && Partitioned(s)
    ensures var slot, creates' := SlotOf(s.creates[t].m), Step(s, Commit(t)).creates;
            && slot in ReservedSlots(s.creates)
            && ReservedSlots(creates') == ReservedSlots(s.creates) - {slot}
            && Reservations(creates') == Reservations(s.creates) - {t}
            && forall u :: u in Reservations(creates') ==> u in s.creates && creates'[u] == s.creates[u]
  {
    var slot, creates' := SlotOf(s.creates[t].m), Step(s, Commit(t)).creates;
    assert t in Reservations(s.creates);
    assert creates' == s.creates - {t};
    forall x | x in ReservedSlots(s.creates) && x != slot
      ensures x in ReservedSlots(creates')
    {
      var u :| u in Reservations(s.creates) && SlotOf(s.creates[u].m) == x;
      assert u in Reservations(creates') && SlotOf(creates'[u].m) == x;
    }
    forall x | x in ReservedSlots(creates')
      ensures x in ReservedSlots(s.creates) && x != slot
    {
      var u :| u in Reservations(creates') && SlotOf(creates'[u].m) == x;
      assert u in Reservations(s.creates) && SlotOf(s.creates[u].m) == x && u != t;
    }
  }

  lemma CommitKeepsOrders(s: State, t: Ticket)
    requires Enabled(s, Commit(t)) && OneOrderEach(s) && Partitioned(s) && Keyed(s.store)
    ensures OneOrderEach(Step(s, Commit(t))) && Partitioned(Step(s, Commit(t)))
  {
    var s', m := Step(s, Commit(t)), s.creates[t].m;
    CommitMovesSlot(s, t);
    if CommitMessage(s.store, m).Ok? {
      assert s'.store.messages == s.store.messages[m.id := m];
      NewSlot(s.store.messages, m);
      forall id | id in s.store.messages
        ensures SlotOf(s.store.messages[id]) != SlotOf(m)
      {
        assert SlotOf(s.store.messages[id]) in StoredSlots(s.store.messages);
      }
    }
    assert forall x :: Issued(s', x) <==> Issued(s, x);
  }

  lemma NewSlot(messages: map<Uuid, Message>, m: Message)
    requires m.id !in messages
    ensures StoredSlots(messages[m.id := m]) == StoredSlots(messages) + {SlotOf(m)}
  {
    var after := messages[m.id := m];
    assert SlotOf(after[m.id]) in StoredSlots(after);
    forall x | x in StoredSlots(messages)
      ensures x in StoredSlots(after)
    {
      var id :| id in messages && SlotOf(messages[id]) == x;
      assert SlotOf(after[id]) == x;
    }
  }

  /** Neither the stored slots nor the reservations nor the counters change. */
  ghost predicate SameOrders(s: State, s': State) {
    && s'.store.messages.Keys == s.store.messages.Keys
    && Keeps(s.store.messages, s'.store.messages)
    && Reservations(s'.creates) == Reservations(s.creates)
    && (forall t :: t in Reservations(s.creates) ==> s'.creates[t] == s.creates[t])
    && s'.store.groupOrders == s.store.groupOrders && s'.burned == s.burned
  }

  lemma OtherStepsKeepOrders(s: State, a: Action)
    requires Enabled(s, a) && InFlight(s) && Keyed(s.store) && !a.Reserve? && !a.Commit?
    ensures SameOrders(s, Step(s, a))
  {
    SameMessagesElsewhere(s, a);
    SameCreatesElsewhere(s, a);
    CountersElsewhere(s, a);
  }

  lemma SameOrdersConserve(s: State, s': State)
    requires SameOrders(s, s') && OneOrderEach(s) && Partitioned(s)
    ensures OneOrderEach(s') && Partitioned(s')
  {
    SameSlots(s.store.messages, s'.store.messages);
    assert ReservedSlots(s'.creates) == ReservedSlots(s.creates) by {
      assert forall t :: t in Reservations(s.creates) ==> SlotOf(s'.creates[t].m) == SlotOf(s.creates[t].m);
    }
    assert forall x :: Issued(s', x) <==> Issued(s, x);
  }

  lemma SameCreatesElsewhere(s: State, a: Action)
    requires Enabled(s, a) && !a.Reserve? && !a.Commit?
    ensures Reservations(Step(s, a).creates) == Reservations(s.creates)
    ensures forall t :: t in Reservations(s.creates) ==> Step(s, a).creates[t] == s.creates[t]
  {
    if a.Draft? {
      assert forall t :: t in s.creates ==> t != a.t;
    }
  }

  lemma CountersElsewhere(s: State, a: Action)
    requires Enabled(s, a) && !a.Reserve? && !a.Commit?
    ensures Step(s, a).store.groupOrders == s.store.groupOrders && Step(s, a).burned == s.burned
  {
    match a
    case Apply(t, now) =>
      var r := Outcome(s.store, s.pending[t], now);
      assert r.Ok? ==> r.value.groupOrders == s.store.groupOrders;
    case _ =>
  }

  lemma SameMessagesElsewhere(s: State, a: Action)
    requires Enabled(s, a) && InFlight(s) && Keyed(s.store) && !a.Reserve? && !a.Commit?
    ensures Step(s, a).store.messages.Keys == s.store.messages.Keys
    ensures Keeps(s.store.messages, Step(s, a).store.messages)
  {
    var c, k := CoreOf(s), CoreStepOf(s, a);
    assert Step(s, a).store.messages == CoreNext(c, k).messages && CoreEnabled(c, k) by {
      StepIsCoreStep(s, a);
      assert Step(s, a).store.messages == CoreOf(Step(s, a)).messages;
    }
    CoreNextKeeps(c, k);
    assert k.Wrote? ==> k.m.id in c.messages by {
      if a.Apply? {
        assert s.store.messages[s.pending[a.t].id].id == s.pending[a.t].id;
      }
    }
    SameKeys(c, k);
  }

  lemma SameKeys(c: Core, k: CoreStep)
    requires CoreEnabled(c, k) && (k.Wrote? ==> k.m.id in c.messages)
    ensures CoreNext(c, k).messages.Keys == c.messages.Keys
  {
    if k.Marked? {
      MarkEffect(c, k.now);
    }
  }

  ghost predicate OrdersConserved(s: State) {
    OneOrderEach(s) && Partitioned(s)
  }

  lemma StepConservesOrders(s: State, a: Action)
    requires Enabled(s, a) && InFlight(s) && Keyed(s.store) && OrdersConserved(s)
    ensures OrdersConserved(Step(s, a))
  {
    if a.Reserve? {
      ReserveKeepsOrders(s, a.t);
    } else if a.Commit? {
      CommitKeepsOrders(s, a.t);
    } else {
      assert SameOrders(s, Step(s, a)) by { OtherStepsKeepOrders(s, a); }
      SameOrdersConserve(s, Step(s, a));
    }
  }

  /** In every interleaving the numbers 1 to a group's counter are divided among stored
      messages, reservations in flight and rejected creates; none is used twice. */
  lemma {:induction false} RunConservesOrders(states: seq<State>, acts: seq<Action>, i: nat)
    requires Run(states, acts) && i <= |acts|
    ensures OrdersConserved(states[i])
  {
    if i == 0 {
      assert StoredSlots(START.store.messages) == {} && ReservedSlots(START.creates) == {};
    } else {
      RunConservesOrders(states, acts, i - 1);
      assert InFlight(states[i - 1]) && Keyed(states[i - 1].store) by { RunIsSound(states, acts, i - 1); }
      StepConservesOrders(states[i - 1], acts[i - 1]);
      assert states[i - 1 + 1] == Step(states[i - 1], acts[i - 1]);
    }
  }

  lemma ConservedAgrees(s: State)
    requires OrdersConserved(s)
    ensures OrdersAgree(s.store)
    ensures forall t :: t in Reservations(s.creates) ==> HoldsOrder(s.store, s.creates[t].m)
  {
    forall id | id in s.store.messages
      ensures Issued(s, SlotOf(s.store.messages[id])) && s.store.messages[id].order.Some?
    {
      assert SlotOf(s.store.messages[id]) in StoredSlots(s.store.messages);
    }
    forall i, j | i in s.store.messages && j in s.store.messages && i != j
                  && s.store.messages[i].groupId == s.store.messages[j].groupId
      ensures OrderOf(s.store.messages[i]) != OrderOf(s.store.messages[j])
    {
      assert SlotOf(s.store.messages[i]) != SlotOf(s.store.messages[j]);
    }
    forall t | t in Reservations(s.creates)
      ensures HoldsOrder(s.store, s.creates[t].m)
    {
      ReservationHolds(s, t);
    }
  }

  lemma ReservationHolds(s: State, t: Ticket)
    requires OrdersConserved(s) && t in Reservations(s.creates)
    ensures HoldsOrder(s.store, s.creates[t].m)
  {
    var m := s.creates[t].m;
    assert SlotOf(m) in ReservedSlots(s.creates) && Issued(s, SlotOf(m));
    forall id | id in s.store.messages && s.store.messages[id].groupId == m.groupId
      ensures OrderOf(s.store.messages[id]) != OrderOf(m)
    {
      assert SlotOf(s.store.messages[id]) in StoredSlots(s.store.messages);
    }
  }

  /** In every interleaving the store meets what each storage call asks for: its three parts
      agree, and a create about to commit holds a number that no stored message has. */
  lemma RunIsConsistent(states: seq<State>, acts: seq<Action>, i: nat)
    requires Run(states, acts) && i <= |acts|
    ensures Consistent(states[i].store)
    ensures forall t :: t in Reservations(states[i].creates) ==> HoldsOrder(states[i].store, states[i].creates[t].m)
  {
    assert Keyed(states[i].store) && NonceIndexAgrees(states[i].store) by { RunIsSound(states, acts, i); }
    RunConservesOrders(states, acts, i);
    ConservedAgrees(states[i]);
  }

  // ---- The same as a count ----

  lemma {:induction false} SlotsOfSize(s: State, ids: set<Uuid>)
    requires OneOrderEach(s) && ids <= s.store.messages.Keys
    ensures |SlotsOf(s.store.messages, ids)| == |ids|
    decreases |ids|
  {
    var ms := s.store.messages;
    if ids == {} {
      assert SlotsOf(ms, ids) == {};
    } else {
      var id :| id in ids;
      SlotsOfSize(s, ids - {id});
      assert SlotsOf(ms, ids) == SlotsOf(ms, ids - {id}) + {SlotOf(ms[id])};
      assert SlotOf(ms[id]) !in SlotsOf(ms, ids - {id});
    }
  }

  lemma {:induction false} SlotsHeldSize(s: State, ts: set<Ticket>)
    requires OneOrderEach(s) && ts <= Reservations(s.creates)
    ensures |SlotsHeld(s.creates, ts)| == |ts|
    decreases |ts|
  {
    if ts == {} {
      assert SlotsHeld(s.creates, ts) == {};
    } else {
      var t :| t in ts;
      SlotsHeldSize(s, ts - {t});
      assert SlotsHeld(s.creates, ts) == SlotsHeld(s.creates, ts - {t}) + {SlotOf(s.creates[t].m)};
      assert SlotOf(s.creates[t].m) !in SlotsHeld(s.creates, ts - {t});
    }
  }

  /** The numbers 1 to `n` of one group. */
  function UpTo(group: string, n: nat): set<Slot> {
    set o | 1 <= o <= n :: Slot(group, o)
  }

  lemma {:induction false} UpToSize(group: string, n: nat)
    ensures |UpTo(group, n)| == n
  {
    if n == 0 {
      assert UpTo(group, n) == {};
    } else {
      UpToSize(group, n - 1);
      assert UpTo(group, n) == UpTo(group, n - 1) + {Slot(group, n)};
    }
  }

  function InGroup(messages: map<Uuid, Message>, group: string): set<Uuid> {
    set id | id in messages && messages[id].groupId == group
  }

  function ReservedIn(creates: map<Ticket, Creating>, group: string): set<Ticket> {
    set t | t in Reservations(creates) && creates[t].m.groupId == group
  }

  /** Conservation: a group's counter is the number of its stored messages, plus its creates
      in flight, plus its rejected creates. */
  lemma CounterCounts(states: seq<State>, acts: seq<Action>, i: nat, group: string)
    requires Run(states, acts) && i <= |acts|
    ensures var s := states[i];
            Counter(s.store, group) == |InGroup(s.store.messages, group)| + |ReservedIn(s.creates, group)|
                                       + |Of(s.burned, group)|
  {
    var s := states[i];
    RunConservesOrders(states, acts, i);
    GroupSlots(s, group);
    IssuedInGroup(s, group);
    DisjointSizes(StoredSlots(s.store.messages), ReservedSlots(s.creates), s.burned, group);
    UpToSize(group, Counter(s.store, group));
    SlotsOfSize(s, InGroup(s.store.messages, group));
    SlotsHeldSize(s, ReservedIn(s.creates, group));
  }

  function Of(slots: set<Slot>, group: string): set<Slot> {
    set slot | slot in slots && slot.group == group
  }

  lemma GroupSlots(s: State, group: string)
    ensures SlotsOf(s.store.messages, InGroup(s.store.messages, group)) == Of(StoredSlots(s.store.messages), group)
    ensures SlotsHeld(s.creates, ReservedIn(s.creates, group)) == Of(ReservedSlots(s.creates), group)
  {
  }

  lemma DisjointSizes(a: set<Slot>, b: set<Slot>, c: set<Slot>, group: string)
    requires a !! b && a !! c && b !! c
    ensures |Of(a + b + c, group)| == |Of(a, group)| + |Of(b, group)| + |Of(c, group)|
  {
    assert Of(a + b, group) == Of(a, group) + Of(b, group);
    assert Of(a + b + c, group) == Of(a + b, group) + Of(c, group);
  }

  lemma IssuedInGroup(s: State, group: string)
    requires Partitioned(s) && Counter(s.store, group) >= 0
    ensures UpTo(group, Counter(s.store, group))
            == Of(StoredSlots(s.store.messages) + ReservedSlots(s.creates) + s.burned, group)
  {
    forall x: Slot
      ensures x in UpTo(group, Counter(s.store, group)) <==> x.group == group && Issued(s, x)
    {
      assert x == Slot(x.group, x.order);
    }
  }
}
