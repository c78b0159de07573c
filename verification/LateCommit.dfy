/** A create that reserves its order first and commits last: clients can page past it. */
module LateCommit {
  import opened Wrappers
  import opened Messages
  import opened Stores
  import opened Archive
  import opened Relay
  import opened MissedMessages

  /** Three messages of one group, stored under orders 1 to 3. */
  ghost predicate ThreeOfAGroup(a: Message, b: Message, c: Message) {
    && a == WithOrder(NewMessage(a.id, a.groupId, a.sender, a.content, 1), 1)
    && b == WithOrder(NewMessage(b.id, a.groupId, b.sender, b.content, 2), 2)
    && c == WithOrder(NewMessage(c.id, a.groupId, c.sender, c.content, 3), 3)
    && a.id != b.id && a.id != c.id && b.id != c.id
    && a.content.nonce != b.content.nonce && a.content.nonce != c.content.nonce && b.content.nonce != c.content.nonce
  }

  /** The first create is still between its two locks while two more come and go. */
  function Script(a: Message, b: Message, c: Message): seq<Action> {
    [ Draft(0, Unordered(a)), Reserve(0),
      Draft(1, Unordered(b)), Reserve(1), Commit(1),
      Draft(1, Unordered(c)), Reserve(1), Commit(1),
      Commit(0) ]
  }

  function Quiet(store: Store, clock: Timestamp, creates: map<Ticket, Creating>): State {
    State(store, clock, creates, map[], Idle, map[], {}, store.messages, store.messages.Keys, {})
  }

  function Trace(a: Message, b: Message, c: Message): seq<State> {
    var g := a.groupId;
    var none, two := Store(map[], map[g := 1], {}), Store(map[], map[g := 2], {});
    var withB := Store(map[b.id := b], map[g := 2], {b.content.nonce});
    var three := withB.(groupOrders := map[g := 3]);
    var withC := Store(map[b.id := b, c.id := c], map[g := 3], {b.content.nonce, c.content.nonce});
    var all := Store(map[b.id := b, c.id := c, a.id := a], map[g := 3],
                     {b.content.nonce, c.content.nonce, a.content.nonce});
    [ START,
      Quiet(EMPTY_STORE, 1, map[0 := Drafted(Unordered(a))]),
      Quiet(none, 1, map[0 := Reserved(a)]),
      Quiet(none, 2, map[0 := Reserved(a), 1 := Drafted(Unordered(b))]),
      Quiet(two, 2, map[0 := Reserved(a), 1 := Reserved(b)]),
      Quiet(withB, 2, map[0 := Reserved(a)]),
      Quiet(withB, 3, map[0 := Reserved(a), 1 := Drafted(Unordered(c))]),
      Quiet(three, 3, map[0 := Reserved(a), 1 := Reserved(c)]),
      Quiet(withC, 3, map[0 := Reserved(a)]),
      Quiet(all, 3, map[]) ]
  }

  lemma FirstReservation(a: Message, b: Message, c: Message, i: nat)
    requires ThreeOfAGroup(a, b, c) && i < 2
    ensures IsStep(Trace(a, b, c)[i], Script(a, b, c)[i], Trace(a, b, c)[i + 1])
  {
    var s, k := Trace(a, b, c), Script(a, b, c);
    assert Step(s[i], k[i]).creates == s[i + 1].creates;
    assert Step(s[i], k[i]).store == s[i + 1].store;
  }

  lemma SecondReservation(a: Message, b: Message, c: Message, i: nat)
    requires ThreeOfAGroup(a, b, c) && 2 <= i < 4
    ensures IsStep(Trace(a, b, c)[i], Script(a, b, c)[i], Trace(a, b, c)[i + 1])
  {
    var s, k := Trace(a, b, c), Script(a, b, c);
    assert Step(s[i], k[i]).creates == s[i + 1].creates;
    assert Step(s[i], k[i]).store == s[i + 1].store;
  }

  lemma FirstCommit(a: Message, b: Message, c: Message)
    requires ThreeOfAGroup(a, b, c)
    ensures IsStep(Trace(a, b, c)[4], Script(a, b, c)[4], Trace(a, b, c)[5])
  {
    var s, k := Trace(a, b, c), Script(a, b, c);
    assert s[4].creates - {1} == s[5].creates;
    assert Step(s[4], k[4]).store == s[5].store;
  }

  lemma ThirdReservation(a: Message, b: Message, c: Message, i: nat)
    requires ThreeOfAGroup(a, b, c) && 5 <= i < 7
    ensures IsStep(Trace(a, b, c)[i], Script(a, b, c)[i], Trace(a, b, c)[i + 1])
  {
    var s, k := Trace(a, b, c), Script(a, b, c);
    assert Step(s[i], k[i]).creates == s[i + 1].creates;
    assert Step(s[i], k[i]).store == s[i + 1].store;
  }

  lemma SecondCommit(a: Message, b: Message, c: Message)
    requires ThreeOfAGroup(a, b, c)
    ensures IsStep(Trace(a, b, c)[7], Script(a, b, c)[7], Trace(a, b, c)[8])
  {
    var s, k := Trace(a, b, c), Script(a, b, c);
    assert s[7].creates - {1} == s[8].creates;
    assert Step(s[7], k[7]).store == s[8].store;
  }

  lemma LastCommit(a: Message, b: Message, c: Message)
    requires ThreeOfAGroup(a, b, c)
    ensures IsStep(Trace(a, b, c)[8], Script(a, b, c)[8], Trace(a, b, c)[9])
  {
    var s, k := Trace(a, b, c), Script(a, b, c);
    assert s[8].creates - {0} == s[9].creates;
    assert Step(s[8], k[8]).store == s[9].store;
  }

  lemma TraceIsRun(a: Message, b: Message, c: Message)
    requires ThreeOfAGroup(a, b, c)
    ensures Run(Trace(a, b, c), Script(a, b, c))
  {
    forall i | 0 <= i < 9
      ensures IsStep(Trace(a, b, c)[i], Script(a, b, c)[i], Trace(a, b, c)[i + 1])
    {
      if i < 2 {
        FirstReservation(a, b, c, i);
      } else if i < 4 {
        SecondReservation(a, b, c, i);
      } else if i == 4 {
        FirstCommit(a, b, c);
      } else if i < 7 {
        ThirdReservation(a, b, c, i);
      } else if i == 7 {
        SecondCommit(a, b, c);
      } else {
        LastCommit(a, b, c);
      }
    }
    StepsAreRun(Trace(a, b, c), Script(a, b, c));
  }

  /** For any three messages there is a run at whose end all three are stored and a client, done
      paging forward from before the first of them, has not been shown it. */
  lemma EarlyOrderIsMissed(a: Message, b: Message, c: Message) returns (states: seq<State>, acts: seq<Action>)
    requires ThreeOfAGroup(a, b, c)
    ensures Run(states, acts) && a.id in states[|acts|].store.messages && states[|acts|].store.messages[a.id] == a
    ensures CanBeMissed(states, acts, a)
  {
    states, acts := Trace(a, b, c), Script(a, b, c);
    TraceIsRun(a, b, c);
    var s := states[8].store;
    assert IsLater(s, a.groupId, 1, b.id) && IsLater(s, a.groupId, 1, c.id);
    assert Overtaken(s, a.id, a.groupId, 1);
    OvertakenInRun(states, acts, a, 8);
  }
}
