/** Clients that keep asking: they go on from the last order received even when a page announced
    no more, and so get the messages that are created later. */
module Polling {
  import opened Wrappers
  import opened Messages
  import opened Stores
  import opened Relay
  import opened Paging
  import opened PagingRuns
  import opened MissedMessages

  /** The client's cursor has moved past the message, which it was not shown. */
  ghost predicate PassedOver(m: Message, start: Option<int>, pages: seq<Page>) {
    !Shows(Concat(pages), m.id) && FinalCursor(start, pages).Some? && OrderOf(m) <= FinalCursor(start, pages).value
  }

  /** The message is not stored yet, and a later one of its group is. */
  ghost predicate Preceded(s: Store, m: Message) {
    m.id !in s.messages && exists i :: IsLater(s, m.groupId, OrderOf(m), i)
  }

  /** A client that has been moved past a message is never shown it, however often it asks. */
  lemma {:induction false} NeverShownAfter(stores: seq<Store>, end: Store, start: Option<int>, limit: nat,
                                           pages: seq<Page>, m: Message)
    requires Polled(stores, m.groupId, start, limit, pages) && forall s :: s in stores ==> SeenBefore(s, end)
    requires m.id in end.messages && end.messages[m.id] == m && start.Some? && OrderOf(m) <= start.value
    ensures !Shows(Concat(pages), m.id)
    decreases |pages|
  {
    if pages != [] {
      assert stores[0] in stores;
      OnePage(stores[0], m.groupId, start, limit, pages[0]);
      NothingAtOrBelow(stores[0], end, start, limit, pages[0], m);
      assert forall s :: s in stores[1..] ==> s in stores;
      NeverShownAfter(stores[1..], end, NextCursor(start, pages[0]), limit, pages[1..], m);
      ShowsConcat(pages[0].messages, Concat(pages[1..]), m.id);
    }
  }

  lemma NothingAtOrBelow(s: Store, end: Store, start: Option<int>, limit: nat, page: Page, m: Message)
    requires IsAnswer(s, m.groupId, start, None, limit, page) && SeenBefore(s, end)
    requires m.id in end.messages && end.messages[m.id] == m && start.Some? && OrderOf(m) <= start.value
    ensures !Shows(page.messages, m.id)
  {
    OnePage(s, m.groupId, start, limit, page);
    forall x | x in page.messages
      ensures x.id in end.messages && OrderOf(x) == OrderOf(end.messages[x.id])
    {
      assert SameIdentity(s.messages[x.id], end.messages[x.id]);
    }
  }

  // ---- Passed over means preceded ----

  /** A page that moves the cursor past a message it does not show ends at a later one. */
  lemma CrossingShowsLater(s: Store, end: Store, start: Option<int>, limit: nat, page: Page, m: Message)
    requires IsAnswer(s, m.groupId, start, None, limit, page) && SeenBefore(s, end) && OrdersAgree(end)
    requires m.id in end.messages && end.messages[m.id] == m && Above(start, OrderOf(m))
    requires !Shows(page.messages, m.id) && page.messages != [] && OrderOf(m) <= LastOrder(page)
    ensures Preceded(s, m) && limit >= 1
  {
    OnePageShows(s, end, m.groupId, start, limit, page, m);
    OnePageSize(s, m.groupId, start, limit, page);
    OnePage(s, m.groupId, start, limit, page);
    var last := page.messages[|page.messages| - 1];
    assert last in page.messages && last.groupId == m.groupId;
    assert SameIdentity(s.messages[last.id], end.messages[last.id]);
    assert OrderOf(end.messages[last.id]) != OrderOf(m);
    assert IsLater(s, m.groupId, OrderOf(m), last.id);
  }

  lemma {:induction false} PassedIsPreceded(stores: seq<Store>, end: Store, start: Option<int>, limit: nat,
                                            pages: seq<Page>, m: Message) returns (k: nat)
    requires Polled(stores, m.groupId, start, limit, pages)
    requires (forall s :: s in stores ==> SeenBefore(s, end)) && OrdersAgree(end)
    requires m.id in end.messages && end.messages[m.id] == m && Above(start, OrderOf(m))
    requires PassedOver(m, start, pages)
    ensures k < |stores| && Preceded(stores[k], m) && limit >= 1
    decreases |pages|
  {
    assert stores[0] in stores;
    ShowsConcat(pages[0].messages, Concat(pages[1..]), m.id);
    if pages[0].messages != [] && OrderOf(m) <= LastOrder(pages[0]) {
      CrossingShowsLater(stores[0], end, start, limit, pages[0], m);
      k := 0;
    } else {
      assert forall s :: s in stores[1..] ==> s in stores;
      var j := PassedIsPreceded(stores[1..], end, NextCursor(start, pages[0]), limit, pages[1..], m);
      k := j + 1;
    }
  }

  // ---- Preceded means that somebody can be passed over ----

  lemma PrecededIsCrossed(s: Store, limit: nat, page: Page, m: Message)
    requires Preceded(s, m) && limit >= 1 && Keyed(s)
    requires IsAnswer(s, m.groupId, Some(OrderOf(m) - 1), None, limit, page)
    ensures page.messages != [] && OrderOf(m) <= LastOrder(page) && !Shows(page.messages, m.id)
  {
    OnePage(s, m.groupId, Some(OrderOf(m) - 1), limit, page);
    OnePageSize(s, m.groupId, Some(OrderOf(m) - 1), limit, page);
    var i :| IsLater(s, m.groupId, OrderOf(m), i);
    assert !page.hasNext ==> s.messages[i] in page.messages;
  }

  /** Ask right before the message while it is preceded, and again when it is stored. */
  lemma PrecededCanBePassed(s: Store, end: Store, limit: nat, m: Message) returns (pages: seq<Page>)
    requires Consistent(s) && Consistent(end) && SeenBefore(s, end) && limit >= 1
    requires m.id in end.messages && end.messages[m.id] == m && Preceded(s, m)
    ensures Polled([s, end], m.groupId, Some(OrderOf(m) - 1), limit, pages)
    ensures PassedOver(m, Some(OrderOf(m) - 1), pages)
  {
    var start := Some(OrderOf(m) - 1);
    var first := AnswerExists(s, m.groupId, start, limit);
    PrecededIsCrossed(s, limit, first, m);
    var cursor := Some(LastOrder(first));
    var second := AnswerExists(end, m.groupId, cursor, limit);
    SeenItself(end);
    NothingAtOrBelow(end, end, cursor, limit, second, m);
    OnePage(end, m.groupId, cursor, limit, second);
    pages := [first, second];
    assert pages[1..] == [second] && [s, end][1..] == [end] && [second][1..] == [] && [end][1..] == [];
    assert Polled([end], m.groupId, cursor, limit, [second]);
    assert Concat([second]) == second.messages;
    ShowsConcat(first.messages, Concat([second]), m.id);
    assert FinalCursor(cursor, [second]) == NextCursor(cursor, second);
  }

  // ---- In a run ----

  /** A client that asks at these moments has been moved past a message that was stored by its
      last request and lay after its starting point. */
  ghost predicate Passes(states: seq<State>, acts: seq<Action>, m: Message, limit: nat, times: seq<nat>,
                         start: Option<int>, pages: seq<Page>)
    requires |states| == |acts| + 1
  {
    && Moments(acts, times)
    && m.id in states[times[|times| - 1]].store.messages
    && Above(start, OrderOf(m))
    && Polled(StoresAt(states, times), m.groupId, start, limit, pages)
    && PassedOver(m, start, pages)
  }

  ghost predicate CanBePassed(states: seq<State>, acts: seq<Action>, m: Message, limit: nat)
    requires |states| == |acts| + 1
  {
    exists times, start, pages :: Passes(states, acts, m, limit, times, start, pages)
  }

  /** At some moment before the message is stored, a later one of its group is. */
  ghost predicate IsPreceded(states: seq<State>, m: Message) {
    exists k: nat {:trigger states[k]} :: k < |states| && Preceded(states[k].store, m)
  }

  lemma PassedInRun(states: seq<State>, acts: seq<Action>, m: Message, limit: nat, times: seq<nat>, start: Option<int>,
                    pages: seq<Page>)
    requires Run(states, acts) && m.id in states[|acts|].store.messages && states[|acts|].store.messages[m.id] == m
    requires Passes(states, acts, m, limit, times, start, pages)
    ensures IsPreceded(states, m) && limit >= 1
  {
    var stores, end := StoresAt(states, times), states[|acts|].store;
    forall s | s in stores
      ensures SeenBefore(s, end)
    {
      var k :| 0 <= k < |times| && stores[k] == s;
      SeenAtEnd(states, acts, times[k]);
    }
    assert OrdersAgree(end) by { SeenAtEnd(states, acts, |acts|); }
    var k := PassedIsPreceded(stores, end, start, limit, pages, m);
    assert Preceded(states[times[k]].store, m);
  }

  lemma PrecededInRun(states: seq<State>, acts: seq<Action>, m: Message, limit: nat, k: nat)
    requires Run(states, acts) && m.id in states[|acts|].store.messages && states[|acts|].store.messages[m.id] == m
    requires k <= |acts| && Preceded(states[k].store, m) && limit >= 1
    ensures CanBePassed(states, acts, m, limit)
  {
    SeenAtEnd(states, acts, k);
    SeenAtEnd(states, acts, |acts|);
    var stores := [states[k].store, states[|acts|].store];
    var pages := PrecededCanBePassed(stores[0], stores[1], limit, m);
    var times := OnceThen(states, acts, stores, k);
    assert Passes(states, acts, m, limit, times, Some(OrderOf(m) - 1), pages);
  }

  /** The exact condition for clients that keep asking, with any one limit: they can be moved past
      a stored message if and only if the limit is at least 1 and at some moment before the
      message was stored a later one of its group already was. */
  lemma PassedIff(states: seq<State>, acts: seq<Action>, m: Message, limit: nat)
    requires Run(states, acts) && m.id in states[|acts|].store.messages && states[|acts|].store.messages[m.id] == m
    ensures CanBePassed(states, acts, m, limit) <==> limit >= 1 && IsPreceded(states, m)
  {
    if CanBePassed(states, acts, m, limit) {
      var times, start, pages :| Passes(states, acts, m, limit, times, start, pages);
      PassedInRun(states, acts, m, limit, times, start, pages);
    }
    if limit >= 1 && IsPreceded(states, m) {
      var k: nat :| k < |states| && Preceded(states[k].store, m);
      PrecededInRun(states, acts, m, limit, k);
    }
  }

  /** When the creates of a group commit in the order they reserved, nobody is moved past any of
      its messages. */
  lemma InTurnNobodyIsPassed(states: seq<State>, acts: seq<Action>, m: Message, limit: nat)
    requires Run(states, acts) && AllInTurn(states, acts, m.groupId)
    requires m.id in states[|acts|].store.messages && states[|acts|].store.messages[m.id] == m
    ensures !CanBePassed(states, acts, m, limit)
  {
    forall k: nat | k < |states|
      ensures !Preceded(states[k].store, m)
    {
      RunGainsAtEnd(states, acts, m.groupId, k, |acts|);
    }
    PassedIff(states, acts, m, limit);
  }
}
