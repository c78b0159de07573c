/** Which messages a client can miss by paging forward while creates are under way. */
module MissedMessages {
  import opened Wrappers
  import opened Messages
  import opened Stores
  import opened Relay
  import opened RelayInvariants
  import opened Orders
  import opened Paging
  import opened PagingRuns

  predicate IsLater(s: Store, group: string, order: int, id: Uuid) {
    id in s.messages && s.messages[id].groupId == group && order < OrderOf(s.messages[id])
  }

  /** Two messages of the group with later orders are stored. */
  ghost predicate TwoLater(s: Store, group: string, order: int) {
    exists i, j :: i != j && IsLater(s, group, order, i) && IsLater(s, group, order, j)
  }

  /** The message is not stored yet, and two later ones of its group are. */
  ghost predicate Overtaken(s: Store, id: Uuid, group: string, order: int) {
    id !in s.messages && TwoLater(s, group, order)
  }

  /** A page that ends at a later message and has a next one proves two later messages. */
  lemma PassedBy(s: Store, end: Store, start: Option<int>, limit: nat, page: Page, m: Message)
    requires IsAnswer(s, m.groupId, start, None, limit, page) && page.hasNext && page.messages != []
    requires SeenBefore(s, end) && OrdersAgree(end)
    requires m.id in end.messages && end.messages[m.id] == m && m.id !in s.messages
    requires OrderOf(m) <= LastOrder(page)
    ensures TwoLater(s, m.groupId, OrderOf(m))
  {
    AnswerMeans(s, m.groupId, start, None, limit, page);
    OnePage(s, m.groupId, start, limit, page);
    var last := page.messages[|page.messages| - 1];
    assert last in page.messages && last.groupId == m.groupId;
    assert SameIdentity(s.messages[last.id], end.messages[last.id]);
    assert OrderOf(end.messages[last.id]) != OrderOf(m);
    var next :| next in MatchingIds(s, m.groupId, start, None) && s.messages[next] !in page.messages;
    assert IsLater(s, m.groupId, OrderOf(m), last.id) && IsLater(s, m.groupId, OrderOf(m), next);
  }

  lemma NotInTimeMeans(stores: seq<Store>, start: Option<int>, limit: nat, pages: seq<Page>, m: Message)
    requires Paged(stores, m.groupId, start, limit, pages)
    requires m.id in stores[|stores| - 1].messages && !CommittedInTime(stores, pages, m)
    ensures |pages| > 1 && pages[0].hasNext && pages[0].messages != []
    ensures OrderOf(m) <= LastOrder(pages[0]) ==> m.id !in stores[0].messages
    ensures OrderOf(m) > LastOrder(pages[0]) ==> !CommittedInTime(stores[1..], pages[1..], m)
    ensures stores[1..][|stores| - 2] == stores[|stores| - 1]
  {
  }

  lemma {:induction false} NotInTimeIsOvertaken(stores: seq<Store>, end: Store, start: Option<int>, limit: nat,
                                                pages: seq<Page>, m: Message) returns (k: nat)
    requires Paged(stores, m.groupId, start, limit, pages)
    requires (forall s :: s in stores ==> SeenBefore(s, end)) && OrdersAgree(end)
    requires m.id in end.messages && end.messages[m.id] == m && m.id in stores[|stores| - 1].messages
    requires !CommittedInTime(stores, pages, m)
    ensures k < |stores| && Overtaken(stores[k], m.id, m.groupId, OrderOf(m))
    decreases |pages|
  {
    NotInTimeMeans(stores, start, limit, pages, m);
    assert stores[0] in stores;
    if OrderOf(m) <= LastOrder(pages[0]) {
      PassedBy(stores[0], end, start, limit, pages[0], m);
      k := 0;
    } else {
      assert forall s :: s in stores[1..] ==> s in stores;
      var j := NotInTimeIsOvertaken(stores[1..], end, Some(LastOrder(pages[0])), limit, pages[1..], m);
      k := j + 1;
    }
  }

  /** A client that is done was not shown a message that was there at its last request and lay
      after its starting point: some request of it came when the message was overtaken. */
  lemma MissedIsOvertaken(stores: seq<Store>, end: Store, start: Option<int>, limit: nat, pages: seq<Page>, m: Message)
    returns (k: nat)
    requires Paged(stores, m.groupId, start, limit, pages)
    requires (forall s :: s in stores ==> SeenBefore(s, end)) && OrdersAgree(end)
    requires m.id in end.messages && end.messages[m.id] == m && m.id in stores[|stores| - 1].messages
    requires Above(start, OrderOf(m)) && !Shows(Concat(pages), m.id)
    ensures k < |stores| && Overtaken(stores[k], m.id, m.groupId, OrderOf(m))
  {
    ShownIff(stores, end, m.groupId, start, limit, pages, m);
    k := NotInTimeIsOvertaken(stores, end, start, limit, pages, m);
  }

  /** A request for one message, right before the overtaken one, leads past it. */
  lemma OvertakenIsPassed(s: Store, id: Uuid, group: string, order: int, page: Page)
    requires Keyed(s) && Overtaken(s, id, group, order) && IsAnswer(s, group, Some(order - 1), None, 1, page)
    ensures page.hasNext && page.messages != [] && order <= LastOrder(page) && !Shows(page.messages, id)
  {
    AnswerMeans(s, group, Some(order - 1), None, 1, page);
    OnePage(s, group, Some(order - 1), 1, page);
    var i, j :| i != j && IsLater(s, group, order, i) && IsLater(s, group, order, j);
    assert i in MatchingIds(s, group, Some(order - 1), None) && j in MatchingIds(s, group, Some(order - 1), None);
    assert s.messages[i].id == i && s.messages[j].id == j;
    assert s.messages[i] !in page.messages || s.messages[j] !in page.messages;
  }

  /** So a client that asks once while the message is overtaken, and then goes on when it is
      stored, never sees it. */
  lemma OvertakenCanBeMissed(s: Store, end: Store, m: Message) returns (stores: seq<Store>, pages: seq<Page>)
    requires Consistent(s) && Consistent(end) && SeenBefore(s, end)
    requires m.id in end.messages && end.messages[m.id] == m && Overtaken(s, m.id, m.groupId, OrderOf(m))
    ensures Paged(stores, m.groupId, Some(OrderOf(m) - 1), 1, pages) && !Shows(Concat(pages), m.id)
    ensures |stores| > 1 && stores[0] == s && forall k :: 0 < k < |stores| ==> stores[k] == end
  {
    var page := AnswerExists(s, m.groupId, Some(OrderOf(m) - 1), 1);
    OvertakenIsPassed(s, m.id, m.groupId, OrderOf(m), page);
    var laterStores, laterPages := PagingEnds(end, m.groupId, Some(LastOrder(page)), 1);
    stores, pages := [s] + laterStores, [page] + laterPages;
    PageThen(s, m.groupId, Some(OrderOf(m) - 1), 1, page, laterStores, laterPages);
    forall k | 0 < k < |stores|
      ensures stores[k] == end
    {
      assert stores[k] == laterStores[k - 1] && laterStores[k - 1] in laterStores;
    }
    ShowsConcat(page.messages, Concat(laterPages), m.id);
    if Shows(Concat(laterPages), m.id) {
      SeenItself(end);
      ShownAbove(laterStores, end, m.groupId, Some(LastOrder(page)), 1, laterPages, m);
      assert false;
    }
  }

  lemma SeenItself(s: Store)
    requires Keyed(s)
    ensures SeenBefore(s, s)
  {
  }

  // ---- In a run ----

  /** A client that pages forward at these moments is done, and was not shown a message that was
      there at its last request and lay after its starting point. */
  ghost predicate Misses(states: seq<State>, acts: seq<Action>, m: Message, times: seq<nat>, start: Option<int>,
                         limit: nat, pages: seq<Page>)
    requires |states| == |acts| + 1
  {
    && Moments(acts, times)
    && m.id in states[times[|times| - 1]].store.messages
    && Above(start, OrderOf(m))
    && Paged(StoresAt(states, times), m.groupId, start, limit, pages)
    && !Shows(Concat(pages), m.id)
  }

  ghost predicate CanBeMissed(states: seq<State>, acts: seq<Action>, m: Message)
    requires |states| == |acts| + 1
  {
    exists times, start, limit, pages :: Misses(states, acts, m, times, start, limit, pages)
  }

  /** At some moment before the message is stored, two later ones of its group are. */
  ghost predicate IsOvertaken(states: seq<State>, m: Message) {
    exists k: nat {:trigger states[k]} :: k < |states| && Overtaken(states[k].store, m.id, m.groupId, OrderOf(m))
  }

  lemma SeenAtEnd(states: seq<State>, acts: seq<Action>, k: nat)
    requires Run(states, acts) && k <= |acts|
    ensures SeenBefore(states[k].store, states[|acts|].store) && Consistent(states[k].store)
  {
    RunIsConsistent(states, acts, k);
    IdentityIsStable(states, acts, k, |acts|);
  }

  lemma MissedInRun(states: seq<State>, acts: seq<Action>, m: Message, times: seq<nat>, start: Option<int>, limit: nat,
                    pages: seq<Page>)
    requires Run(states, acts) && m.id in states[|acts|].store.messages && states[|acts|].store.messages[m.id] == m
    requires Misses(states, acts, m, times, start, limit, pages)
    ensures IsOvertaken(states, m)
  {
    var stores, end := StoresAt(states, times), states[|acts|].store;
    forall s | s in stores
      ensures SeenBefore(s, end)
    {
      var k :| 0 <= k < |times| && stores[k] == s;
      SeenAtEnd(states, acts, times[k]);
    }
    assert OrdersAgree(end) by { SeenAtEnd(states, acts, |acts|); }
    var k := MissedIsOvertaken(stores, end, start, limit, pages, m);
    assert Overtaken(states[times[k]].store, m.id, m.groupId, OrderOf(m));
  }

  /** One request at moment `k`, and the others at moment `last`. */
  lemma OnceThen(states: seq<State>, acts: seq<Action>, stores: seq<Store>, k: nat) returns (times: seq<nat>)
    requires |states| == |acts| + 1 && k <= |acts| && |stores| > 1 && stores[0] == states[k].store
    requires forall i :: 0 < i < |stores| ==> stores[i] == states[|acts|].store
    ensures Moments(acts, times) && times[|times| - 1] == |acts|
    ensures StoresAt(states, times) == stores
  {
    times := seq(|stores|, i => if i == 0 then k else |acts|);
  }

  lemma CourseMisses(states: seq<State>, acts: seq<Action>, m: Message, k: nat, stores: seq<Store>, pages: seq<Page>,
                     start: Option<int>)
    requires |states| == |acts| + 1 && k <= |acts| && m.id in states[|acts|].store.messages && Above(start, OrderOf(m))
    requires |stores| > 1 && stores[0] == states[k].store
    requires forall i :: 0 < i < |stores| ==> stores[i] == states[|acts|].store
    requires Paged(stores, m.groupId, start, 1, pages) && !Shows(Concat(pages), m.id)
    ensures CanBeMissed(states, acts, m)
  {
    var times := OnceThen(states, acts, stores, k);
    assert Misses(states, acts, m, times, start, 1, pages);
  }

  lemma OvertakenInRun(states: seq<State>, acts: seq<Action>, m: Message, k: nat)
    requires Run(states, acts) && m.id in states[|acts|].store.messages && states[|acts|].store.messages[m.id] == m
    requires k <= |acts| && Overtaken(states[k].store, m.id, m.groupId, OrderOf(m))
    ensures CanBeMissed(states, acts, m)
  {
    SeenAtEnd(states, acts, k);
    SeenAtEnd(states, acts, |acts|);
    var stores, pages := OvertakenCanBeMissed(states[k].store, states[|acts|].store, m);
    CourseMisses(states, acts, m, k, stores, pages, Some(OrderOf(m) - 1));
  }

  /** The exact condition, on the run alone: some client can miss a stored message if and only if
      at some moment before it was stored two later messages of its group already were. */
  lemma MissedIff(states: seq<State>, acts: seq<Action>, m: Message)
    requires Run(states, acts) && m.id in states[|acts|].store.messages && states[|acts|].store.messages[m.id] == m
    ensures CanBeMissed(states, acts, m) <==> IsOvertaken(states, m)
  {
    if CanBeMissed(states, acts, m) {
      var times, start, limit, pages :| Misses(states, acts, m, times, start, limit, pages);
      MissedInRun(states, acts, m, times, start, limit, pages);
    }
    if IsOvertaken(states, m) {
      var k: nat :| k < |states| && Overtaken(states[k].store, m.id, m.groupId, OrderOf(m));
      OvertakenInRun(states, acts, m, k);
    }
  }
}
