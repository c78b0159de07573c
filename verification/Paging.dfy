/** Forward paging by a client that repeats the list request with the last order received. */
module Paging {
  import opened Wrappers
  import opened Messages
  import opened Stores
  import opened RelayInvariants

  const DEFAULT_PAGE_LIMIT: nat := 50
  const MAX_PAGE_LIMIT: nat := 100

  /** `limit.unwrap_or(50).min(100)` */
  function PageLimit(limit: Option<nat>): nat {
    match limit
    case None => DEFAULT_PAGE_LIMIT
    case Some(n) => Min(n, MAX_PAGE_LIMIT)
  }

  datatype Page = Page(messages: seq<Message>, hasNext: bool)

  /** The handler asks the store for one message more than it returns. */
  function ToPage(found: seq<Message>, limit: nat): Page {
    Page(Truncate(found, limit), |found| > limit)
  }

  ghost predicate IsAnswer(s: Store, group: string, after: Option<int>, before: Option<int>, limit: nat, page: Page) {
    exists found :: IsPage(s, group, after, before, limit + 1, found) && page == ToPage(found, limit)
  }

  /** One message more than fits: what is shown is itself a page, and the last message is not shown. */
  lemma ShownBeforeExtra(s: Store, group: string, after: Option<int>, before: Option<int>, limit: nat,
                         found: seq<Message>)
    requires IsPage(s, group, after, before, limit + 1, found) && |found| == limit + 1
    ensures IsPage(s, group, after, before, limit, found[..limit])
    ensures found[limit].id in MatchingIds(s, group, after, before) && found[limit] !in found[..limit]
  {
    var shown, extra := found[..limit], found[limit];
    assert found == shown + [extra] && extra in found;
    forall m | m in shown
      ensures m in found && OrderOf(m) < OrderOf(extra)
    {
      var i :| 0 <= i < limit && found[i] == m;
    }
    forall id | id in MatchingIds(s, group, after, before) && s.messages[id] !in shown
      ensures forall m :: m in shown ==> OrderOf(m) < OrderOf(s.messages[id])
    {
      assert s.messages[id] == extra || s.messages[id] !in found;
    }
  }

  /** The extra message decides `hasNext` exactly: there is more if and only if some matching
      message was left out. */
  lemma AnswerMeans(s: Store, group: string, after: Option<int>, before: Option<int>, limit: nat, page: Page)
    requires IsAnswer(s, group, after, before, limit, page)
    ensures IsPage(s, group, after, before, limit, page.messages)
    ensures page.hasNext ==> |page.messages| == limit
    ensures page.hasNext <==>
            exists id :: id in MatchingIds(s, group, after, before) && s.messages[id] !in page.messages
  {
    var found: seq<Message> :| IsPage(s, group, after, before, limit + 1, found) && page == ToPage(found, limit);
    if |found| > limit {
      ShownBeforeExtra(s, group, after, before, limit, found);
      assert found[limit] in found;
      assert s.messages[found[limit].id] !in page.messages;
    }
  }

  // ---- A client paging forward ----

  function LastOrder(page: Page): int
    requires page.messages != []
  {
    OrderOf(page.messages[|page.messages| - 1])
  }

  /** Where a client goes on: after the last order received, or where it was if nothing came. */
  function NextCursor(cursor: Option<int>, page: Page): Option<int> {
    if page.messages == [] then cursor else Some(LastOrder(page))
  }

  /** The requests of a client so far: `stores[k]` is what request `k` sees, and each request goes
      on from the one before, whether or not that announced more. */
  ghost predicate Polled(stores: seq<Store>, group: string, start: Option<int>, limit: nat, pages: seq<Page>)
    decreases |pages|
  {
    && |stores| == |pages|
    && (pages != [] ==>
          && IsAnswer(stores[0], group, start, None, limit, pages[0])
          && Polled(stores[1..], group, NextCursor(start, pages[0]), limit, pages[1..]))
  }

  function FinalCursor(start: Option<int>, pages: seq<Page>): Option<int>
    decreases |pages|
  {
    if pages == [] then start else FinalCursor(NextCursor(start, pages[0]), pages[1..])
  }

  /** Request after request until there is no more: `stores[k]` is what request `k` sees, and
      each request after the first carries the last order received. */
  ghost predicate Paged(stores: seq<Store>, group: string, start: Option<int>, limit: nat, pages: seq<Page>)
    decreases |pages|
  {
    && |stores| == |pages| >= 1
    && IsAnswer(stores[0], group, start, None, limit, pages[0])
    && if |pages| == 1 then !pages[0].hasNext
       else
         && pages[0].hasNext && pages[0].messages != []
         && Paged(stores[1..], group, Some(LastOrder(pages[0])), limit, pages[1..])
  }

  function Concat(pages: seq<Page>): seq<Message> {
    if pages == [] then [] else pages[0].messages + Concat(pages[1..])
  }

  predicate Above(start: Option<int>, order: int) {
    start.Some? ==> start.value < order
  }

  /** One answer, without the other requests: bounds, and what it does not leave out. */
  lemma OnePage(s: Store, group: string, start: Option<int>, limit: nat, page: Page)
    requires IsAnswer(s, group, start, None, limit, page)
    ensures Ascending(page.messages) && AllStored(s, page.messages)
    ensures forall m :: m in page.messages ==> m.groupId == group && Above(start, OrderOf(m))
    ensures page.messages != [] ==> forall m :: m in page.messages ==> OrderOf(m) <= LastOrder(page)
    ensures page.messages != [] ==> Above(start, LastOrder(page))
    ensures forall id :: id in s.messages && s.messages[id].groupId == group && Above(start, OrderOf(s.messages[id]))
                         && (!page.hasNext || (page.messages != [] && OrderOf(s.messages[id]) <= LastOrder(page)))
                         ==> s.messages[id] in page.messages
  {
    AnswerMeans(s, group, start, None, limit, page);
    var ms := page.messages;
    if ms != [] {
      assert ms[|ms| - 1] in ms;
      forall m | m in ms
        ensures OrderOf(m) <= LastOrder(page)
      {
        var i :| 0 <= i < |ms| && ms[i] == m;
        assert i < |ms| - 1 ==> OrderOf(ms[i]) < OrderOf(ms[|ms| - 1]);
      }
    }
    forall id | id in MatchingIds(s, group, start, None) && s.messages[id] !in ms
      ensures page.hasNext && (ms != [] ==> LastOrder(page) < OrderOf(s.messages[id]))
    {
    }
  }

  lemma AscendingConcat(a: seq<Message>, b: seq<Message>)
    requires Ascending(a) && Ascending(b)
    requires forall x, y :: x in a && y in b ==> OrderOf(x) < OrderOf(y)
    ensures Ascending(a + b)
  {
    forall i, j | 0 <= i < j < |a + b|
      ensures OrderOf((a + b)[i]) < OrderOf((a + b)[j])
    {
      if i < |a| <= j {
        assert a[i] in a && b[j - |a|] in b;
      }
    }
  }

  /** A client that stops at the first page without a next one is one of these. */
  lemma {:induction false} PagedIsPolled(stores: seq<Store>, group: string, start: Option<int>, limit: nat,
                                         pages: seq<Page>)
    requires Paged(stores, group, start, limit, pages)
    ensures Polled(stores, group, start, limit, pages)
    decreases |pages|
  {
    if |pages| > 1 {
      PagedIsPolled(stores[1..], group, Some(LastOrder(pages[0])), limit, pages[1..]);
    }
  }

  /** In every interleaving the pages received so far, read one after the other, ascend strictly,
      however often a client asks again: no message and no order appears twice. */
  lemma {:induction false} PagesAscend(stores: seq<Store>, group: string, start: Option<int>, limit: nat,
                                       pages: seq<Page>)
    requires Polled(stores, group, start, limit, pages)
    ensures Ascending(Concat(pages))
    ensures forall m :: m in Concat(pages) ==> m.groupId == group && Above(start, OrderOf(m))
    decreases |pages|
  {
    if pages != [] {
      OnePage(stores[0], group, start, limit, pages[0]);
      PagesAscend(stores[1..], group, NextCursor(start, pages[0]), limit, pages[1..]);
      AscendingConcat(pages[0].messages, Concat(pages[1..]));
    }
  }

  // ---- Completeness under concurrent writes ----

  /** The message was in the store at the request whose page runs past its order. */
  predicate CommittedInTime(stores: seq<Store>, pages: seq<Page>, m: Message)
    requires |stores| == |pages|
    decreases |pages|
  {
    if pages == [] then false
    else if |pages| == 1 || pages[0].messages == [] || OrderOf(m) <= LastOrder(pages[0]) then m.id in stores[0].messages
    else CommittedInTime(stores[1..], pages[1..], m)
  }

  predicate Shows(ms: seq<Message>, id: Uuid) {
    exists m :: m in ms && m.id == id
  }

  /** What one request saw is still so in the end. */
  ghost predicate SeenBefore(s: Store, end: Store) {
    Keyed(s) && Keeps(s.messages, end.messages)
  }

  lemma OnePageShows(s: Store, end: Store, group: string, start: Option<int>, limit: nat, page: Page, m: Message)
    requires IsAnswer(s, group, start, None, limit, page) && SeenBefore(s, end)
    requires m.id in end.messages && end.messages[m.id] == m && m.groupId == group && Above(start, OrderOf(m))
    ensures Shows(page.messages, m.id) ==> m.id in s.messages
    ensures Shows(page.messages, m.id) && page.messages != [] ==> OrderOf(m) <= LastOrder(page)
    ensures m.id in s.messages && (!page.hasNext || (page.messages != [] && OrderOf(m) <= LastOrder(page)))
            ==> Shows(page.messages, m.id)
  {
    OnePage(s, group, start, limit, page);
    if m.id in s.messages {
      var x := s.messages[m.id];
      assert x.id == m.id && SameIdentity(x, m);
    }
  }

  lemma ShowsConcat(a: seq<Message>, b: seq<Message>, id: Uuid)
    ensures Shows(a + b, id) <==> Shows(a, id) || Shows(b, id)
  {
    assert forall m :: m in a + b <==> m in a || m in b;
  }

  /** A later request shows nothing at or below its cursor. */
  lemma ShownAbove(stores: seq<Store>, end: Store, group: string, start: Option<int>, limit: nat, pages: seq<Page>,
                   m: Message)
    requires Paged(stores, group, start, limit, pages)
    requires forall s :: s in stores ==> SeenBefore(s, end)
    requires m.id in end.messages && end.messages[m.id] == m && Shows(Concat(pages), m.id)
    ensures Above(start, OrderOf(m))
  {
    PagedIsPolled(stores, group, start, limit, pages);
    PagesAscend(stores, group, start, limit, pages);
    var x :| x in Concat(pages) && x.id == m.id;
    ShownIdentity(stores, end, group, start, limit, pages, x);
  }

  lemma {:induction false} ShownIdentity(stores: seq<Store>, end: Store, group: string, start: Option<int>, limit: nat,
                                         pages: seq<Page>, x: Message)
    requires Paged(stores, group, start, limit, pages)
    requires forall s :: s in stores ==> SeenBefore(s, end)
    requires x in Concat(pages)
    ensures x.id in end.messages && SameIdentity(x, end.messages[x.id])
    decreases |pages|
  {
    assert Concat(pages) == pages[0].messages + Concat(pages[1..]);
    if x in pages[0].messages {
      OnePage(stores[0], group, start, limit, pages[0]);
      assert SeenBefore(stores[0], end);
    } else {
      assert x in Concat(pages[1..]);
      assert forall s :: s in stores[1..] ==> s in stores;
      ShownIdentity(stores[1..], end, group, Some(LastOrder(pages[0])), limit, pages[1..], x);
    }
  }

  /** Under concurrent writes, a message that is there in the end is shown exactly when it was
      committed by the request whose page runs past its order. */
  lemma {:induction false} ShownIff(stores: seq<Store>, end: Store, group: string, start: Option<int>, limit: nat,
                                    pages: seq<Page>, m: Message)
    requires Paged(stores, group, start, limit, pages)
    requires forall s :: s in stores ==> SeenBefore(s, end)
    requires m.id in end.messages && end.messages[m.id] == m && m.groupId == group && Above(start, OrderOf(m))
    ensures Shows(Concat(pages), m.id) <==> CommittedInTime(stores, pages, m)
    decreases |pages|
  {
    OnePageShows(stores[0], end, group, start, limit, pages[0], m);
    ShowsConcat(pages[0].messages, Concat(pages[1..]), m.id);
    if |pages| > 1 {
      assert forall s :: s in stores[1..] ==> s in stores;
      if OrderOf(m) <= LastOrder(pages[0]) {
        if Shows(Concat(pages[1..]), m.id) {
          ShownAbove(stores[1..], end, group, Some(LastOrder(pages[0])), limit, pages[1..], m);
          assert false;
        }
      } else {
        ShownIff(stores[1..], end, group, Some(LastOrder(pages[0])), limit, pages[1..], m);
      }
    }
  }

  /** What `after` has gained in the group comes after all that `before` had. */
  ghost predicate GainsAtEnd(before: map<Uuid, Message>, after: map<Uuid, Message>, group: string) {
    forall i, j :: i in before && before[i].groupId == group
                   && j in after && j !in before && after[j].groupId == group
                   ==> OrderOf(before[i]) < OrderOf(after[j])
  }

  lemma {:induction false} InOrderIsInTime(stores: seq<Store>, end: Store, group: string, start: Option<int>,
                                           limit: nat,
                                           pages: seq<Page>, m: Message)
    requires Paged(stores, group, start, limit, pages)
    requires forall s :: s in stores ==> GainsAtEnd(s.messages, end.messages, group)
    requires m.id in stores[|stores| - 1].messages
    requires m.id in end.messages && end.messages[m.id] == m && m.groupId == group
    ensures CommittedInTime(stores, pages, m)
    decreases |pages|
  {
    if |pages| > 1 {
      if OrderOf(m) <= LastOrder(pages[0]) {
        OnePage(stores[0], group, start, limit, pages[0]);
        assert pages[0].messages[|pages[0].messages| - 1] in pages[0].messages;
        assert GainsAtEnd(stores[0].messages, end.messages, group);
      } else {
        assert forall s :: s in stores[1..] ==> s in stores;
        assert stores[1..][|stores| - 2] == stores[|stores| - 1];
        InOrderIsInTime(stores[1..], end, group, Some(LastOrder(pages[0])), limit, pages[1..], m);
      }
    }
  }

  /** When creates commit in the order they reserved, paging misses nothing that was committed
      by its last request. */
  lemma InOrderPagingIsComplete(stores: seq<Store>, end: Store, group: string, start: Option<int>, limit: nat,
                                pages: seq<Page>, id: Uuid)
    requires Paged(stores, group, start, limit, pages)
    requires forall s :: s in stores ==> SeenBefore(s, end) && GainsAtEnd(s.messages, end.messages, group)
    requires id in stores[|stores| - 1].messages
    requires stores[|stores| - 1].messages[id].groupId == group
    requires Above(start, OrderOf(stores[|stores| - 1].messages[id]))
    ensures Shows(Concat(pages), id)
  {
    var last := stores[|stores| - 1];
    assert last in stores && SeenBefore(last, end);
    assert SameIdentity(last.messages[id], end.messages[id]) && last.messages[id].id == id;
    var m := end.messages[id];
    InOrderIsInTime(stores, end, group, start, limit, pages, m);
    ShownIff(stores, end, group, start, limit, pages, m);
  }

  // ---- A store that does not change ----

  lemma {:induction false} FixedStoreMembers(s: Store, stores: seq<Store>, group: string, start: Option<int>,
                                             limit: nat,
                                             pages: seq<Page>, m: Message)
    requires Paged(stores, group, start, limit, pages) && forall x :: x in stores ==> x == s
    ensures m in Concat(pages) <==>
            m.id in s.messages && s.messages[m.id] == m && m.groupId == group && Above(start, OrderOf(m))
    decreases |pages|
  {
    assert stores[0] in stores;
    OnePage(s, group, start, limit, pages[0]);
    if |pages| > 1 {
      assert forall x :: x in stores[1..] ==> x in stores;
      FixedStoreMembers(s, stores[1..], group, Some(LastOrder(pages[0])), limit, pages[1..], m);
    } else {
      assert Concat(pages) == pages[0].messages;
    }
  }

  lemma OnePageSize(s: Store, group: string, start: Option<int>, limit: nat, page: Page)
    requires IsAnswer(s, group, start, None, limit, page)
    ensures |page.messages| <= limit && (page.hasNext ==> |page.messages| == limit)
  {
  }

  lemma {:induction false} PagedSize(stores: seq<Store>, group: string, start: Option<int>, limit: nat,
                                     pages: seq<Page>)
    requires Paged(stores, group, start, limit, pages)
    ensures (|pages| - 1) * limit <= |Concat(pages)| <= |pages| * limit
    decreases |pages|
  {
    OnePageSize(stores[0], group, start, limit, pages[0]);
    if |pages| > 1 {
      PagedSize(stores[1..], group, Some(LastOrder(pages[0])), limit, pages[1..]);
      assert |Concat(pages)| == limit + |Concat(pages[1..])|;
      OneMore(|pages| - 1, limit);
      OneMore(|pages| - 2, limit);
    } else {
      assert Concat(pages) == pages[0].messages;
    }
  }

  lemma OneMore(n: nat, limit: nat)
    ensures (n + 1) * limit == n * limit + limit
  {
  }

  /** An ascending sequence of clones has as many members as ids. */
  lemma SameSize(s: Store, ids: set<Uuid>, ms: seq<Message>)
    requires Keyed(s) && Ascending(ms) && ids <= s.messages.Keys
    requires forall m :: m in ms <==> m.id in ids && s.messages[m.id] == m
    ensures |ms| == |ids|
  {
    forall i, j | 0 <= i < j < |ms|
      ensures ms[i].id != ms[j].id
    {
      assert ms[i] in ms && ms[j] in ms && OrderOf(ms[i]) < OrderOf(ms[j]);
    }
    IdsCount(ms);
    assert Ids(ms) == ids by {
      forall id | id in ids
        ensures id in Ids(ms)
      {
        assert s.messages[id].id == id && s.messages[id] in ms;
      }
    }
  }

  /** On a fixed store the pages together are exactly the later messages of the group, once each
      and in ascending order; a limit of at least 1 bounds how many requests that takes. */
  lemma FixedStorePaging(s: Store, stores: seq<Store>, group: string, start: Option<int>, limit: nat, pages: seq<Page>)
    requires Keyed(s) && Paged(stores, group, start, limit, pages) && forall x :: x in stores ==> x == s
    ensures Ascending(Concat(pages))
    ensures forall m :: m in Concat(pages) <==> m.id in MatchingIds(s, group, start, None) && s.messages[m.id] == m
    ensures |Concat(pages)| == |MatchingIds(s, group, start, None)|
    ensures (|pages| - 1) * limit <= |MatchingIds(s, group, start, None)| <= |pages| * limit
  {
    PagedIsPolled(stores, group, start, limit, pages);
    PagesAscend(stores, group, start, limit, pages);
    forall m
      ensures m in Concat(pages) <==> m.id in MatchingIds(s, group, start, None) && s.messages[m.id] == m
    {
      FixedStoreMembers(s, stores, group, start, limit, pages, m);
    }
    PagedSize(stores, group, start, limit, pages);
    SameSize(s, MatchingIds(s, group, start, None), Concat(pages));
  }

  // ---- The client's loop ends ----

  lemma {:induction false} SomeWalk(s: Store, ids: set<Uuid>) returns (walk: seq<Uuid>)
    ensures NoRepeats(walk) && forall id :: id in walk <==> id in ids
    decreases |ids|
  {
    walk := [];
    if ids != {} {
      var id :| id in ids;
      var rest := SomeWalk(s, ids - {id});
      walk := rest + [id];
    }
  }

  lemma AnswerExists(s: Store, group: string, start: Option<int>, limit: nat) returns (page: Page)
    requires Consistent(s)
    ensures IsAnswer(s, group, start, None, limit, page)
  {
    var walk := SomeWalk(s, s.messages.Keys);
    QueryIsPage(s, walk, group, start, None, limit + 1);
    var found := Truncate(SortByOrder(Select(s, walk, MatchingIds(s, group, start, None))), limit + 1);
    page := ToPage(found, limit);
  }

  lemma FewerLeft(s: Store, group: string, start: Option<int>, limit: nat, page: Page)
    requires Keyed(s) && IsAnswer(s, group, start, None, limit, page) && page.messages != []
    ensures |MatchingIds(s, group, Some(LastOrder(page)), None)| < |MatchingIds(s, group, start, None)|
  {
    OnePage(s, group, start, limit, page);
    var last := page.messages[|page.messages| - 1];
    assert last in page.messages;
    var before, after := MatchingIds(s, group, start, None), MatchingIds(s, group, Some(LastOrder(page)), None);
    assert last.id in before && last.id !in after;
    assert after <= before - {last.id};
    SubsetIsSmaller(after, before - {last.id});
  }

  lemma PageThen(s: Store, group: string, start: Option<int>, limit: nat, page: Page, stores: seq<Store>,
                 pages: seq<Page>)
    requires IsAnswer(s, group, start, None, limit, page) && page.hasNext && page.messages != []
    requires Paged(stores, group, Some(LastOrder(page)), limit, pages)
    ensures Paged([s] + stores, group, start, limit, [page] + pages)
  {
    assert ([s] + stores)[1..] == stores && ([page] + pages)[1..] == pages;
  }

  /** On a fixed store with a limit of at least 1, the client's loop comes to an end. */
  lemma {:induction false} PagingEnds(s: Store, group: string, start: Option<int>, limit: nat)
    returns (stores: seq<Store>, pages: seq<Page>)
    requires Consistent(s) && limit >= 1
    ensures Paged(stores, group, start, limit, pages) && forall x :: x in stores ==> x == s
    decreases |MatchingIds(s, group, start, None)|
  {
    var page := AnswerExists(s, group, start, limit);
    stores, pages := [s], [page];
    if page.hasNext {
      OnePageSize(s, group, start, limit, page);
      FewerLeft(s, group, start, limit, page);
      var laterStores, laterPages := PagingEnds(s, group, Some(LastOrder(page)), limit);
      stores, pages := [s] + laterStores, [page] + laterPages;
      PageThen(s, group, start, limit, page, laterStores, laterPages);
    }
  }

  ghost predicate PagedOn(s: Store, group: string, start: Option<int>, limit: nat, stores: seq<Store>,
                          pages: seq<Page>)
  {
    Paged(stores, group, start, limit, pages) && forall x :: x in stores ==> x == s
  }

  lemma EmptyLimitEndsIff(s: Store, group: string, start: Option<int>, page: Page)
    requires IsAnswer(s, group, start, None, 0, page)
    ensures page.messages == [] && (page.hasNext <==> MatchingIds(s, group, start, None) != {})
  {
    AnswerMeans(s, group, start, None, 0, page);
    if MatchingIds(s, group, start, None) != {} {
      var id :| id in MatchingIds(s, group, start, None);
      assert s.messages[id] !in page.messages;
    }
  }

  /** The loop ends on a fixed store if and only if the limit is at least 1 or there is nothing to
      show. */
  lemma PagingEndsIff(s: Store, group: string, start: Option<int>, limit: nat)
    requires Consistent(s)
    ensures (exists stores, pages :: PagedOn(s, group, start, limit, stores, pages))
            <==> limit >= 1 || MatchingIds(s, group, start, None) == {}
  {
    if limit >= 1 {
      var stores, pages := PagingEnds(s, group, start, limit);
      assert PagedOn(s, group, start, limit, stores, pages);
    } else {
      if MatchingIds(s, group, start, None) == {} {
        var page := AnswerExists(s, group, start, 0);
        EmptyLimitEndsIff(s, group, start, page);
        assert PagedOn(s, group, start, 0, [s], [page]);
      }
      forall stores: seq<Store>, pages: seq<Page> | PagedOn(s, group, start, 0, stores, pages)
        ensures MatchingIds(s, group, start, None) == {}
      {
        assert stores[0] in stores;
        EmptyLimitEndsIff(s, group, start, pages[0]);
      }
    }
  }

  lemma AnswerIsUnique(s: Store, group: string, start: Option<int>, limit: nat, page: Page, page': Page)
    requires OrdersAgree(s)
    requires IsAnswer(s, group, start, None, limit, page) && IsAnswer(s, group, start, None, limit, page')
    ensures page == page'
  {
    var found :| IsPage(s, group, start, None, limit + 1, found) && page == ToPage(found, limit);
    var found' :| IsPage(s, group, start, None, limit + 1, found') && page' == ToPage(found', limit);
    PageIsUnique(s, group, start, None, limit + 1, found, found');
  }

  lemma FixedTail(s: Store, stores: seq<Store>)
    requires stores != [] && forall x :: x in stores ==> x == s
    ensures stores[0] == s && forall x :: x in stores[1..] ==> x == s
  {
    assert stores[0] in stores;
    assert forall x :: x in stores[1..] ==> x in stores;
  }

  /** And it is the only course the loop can take, whatever order the map is walked in. */
  lemma {:induction false} PagingIsUnique(s: Store, group: string, start: Option<int>, limit: nat,
                                          stores: seq<Store>, pages: seq<Page>, stores': seq<Store>, pages': seq<Page>)
    requires OrdersAgree(s)
    requires Paged(stores, group, start, limit, pages) && forall x :: x in stores ==> x == s
    requires Paged(stores', group, start, limit, pages') && forall x :: x in stores' ==> x == s
    ensures pages == pages'
    decreases |pages|
  {
    FixedTail(s, stores);
    FixedTail(s, stores');
    AnswerIsUnique(s, group, start, limit, pages[0], pages'[0]);
    if |pages| > 1 {
      PagingIsUnique(s, group, Some(LastOrder(pages[0])), limit, stores[1..], pages[1..], stores'[1..], pages'[1..]);
      assert pages == [pages[0]] + pages[1..] && pages' == [pages'[0]] + pages'[1..];
    }
  }
}
