/** What the group query returns, against what its documentation says: that without bounds it
    returns the most recent messages, and that the lower bound takes precedence over the upper. */
module Queries {
  import opened Wrappers
  import opened Messages
  import opened Stores

  lemma PageIds(s: Store, group: string, after: Option<int>, before: Option<int>, limit: nat,
                page: seq<Message>)
    requires Keyed(s) && IsPage(s, group, after, before, limit, page)
    ensures Ids(page) <= MatchingIds(s, group, after, before) && |Ids(page)| == |page|
    ensures forall id :: id in MatchingIds(s, group, after, before) ==> (id in Ids(page) <==> s.messages[id] in page)
  {
    forall i, j | 0 <= i < j < |page|
      ensures page[i].id != page[j].id
    {
      assert page[i] in page && page[j] in page && OrderOf(page[i]) < OrderOf(page[j]);
    }
    IdsCount(page);
    forall id | id in Ids(page)
      ensures id in MatchingIds(s, group, after, before) && s.messages[id] in page
    {
      var m :| m in page && m.id == id;
    }
  }

  /** A page is as long as the limit and the matching messages allow. */
  lemma PageSize(s: Store, group: string, after: Option<int>, before: Option<int>, limit: nat, page: seq<Message>)
    requires Keyed(s) && IsPage(s, group, after, before, limit, page)
    ensures |page| == Min(limit, |MatchingIds(s, group, after, before)|)
  {
    var matching := MatchingIds(s, group, after, before);
    PageIds(s, group, after, before, limit, page);
    SubsetIsSmaller(Ids(page), matching);
    if |page| < limit {
      assert matching == Ids(page);
    }
  }

  /** Nothing that is shown lies outside the bounds asked for, and nothing within them is left out
      while there is room or before something that is shown. */
  lemma PageBounds(s: Store, group: string, after: Option<int>, before: Option<int>, limit: nat, page: seq<Message>)
    requires IsPage(s, group, after, before, limit, page)
    ensures forall m :: m in page ==> m.groupId == group
    ensures after.Some? ==> forall m :: m in page ==> after.value < OrderOf(m)
    ensures before.Some? ==> forall m :: m in page ==> OrderOf(m) < before.value
    ensures forall id ::
              && id in s.messages && s.messages[id].groupId == group
              && (after.Some? ==> after.value < OrderOf(s.messages[id]))
              && (before.Some? ==> OrderOf(s.messages[id]) < before.value)
              && (|page| < limit || exists m :: m in page && OrderOf(s.messages[id]) <= OrderOf(m))
              ==> s.messages[id] in page
  {
  }

  /** An upper bound alone leads back to the start of the group: everything shown is below it, and
      on a store in agreement the first message of all is shown if it is. */
  lemma UpperBoundAlone(s: Store, group: string, before: int, limit: nat, page: seq<Message>, id: Uuid)
    requires IsPage(s, group, None, Some(before), limit, page) && limit > 0
    requires id in s.messages && s.messages[id].groupId == group
    requires forall other :: other in s.messages && s.messages[other].groupId == group ==>
               OrderOf(s.messages[id]) <= OrderOf(s.messages[other])
    ensures forall m :: m in page ==> OrderOf(m) < before
    ensures s.messages[id] in page <==> OrderOf(s.messages[id]) < before
  {
    PageBounds(s, group, None, Some(before), limit, page);
    if OrderOf(s.messages[id]) < before && page != [] {
      assert page[0] in page;
    }
  }

  // ---- A query without bounds ----

  /** No message of the group that the page leaves out is newer than one it shows. */
  ghost predicate ShowsNewest(s: Store, group: string, page: seq<Message>) {
    forall id, m :: id in MatchingIds(s, group, None, None) && s.messages[id] !in page && m in page ==>
      OrderOf(s.messages[id]) <= OrderOf(m)
  }

  /** The exact condition: only when the whole group fits (or nothing was asked for). */
  lemma NewestIff(s: Store, group: string, limit: nat, page: seq<Message>)
    requires Consistent(s) && IsPage(s, group, None, None, limit, page)
    ensures ShowsNewest(s, group, page) <==> limit == 0 || |MatchingIds(s, group, None, None)| <= limit
  {
    var matching := MatchingIds(s, group, None, None);
    PageIds(s, group, None, None, limit, page);
    PageSize(s, group, None, None, limit, page);
    if |matching| <= limit {
      SameSizeSubset(Ids(page), matching);
    } else if limit > 0 {
      var id :| id in matching && id !in Ids(page) by {
        if matching <= Ids(page) {
          SubsetIsSmaller(matching, Ids(page));
        }
      }
      assert page[0] in page && OrderOf(page[0]) < OrderOf(s.messages[id]);
    }
  }

  lemma SameSizeSubset(a: set<Uuid>, b: set<Uuid>)
    requires a <= b && |a| == |b|
    ensures a == b
  {
    assert b == a + (b - a);
  }

  // ---- A query with two bounds ----

  /** The exact condition for the answer to two bounds to be the answer to the lower one alone:
      nothing lies at or above the upper bound, or enough lies between the two. */
  lemma AfterTakesPrecedenceIff(s: Store, group: string, after: int, before: int, limit: nat,
                                both: seq<Message>, afterOnly: seq<Message>)
    requires Consistent(s)
    requires IsPage(s, group, Some(after), Some(before), limit, both)
    requires IsPage(s, group, Some(after), None, limit, afterOnly)
    ensures both == afterOnly <==>
              || MatchingIds(s, group, Some(after), None) == MatchingIds(s, group, Some(after), Some(before))
              || limit <= |MatchingIds(s, group, Some(after), Some(before))|
  {
    var between, above := MatchingIds(s, group, Some(after), Some(before)), MatchingIds(s, group, Some(after), None);
    PageSize(s, group, Some(after), Some(before), limit, both);
    PageSize(s, group, Some(after), None, limit, afterOnly);
    if between == above {
      forall id | id in s.messages
        ensures Matches(s.messages[id], group, Some(after), Some(before)) <==>
            Matches(s.messages[id], group, Some(after), None)
      {
        assert id in between <==> id in above;
      }
      assert IsPage(s, group, Some(after), None, limit, both);
      PageIsUnique(s, group, Some(after), None, limit, both, afterOnly);
    } else if limit <= |between| {
      FullPageIgnoresBefore(s, group, after, before, limit, both);
      PageIsUnique(s, group, Some(after), None, limit, both, afterOnly);
    } else {
      SubsetIsSmaller(between, above);
      if |between| == |above| {
        SameSizeSubset(between, above);
      }
    }
  }

  lemma FullPageIgnoresBefore(s: Store, group: string, after: int, before: int, limit: nat, both: seq<Message>)
    requires IsPage(s, group, Some(after), Some(before), limit, both) && |both| == limit
    ensures IsPage(s, group, Some(after), None, limit, both)
  {
    forall id | id in s.messages && Matches(s.messages[id], group, Some(after), None) && s.messages[id] !in both
      ensures forall m :: m in both ==> OrderOf(m) < OrderOf(s.messages[id])
    {
    }
  }

  /** The same condition read off the answer. */
  lemma AfterTakesPrecedenceMeans(s: Store, group: string, after: int, before: int, limit: nat,
                                  both: seq<Message>, afterOnly: seq<Message>)
    requires Consistent(s)
    requires IsPage(s, group, Some(after), Some(before), limit, both)
    requires IsPage(s, group, Some(after), None, limit, afterOnly)
    ensures both == afterOnly <==> forall m :: m in afterOnly ==> OrderOf(m) < before
  {
    if forall m :: m in afterOnly ==> OrderOf(m) < before {
      assert IsPage(s, group, Some(after), Some(before), limit, afterOnly);
      PageIsUnique(s, group, Some(after), Some(before), limit, both, afterOnly);
    }
  }

  // ---- Where both claims fail ----

  /** The store after two creates in one group. */
  function TwoCreated(a: Message, b: Message): Store {
    CreateMessage(CreateMessage(EMPTY_STORE, a), b)
  }

  lemma OneIsStored(a: Message)
    ensures CreateMessage(EMPTY_STORE, a)
            == Store(map[a.id := WithOrder(a, 1)], map[a.groupId := 1], {a.content.nonce})
  {
  }

  lemma TwoAreStored(a: Message, b: Message)
    requires a.id != b.id && a.groupId == b.groupId && a.content.nonce != b.content.nonce
    ensures TwoCreated(a, b).messages == map[a.id := WithOrder(a, 1), b.id := WithOrder(b, 2)]
  {
    OneIsStored(a);
  }

  /** After any two creates in a group, a query without bounds for one message returns the older. */
  lemma OldestIsReturned(a: Message, b: Message)
    requires a.id != b.id && a.groupId == b.groupId && a.content.nonce != b.content.nonce
    ensures var s, page := TwoCreated(a, b), [WithOrder(a, 1)];
            IsPage(s, a.groupId, None, None, 1, page) && !ShowsNewest(s, a.groupId, page)
  {
    TwoAreStored(a, b);
    var s, page := TwoCreated(a, b), [WithOrder(a, 1)];
    assert s.messages[b.id] == WithOrder(b, 2) && s.messages[b.id] !in page;
    assert b.id in MatchingIds(s, a.groupId, None, None) && WithOrder(a, 1) in page;
  }

  /** After the same creates, the upper bound 2 hides the second message, which the lower bound
      alone would show. */
  lemma UpperBoundCounts(a: Message, b: Message)
    requires a.id != b.id && a.groupId == b.groupId && a.content.nonce != b.content.nonce
    ensures var s := TwoCreated(a, b);
            && IsPage(s, a.groupId, Some(0), Some(2), 2, [WithOrder(a, 1)])
            && IsPage(s, a.groupId, Some(0), None, 2, [WithOrder(a, 1), WithOrder(b, 2)])
  {
    TwoAreStored(a, b);
    var s := TwoCreated(a, b);
    var both := [WithOrder(a, 1), WithOrder(b, 2)];
    assert WithOrder(a, 1) in both && WithOrder(b, 2) in both;
    assert both[0] == WithOrder(a, 1) && both[1] == WithOrder(b, 2);
  }
}
