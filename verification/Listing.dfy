/** What a list response holds: the messages asked for, in order, as many as the limit allows. */
module Listing {
  import opened Wrappers
  import opened Messages
  import opened Stores
  import opened Queries
  import opened Auth
  import opened Requests
  import opened Paging
  import opened Handlers

  /** What the query asks for, without its limit. */
  predicate AsksFor(q: GetQuery, m: Message) {
    && Some(m.groupId) == q.groupId
    && (q.after.Some? ==> q.after.value < OrderOf(m))
    && (q.before.Some? ==> OrderOf(m) < q.before.value)
  }

  function AskedFor(s: Store, q: GetQuery): set<Uuid> {
    set id | id in s.messages && AsksFor(q, s.messages[id])
  }

  function LimitOf(q: GetQuery): nat {
    if q.limit.None? then 50 else if q.limit.value < 100 then q.limit.value else 100
  }

  ghost predicate Lists(ms: seq<MessageResponse>, id: Uuid) {
    exists i :: 0 <= i < |ms| && ms[i].messageId == id
  }

  lemma AskedForMatches(s: Store, q: GetQuery)
    requires q.groupId.Some?
    ensures AskedFor(s, q) == MatchingIds(s, q.groupId.value, q.after, q.before)
  {
    forall id | id in s.messages
      ensures AsksFor(q, s.messages[id]) <==> Matches(s.messages[id], q.groupId.value, q.after, q.before)
    {
    }
  }

  /** The page behind a list response. */
  lemma ListedPage(s: Store, ctx: AuthContext, q: GetQuery, ms: seq<MessageResponse>, hasNext: bool)
    returns (page: Page)
    requires Answers(s, ctx, q, Ok(List(ms, hasNext)))
    ensures q.groupId.Some? && IsAnswer(s, q.groupId.value, q.after, q.before, LimitOf(q), page)
    ensures page.hasNext == hasNext && |page.messages| == |ms|
    ensures forall i :: 0 <= i < |ms| ==> ms[i] == ToResponse(page.messages[i])
    ensures IsPage(s, q.groupId.value, q.after, q.before, LimitOf(q), page.messages)
  {
    var limit := PageLimit(q.limit);
    assert limit == LimitOf(q);
    page :| IsAnswer(s, q.groupId.value, q.after, q.before, limit, page)
            && List(ms, hasNext) == List(Responses(page.messages), page.hasNext);
    AnswerMeans(s, q.groupId.value, q.after, q.before, limit, page);
  }

  lemma ListsIff(s: Store, q: GetQuery, page: seq<Message>, ms: seq<MessageResponse>, id: Uuid)
    requires Keyed(s) && AllStored(s, page) && |ms| == |page|
    requires forall i :: 0 <= i < |ms| ==> ms[i] == ToResponse(page[i])
    requires id in s.messages
    ensures Lists(ms, id) <==> s.messages[id] in page
  {
    assert s.messages[id].id == id;
    if Lists(ms, id) {
      var i :| 0 <= i < |ms| && ms[i].messageId == id;
      assert page[i] in page && page[i].id == id;
    }
    if s.messages[id] in page {
      var i :| 0 <= i < |page| && page[i] == s.messages[id];
      assert ms[i].messageId == id;
    }
  }

  /** Every entry is the stored message of its id, asked for, under its own order. */
  lemma ListedIsAskedFor(s: Store, ctx: AuthContext, q: GetQuery, ms: seq<MessageResponse>, hasNext: bool, i: nat)
    requires Consistent(s) && Answers(s, ctx, q, Ok(List(ms, hasNext))) && i < |ms|
    ensures ms[i].messageId in AskedFor(s, q)
    ensures ms[i] == ToResponse(s.messages[ms[i].messageId])
    ensures s.messages[ms[i].messageId].order == Some(ms[i].order)
  {
    var page := ListedPage(s, ctx, q, ms, hasNext);
    assert page.messages[i] in page.messages;
    assert 1 <= OrderOf(s.messages[ms[i].messageId]);
  }

  /** Orders ascend, and there are as many entries as the limit and the messages asked for allow. */
  lemma ListAscends(s: Store, ctx: AuthContext, q: GetQuery, ms: seq<MessageResponse>, hasNext: bool)
    requires Consistent(s) && Answers(s, ctx, q, Ok(List(ms, hasNext)))
    ensures forall i, j :: 0 <= i < j < |ms| ==> ms[i].order < ms[j].order
    ensures |ms| == if |AskedFor(s, q)| < LimitOf(q) then |AskedFor(s, q)| else LimitOf(q)
  {
    var page := ListedPage(s, ctx, q, ms, hasNext);
    AskedForMatches(s, q);
    PageSize(s, q.groupId.value, q.after, q.before, LimitOf(q), page.messages);
    forall i, j | 0 <= i < j < |ms|
      ensures ms[i].order < ms[j].order
    {
      assert OrderOf(page.messages[i]) < OrderOf(page.messages[j]);
    }
  }

  /** What is left out comes after all that is shown, and `hasNext` says whether there is any. */
  lemma LeftOutComesLater(s: Store, ctx: AuthContext, q: GetQuery, ms: seq<MessageResponse>, hasNext: bool)
    requires Consistent(s) && Answers(s, ctx, q, Ok(List(ms, hasNext)))
    ensures forall id, i :: id in AskedFor(s, q) && !Lists(ms, id) && 0 <= i < |ms| ==>
              ms[i].order < OrderOf(s.messages[id])
    ensures hasNext <==> exists id :: id in AskedFor(s, q) && !Lists(ms, id)
  {
    var page := ListedPage(s, ctx, q, ms, hasNext);
    AskedForMatches(s, q);
    AnswerMeans(s, q.groupId.value, q.after, q.before, LimitOf(q), page);
    forall id | id in AskedFor(s, q)
      ensures Lists(ms, id) <==> s.messages[id] in page.messages
    {
      ListsIff(s, q, page.messages, ms, id);
    }
    forall id, i | id in AskedFor(s, q) && !Lists(ms, id) && 0 <= i < |ms|
      ensures ms[i].order < OrderOf(s.messages[id])
    {
      assert page.messages[i] in page.messages;
    }
  }

  /** A list query is served exactly for the caller's own group, and has one answer. */
  lemma ListIsUnique(s: Store, ctx: AuthContext, q: GetQuery, res: Result<GetResponse, ApiError>,
                     res': Result<GetResponse, ApiError>)
    requires OrdersAgree(s) && Answers(s, ctx, q, res) && Answers(s, ctx, q, res')
    ensures res == res'
  {
    if res.Ok? && res.value.List? {
      var page := ListedPage(s, ctx, q, res.value.messages, res.value.hasNext);
      var page' := ListedPage(s, ctx, q, res'.value.messages, res'.value.hasNext);
      var found: seq<Message> :|
        IsPage(s, q.groupId.value, q.after, q.before, LimitOf(q) + 1, found) && page == ToPage(found, LimitOf(q));
      var found': seq<Message> :|
        IsPage(s, q.groupId.value, q.after, q.before, LimitOf(q) + 1, found') && page' == ToPage(found', LimitOf(q));
      PageIsUnique(s, q.groupId.value, q.after, q.before, LimitOf(q) + 1, found, found');
      assert res.value.messages == res'.value.messages;
    }
  }
}
