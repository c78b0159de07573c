/** The message store as a value: its operations and the agreement of its three parts. */
module Stores {
  import opened Wrappers
  import opened Hex
  import opened Messages

  datatype StorageError = NotFound(id: Uuid) | DuplicateId(id: Uuid) | DuplicateNonce

  datatype Store = Store(
    messages: map<Uuid, Message>,
    groupOrders: map<string, int>,
    nonces: set<Bytes>)

  const EMPTY_STORE := Store(map[], map[], {})

  /** The highest order handed out in a group so far. */
  function Counter(s: Store, group: string): int {
    if group in s.groupOrders then s.groupOrders[group] else 0
  }

  // ---- Operations, one per lock acquisition ----

  function ReserveOrder(s: Store, group: string): Store {
    s.(groupOrders := s.groupOrders[group := Counter(s, group) + 1])
  }

  /** The part of a create that runs under the messages lock. */
  function CommitMessage(s: Store, m: Message): Result<Store, StorageError> {
    if m.id in s.messages then Err(DuplicateId(m.id))
    else if m.content.nonce in s.nonces then Err(DuplicateNonce)
    else Ok(s.(messages := s.messages[m.id := m], nonces := s.nonces + {m.content.nonce}))
  }

  function UpdateMessage(s: Store, id: Uuid, content: Content, now: Timestamp): Result<Store, StorageError> {
    if id !in s.messages then Err(NotFound(id))
    else
      var m := s.messages[id];
      if m.content.nonce != content.nonce && content.nonce in s.nonces then Err(DuplicateNonce)
      else Ok(s.(messages := s.messages[id := WithContent(m, content, now)],
                 nonces := s.nonces - {m.content.nonce} + {content.nonce}))
  }

  function DeleteMessage(s: Store, id: Uuid, now: Timestamp): Result<Store, StorageError> {
    if id !in s.messages then Err(NotFound(id))
    else Ok(s.(messages := s.messages[id := MarkedForDeletion(s.messages[id], now)]))
  }

  function UpdateSyncStatus(s: Store, id: Uuid, status: SyncStatus, patchId: Option<PatchId>, now: Timestamp)
    : Result<Store, StorageError>
  {
    if id !in s.messages then Err(NotFound(id))
    else Ok(s.(messages := s.messages[id := WithStatus(s.messages[id], status, patchId, now)]))
  }

  // ---- What the three parts owe each other ----

  ghost predicate Keyed(s: Store) {
    forall id {:trigger s.messages[id].id} :: id in s.messages ==> s.messages[id].id == id
  }

  function StoredNonces(s: Store): set<Bytes> {
    set id | id in s.messages :: s.messages[id].content.nonce
  }

  /** The duplicate index is exactly the nonces of the stored messages, each used once. */
  ghost predicate NonceIndexAgrees(s: Store) {
    && s.nonces == StoredNonces(s)
    && forall i, j {:trigger s.messages[i].content.nonce, s.messages[j].content.nonce} ::
         i in s.messages && j in s.messages && i != j ==>
           s.messages[i].content.nonce != s.messages[j].content.nonce
  }

  ghost predicate OrdersAgree(s: Store) {
    && (forall id {:trigger OrderOf(s.messages[id])} :: id in s.messages ==>
          s.messages[id].order.Some? && 1 <= OrderOf(s.messages[id]) <= Counter(s, s.messages[id].groupId))
    && (forall i, j {:trigger OrderOf(s.messages[i]), OrderOf(s.messages[j])} ::
          i in s.messages && j in s.messages && i != j && s.messages[i].groupId == s.messages[j].groupId ==>
            OrderOf(s.messages[i]) != OrderOf(s.messages[j]))
    && (forall g :: g in s.groupOrders ==> s.groupOrders[g] >= 1)
  }

  ghost predicate Consistent(s: Store) {
    Keyed(s) && NonceIndexAgrees(s) && OrdersAgree(s)
  }

  lemma CommitKeepsIndex(s: Store, m: Message)
    requires Keyed(s) && NonceIndexAgrees(s)
    requires CommitMessage(s, m).Ok?
    ensures Keyed(CommitMessage(s, m).value) && NonceIndexAgrees(CommitMessage(s, m).value)
  {
    var s' := CommitMessage(s, m).value;
    forall i | i in s.messages
      ensures s'.messages[i].content.nonce != m.content.nonce
    {
      assert s.messages[i].content.nonce in StoredNonces(s);
    }
    assert StoredNonces(s') == StoredNonces(s) + {m.content.nonce} by {
      assert s'.messages[m.id] == m;
      forall n | n in StoredNonces(s)
        ensures n in StoredNonces(s')
      {
        var i :| i in s.messages && s.messages[i].content.nonce == n;
        assert s'.messages[i].content.nonce == n;
      }
    }
  }

  /** Covers both the edit that keeps its nonce and the one that changes it. */
  lemma UpdateKeepsIndex(s: Store, id: Uuid, content: Content, now: Timestamp)
    requires Keyed(s) && NonceIndexAgrees(s)
    requires UpdateMessage(s, id, content, now).Ok?
    ensures Keyed(UpdateMessage(s, id, content, now).value)
    ensures NonceIndexAgrees(UpdateMessage(s, id, content, now).value)
  {
    var s' := UpdateMessage(s, id, content, now).value;
    var was := s.messages[id].content.nonce;
    forall i | i in s.messages && i != id
      ensures s.messages[i].content.nonce != content.nonce
    {
      assert s.messages[i].content.nonce in StoredNonces(s);
    }
    assert StoredNonces(s') == s'.nonces by {
      assert s'.messages[id].content.nonce == content.nonce;
      forall n | n in s'.nonces
        ensures n in StoredNonces(s')
      {
        if n != content.nonce {
          assert n in StoredNonces(s) && n != was;
          var i :| i in s.messages && s.messages[i].content.nonce == n;
          assert s'.messages[i].content.nonce == n;
        }
      }
    }
  }

  /** A status change keeps every nonce where it is. */
  lemma SameContentsKeepIndex(s: Store, s': Store)
    requires Keyed(s) && NonceIndexAgrees(s)
    requires s'.messages.Keys == s.messages.Keys && s'.nonces == s.nonces
    requires forall id :: id in s.messages ==>
               SameIdentity(s.messages[id], s'.messages[id]) && s'.messages[id].content == s.messages[id].content
    ensures Keyed(s') && NonceIndexAgrees(s')
  {
    assert StoredNonces(s') == StoredNonces(s) by {
      forall n | n in StoredNonces(s)
        ensures n in StoredNonces(s')
      {
        var i :| i in s.messages && s.messages[i].content.nonce == n;
        assert s'.messages[i].content.nonce == n;
      }
    }
  }

  // ---- Whole operations in sequence ----

  datatype StoreOp =
    | Create(m: Message)
    | Update(id: Uuid, content: Content, now: Timestamp)
    | Delete(id: Uuid, now: Timestamp)
    | SetStatus(id: Uuid, status: SyncStatus, patchId: Option<PatchId>, now: Timestamp)

  /** A create by one caller alone; the reserved order stays consumed when it is rejected. */
  function CreateMessage(s: Store, m: Message): Store {
    var reserved := ReserveOrder(s, m.groupId);
    OrElse(CommitMessage(reserved, WithOrder(m, Counter(reserved, m.groupId))), reserved)
  }

  function ApplyOp(s: Store, op: StoreOp): Store {
    match op
    case Create(m) => CreateMessage(s, m)
    case Update(id, content, now) => OrElse(UpdateMessage(s, id, content, now), s)
    case Delete(id, now) => OrElse(DeleteMessage(s, id, now), s)
    case SetStatus(id, status, patchId, now) => OrElse(UpdateSyncStatus(s, id, status, patchId, now), s)
  }

  function ApplyOps(s: Store, ops: seq<StoreOp>): Store
    decreases |ops|
  {
    if |ops| == 0 then s else ApplyOps(ApplyOp(s, ops[0]), ops[1..])
  }

  lemma ReserveKeepsOrders(s: Store, group: string)
    requires OrdersAgree(s)
    ensures OrdersAgree(ReserveOrder(s, group))
    ensures forall id :: id in s.messages && s.messages[id].groupId == group ==>
              OrderOf(s.messages[id]) < Counter(ReserveOrder(s, group), group)
  {
    var s' := ReserveOrder(s, group);
    forall id | id in s.messages
      ensures s.messages[id].order.Some?
      ensures 1 <= OrderOf(s.messages[id]) <= Counter(s, s.messages[id].groupId) <= Counter(s', s.messages[id].groupId)
    {
      assert 1 <= OrderOf(s.messages[id]);
    }
    forall i, j | i in s.messages && j in s.messages && i != j && s.messages[i].groupId == s.messages[j].groupId
      ensures OrderOf(s'.messages[i]) != OrderOf(s'.messages[j])
    {
      assert OrderOf(s.messages[i]) != OrderOf(s.messages[j]);
    }
  }

  lemma ReserveKeepsConsistent(s: Store, group: string)
    requires Consistent(s)
    ensures Consistent(ReserveOrder(s, group))
    ensures forall id :: id in s.messages && s.messages[id].groupId == group ==>
              OrderOf(s.messages[id]) < Counter(ReserveOrder(s, group), group)
  {
    ReserveKeepsOrders(s, group);
    SameContentsKeepIndex(s, ReserveOrder(s, group));
  }

  /** A message with an order that was handed out and that no stored message of its group has. */
  ghost predicate HoldsOrder(s: Store, m: Message) {
    && m.order.Some? && 1 <= OrderOf(m) <= Counter(s, m.groupId)
    && forall id :: id in s.messages && s.messages[id].groupId == m.groupId ==> OrderOf(s.messages[id]) != OrderOf(m)
  }

  lemma CommitKeepsOrders(s: Store, m: Message)
    requires OrdersAgree(s) && CommitMessage(s, m).Ok?
    requires HoldsOrder(s, m)
    ensures OrdersAgree(CommitMessage(s, m).value)
  {
    var s' := CommitMessage(s, m).value;
    forall id | id in s'.messages
      ensures s'.messages[id].order.Some?
      ensures 1 <= OrderOf(s'.messages[id]) <= Counter(s', s'.messages[id].groupId)
    {
      assert id != m.id ==> 1 <= OrderOf(s.messages[id]);
    }
    forall i, j | i in s'.messages && j in s'.messages && i != j && s'.messages[i].groupId == s'.messages[j].groupId
      ensures OrderOf(s'.messages[i]) != OrderOf(s'.messages[j])
    {
      assert i != m.id && j != m.id ==> OrderOf(s.messages[i]) != OrderOf(s.messages[j]);
    }
  }

  lemma CommitKeepsConsistent(s: Store, m: Message)
    requires Consistent(s) && CommitMessage(s, m).Ok?
    requires HoldsOrder(s, m)
    ensures Consistent(CommitMessage(s, m).value)
  {
    CommitKeepsIndex(s, m);
    CommitKeepsOrders(s, m);
  }

  lemma CreateKeepsConsistent(s: Store, m: Message)
    requires Consistent(s)
    ensures Consistent(CreateMessage(s, m))
  {
    var reserved := ReserveOrder(s, m.groupId);
    ReserveKeepsConsistent(s, m.groupId);
    var m' := WithOrder(m, Counter(reserved, m.groupId));
    if CommitMessage(reserved, m').Ok? {
      CommitKeepsConsistent(reserved, m');
    }
  }

  lemma SameIdentitiesKeepOrders(s: Store, s': Store)
    requires OrdersAgree(s)
    requires s'.messages.Keys == s.messages.Keys && s'.groupOrders == s.groupOrders
    requires forall id :: id in s.messages ==> SameIdentity(s.messages[id], s'.messages[id])
    ensures OrdersAgree(s')
  {
    forall id | id in s.messages
      ensures s'.messages[id].order.Some?
      ensures 1 <= OrderOf(s'.messages[id]) <= Counter(s', s'.messages[id].groupId)
    {
      assert 1 <= OrderOf(s.messages[id]);
    }
    forall i, j | i in s.messages && j in s.messages && i != j && s'.messages[i].groupId == s'.messages[j].groupId
      ensures OrderOf(s'.messages[i]) != OrderOf(s'.messages[j])
    {
      assert OrderOf(s.messages[i]) != OrderOf(s.messages[j]);
    }
  }

  lemma UpdateKeepsConsistent(s: Store, id: Uuid, content: Content, now: Timestamp)
    requires Consistent(s) && UpdateMessage(s, id, content, now).Ok?
    ensures Consistent(UpdateMessage(s, id, content, now).value)
  {
    UpdateKeepsIndex(s, id, content, now);
    SameIdentitiesKeepOrders(s, UpdateMessage(s, id, content, now).value);
  }

  /** Deletes and status changes. */
  lemma SameContentsKeepConsistent(s: Store, s': Store)
    requires Consistent(s)
    requires s'.messages.Keys == s.messages.Keys && s'.nonces == s.nonces && s'.groupOrders == s.groupOrders
    requires forall id :: id in s.messages ==>
               SameIdentity(s.messages[id], s'.messages[id]) && s'.messages[id].content == s.messages[id].content
    ensures Consistent(s')
  {
    SameContentsKeepIndex(s, s');
    SameIdentitiesKeepOrders(s, s');
  }

  lemma ApplyOpKeepsConsistent(s: Store, op: StoreOp)
    requires Consistent(s)
    ensures Consistent(ApplyOp(s, op))
  {
    match op
    case Create(m) => CreateKeepsConsistent(s, m);
    case Update(id, content, now) =>
      if UpdateMessage(s, id, content, now).Ok? {
        UpdateKeepsConsistent(s, id, content, now);
      }
    case Delete(id, now) => SameContentsKeepConsistent(s, OrElse(DeleteMessage(s, id, now), s));
    case SetStatus(id, status, patchId, now) =>
      SameContentsKeepConsistent(s, OrElse(UpdateSyncStatus(s, id, status, patchId, now), s));
  }

  /** After any sequence of operations, rejected ones included, the nonce set is exactly
      the nonces of the stored messages, and orders are distinct and below the counter. */
  lemma {:induction false} OpsKeepConsistent(s: Store, ops: seq<StoreOp>)
    requires Consistent(s)
    ensures Consistent(ApplyOps(s, ops))
    decreases |ops|
  {
    if ops != [] {
      ApplyOpKeepsConsistent(s, ops[0]);
      OpsKeepConsistent(ApplyOp(s, ops[0]), ops[1..]);
    }
  }

  /** With an agreeing index, an edit is refused exactly when another stored message
      holds its nonce. */
  lemma EditRefusedIff(s: Store, id: Uuid, content: Content, now: Timestamp)
    requires NonceIndexAgrees(s) && id in s.messages
    ensures UpdateMessage(s, id, content, now).Err? <==>
            exists other :: other in s.messages && other != id && s.messages[other].content.nonce == content.nonce
  {
    if content.nonce in s.nonces {
      assert content.nonce in StoredNonces(s);
    }
    forall other | other in s.messages && other != id && s.messages[other].content.nonce == content.nonce
      ensures UpdateMessage(s, id, content, now).Err?
    {
      assert s.messages[other].content.nonce in StoredNonces(s);
    }
  }

  /** Orders have gaps: a rejected create, whether for its id or for its nonce, stores nothing
      and still uses one up. */
  lemma RejectedCreateBurnsAnOrder(s: Store, m: Message)
    requires m.id in s.messages || m.content.nonce in s.nonces
    ensures var s' := CreateMessage(s, m);
            && s'.messages == s.messages && s'.nonces == s.nonces
            && Counter(s', m.groupId) == Counter(s, m.groupId) + 1
            && forall g :: g != m.groupId ==> Counter(s', g) == Counter(s, g)
  {
  }

  /** A status change keeps the patch id unless it brings another, and touches nothing else. */
  lemma PatchIdSurvives(s: Store, id: Uuid, status: SyncStatus, patchId: Option<PatchId>, now: Timestamp)
    requires id in s.messages
    ensures var s' := ApplyOp(s, SetStatus(id, status, patchId, now));
            && s'.messages.Keys == s.messages.Keys && s'.nonces == s.nonces && s'.groupOrders == s.groupOrders
            && (forall i :: i in s.messages && i != id ==> s'.messages[i] == s.messages[i])
            && SameIdentity(s'.messages[id], s.messages[id]) && s'.messages[id].content == s.messages[id].content
            && s'.messages[id].syncStatus == status && s'.messages[id].updatedAt == now
            && (patchId.None? ==> s'.messages[id].quiltPatchId == s.messages[id].quiltPatchId)
            && (patchId.Some? ==> s'.messages[id].quiltPatchId == patchId)
  {
  }

  /** Deletion is not final: an edit that the nonce index admits revives the message. */
  lemma EditAfterDeleteRevives(s: Store, id: Uuid, content: Content, t: Timestamp, t': Timestamp)
    requires NonceIndexAgrees(s) && id in s.messages
    ensures var deleted := DeleteMessage(s, id, t).value;
            && deleted.messages[id].syncStatus == DeletePending
            && match UpdateMessage(deleted, id, content, t')
               case Ok(revived) => revived.messages[id].syncStatus == UpdatePending
               case Err(_) => exists other :: other in s.messages && other != id
                                              && s.messages[other].content.nonce == content.nonce
  {
    EditRefusedIff(s, id, content, t');
  }

  // ---- Queries ----

  predicate Matches(m: Message, group: string, after: Option<int>, before: Option<int>) {
    && m.groupId == group
    && (after.Some? ==> OrderOf(m) > after.value)
    && (before.Some? ==> OrderOf(m) < before.value)
  }

  ghost predicate Ascending(ms: seq<Message>) {
    forall i, j :: 0 <= i < j < |ms| ==> OrderOf(ms[i]) < OrderOf(ms[j])
  }

  ghost predicate AllStored(s: Store, ms: seq<Message>) {
    forall m :: m in ms ==> m.id in s.messages && s.messages[m.id] == m
  }

  /** The answer to a group query: the matching messages of lowest order, ascending,
      up to the limit. */
  ghost predicate IsPage(s: Store, group: string, after: Option<int>, before: Option<int>, limit: nat,
                         page: seq<Message>)
  {
    && Ascending(page)
    && AllStored(s, page)
    && |page| <= limit
    && (forall m :: m in page ==> Matches(m, group, after, before))
    && (forall id :: id in s.messages && Matches(s.messages[id], group, after, before) && s.messages[id] !in page ==>
          |page| == limit && forall m :: m in page ==> OrderOf(m) < OrderOf(s.messages[id]))
  }

  /** The answer does not depend on the order in which the map is walked. */
  lemma {:induction false} PageIsUnique(s: Store, group: string, after: Option<int>, before: Option<int>, limit: nat,
                                        p: seq<Message>, q: seq<Message>)
    requires OrdersAgree(s)
    requires IsPage(s, group, after, before, limit, p) && IsPage(s, group, after, before, limit, q)
    ensures p == q
  {
    PagePrefix(s, group, after, before, limit, p, q, |p|);
    PagePrefix(s, group, after, before, limit, q, p, |q|);
  }

  lemma {:induction false} PagePrefix(s: Store, group: string, after: Option<int>, before: Option<int>, limit: nat,
                                      p: seq<Message>, q: seq<Message>, n: nat)
    requires OrdersAgree(s)
    requires IsPage(s, group, after, before, limit, p) && IsPage(s, group, after, before, limit, q)
    requires n <= |p|
    ensures n <= |q| && p[..n] == q[..n]
  {
    if n > 0 {
      var k := n - 1;
      PagePrefix(s, group, after, before, limit, p, q, k);
      assert p[k] in p && s.messages[p[k].id] == p[k];
      if |q| == k {
        assert p[k] in q ==> exists i :: 0 <= i < k && p[i] == p[k];
      } else {
        assert q[k] in q && s.messages[q[k].id] == q[k];
        if OrderOf(p[k]) < OrderOf(q[k]) {
          NotIn(p, q, k);
        } else if OrderOf(q[k]) < OrderOf(p[k]) {
          NotIn(q, p, k);
        }
      }
      assert p[..n] == p[..k] + [p[k]] && q[..n] == q[..k] + [q[k]];
    }
  }

  lemma NotIn(p: seq<Message>, q: seq<Message>, k: nat)
    requires Ascending(p) && Ascending(q) && k < |p| && k < |q|
    requires p[..k] == q[..k] && OrderOf(p[k]) < OrderOf(q[k])
    ensures p[k] !in q
  {
    forall i | 0 <= i < |q|
      ensures q[i] != p[k]
    {
      if i < k {
        assert q[i] == q[..k][i] == p[i];
      }
    }
  }

  /** `sort_by_key` is stable: equal keys stay in place. */
  function InsertByOrder(sorted: seq<Message>, m: Message): seq<Message> {
    if sorted == [] || OrderOf(sorted[|sorted| - 1]) <= OrderOf(m) then sorted + [m]
    else InsertByOrder(sorted[..|sorted| - 1], m) + [sorted[|sorted| - 1]]
  }

  function SortByOrder(ms: seq<Message>): seq<Message> {
    if ms == [] then [] else InsertByOrder(SortByOrder(ms[..|ms| - 1]), ms[|ms| - 1])
  }

  lemma {:induction false} InsertKeepsAscending(sorted: seq<Message>, m: Message)
    requires Ascending(sorted)
    requires forall x :: x in sorted ==> OrderOf(x) != OrderOf(m)
    ensures Ascending(InsertByOrder(sorted, m))
    ensures |InsertByOrder(sorted, m)| == |sorted| + 1
    ensures forall x :: x in InsertByOrder(sorted, m) <==> x in sorted || x == m
  {
    if sorted != [] && OrderOf(sorted[|sorted| - 1]) > OrderOf(m) {
      var init, last := sorted[..|sorted| - 1], sorted[|sorted| - 1];
      assert sorted == init + [last];
      InsertKeepsAscending(init, m);
      var r := InsertByOrder(init, m);
      forall i | 0 <= i < |r|
        ensures OrderOf(r[i]) < OrderOf(last)
      {
        assert r[i] in r;
      }
    } else if sorted != [] {
      assert sorted[|sorted| - 1] in sorted;
    }
  }

  /** Sorting messages of pairwise different orders. */
  lemma {:induction false} SortAscends(ms: seq<Message>)
    requires forall i, j :: 0 <= i < j < |ms| ==> OrderOf(ms[i]) != OrderOf(ms[j])
    ensures Ascending(SortByOrder(ms))
    ensures |SortByOrder(ms)| == |ms|
    ensures forall x :: x in SortByOrder(ms) <==> x in ms
  {
    if ms != [] {
      var init, last := ms[..|ms| - 1], ms[|ms| - 1];
      assert ms == init + [last];
      SortAscends(init);
      InsertKeepsAscending(SortByOrder(init), last);
    }
  }

  /** Messages that wait in a given status. */
  function InStatus(s: Store, status: SyncStatus): set<Uuid> {
    set id | id in s.messages && s.messages[id].syncStatus == status
  }

  function Min(a: nat, b: nat): nat { if a < b then a else b }

  ghost predicate DistinctIds(ms: seq<Message>) {
    forall i, j :: 0 <= i < j < |ms| ==> ms[i].id != ms[j].id
  }

  function Ids(ms: seq<Message>): set<Uuid> {
    set m | m in ms :: m.id
  }

  lemma {:induction false} IdsCount(ms: seq<Message>)
    requires DistinctIds(ms)
    ensures |Ids(ms)| == |ms|
    decreases |ms|
  {
    if ms == [] {
      assert Ids(ms) == {};
    } else {
      var n := |ms| - 1;
      assert ms == ms[..n] + [ms[n]];
      IdsCount(ms[..n]);
      assert Ids(ms) == Ids(ms[..n]) + {ms[n].id};
    }
  }

  /** A batch for the sync worker: clones of distinct messages in the given status, as
      many as the limit allows, in whatever order the map yields them. */
  ghost predicate IsBatch(s: Store, status: SyncStatus, limit: nat, batch: seq<Message>) {
    && AllStored(s, batch)
    && (forall m :: m in batch ==> m.syncStatus == status)
    && DistinctIds(batch)
    && |batch| == Min(limit, |InStatus(s, status)|)
  }

  // ---- Walking the map ----

  /** Some order in which a hash map may yield its keys. */
  ghost predicate IsWalk(s: Store, walk: seq<Uuid>) {
    (forall id :: id in walk <==> id in s.messages) && NoRepeats(walk)
  }

  /** `filter` over the values: clones of those whose id is in `ids`, in walking order. */
  function Select(s: Store, walk: seq<Uuid>, ids: set<Uuid>): seq<Message> {
    if walk == [] then []
    else
      var init, id := Select(s, walk[..|walk| - 1], ids), walk[|walk| - 1];
      if id in s.messages && id in ids then init + [s.messages[id]] else init
  }

  function Truncate(ms: seq<Message>, limit: nat): seq<Message> {
    if |ms| > limit then ms[..limit] else ms
  }

  /** `ms` holds, once each, clones of the messages with ids in `found`. */
  ghost predicate Clones(s: Store, found: set<Uuid>, ms: seq<Message>) {
    && AllStored(s, ms)
    && DistinctIds(ms)
    && Ids(ms) == found
    && |ms| == |found|
  }

  function Walked(walk: seq<Uuid>): set<Uuid> {
    set id | id in walk
  }

  ghost predicate NoRepeats(walk: seq<Uuid>) {
    forall i, j :: 0 <= i < j < |walk| ==> walk[i] != walk[j]
  }

  lemma WalkedLast(walk: seq<Uuid>)
    requires walk != [] && NoRepeats(walk)
    ensures var init, id := walk[..|walk| - 1], walk[|walk| - 1];
            NoRepeats(init) && id !in Walked(init) && Walked(walk) == Walked(init) + {id}
  {
    assert walk == walk[..|walk| - 1] + [walk[|walk| - 1]];
  }

  lemma {:induction false} SelectedAreClones(s: Store, walk: seq<Uuid>, ids: set<Uuid>)
    requires Keyed(s) && NoRepeats(walk) && ids <= s.messages.Keys
    ensures Clones(s, ids * Walked(walk), Select(s, walk, ids))
    decreases |walk|
  {
    if walk == [] {
      assert ids * Walked(walk) == {};
    } else {
      var init, id := walk[..|walk| - 1], walk[|walk| - 1];
      WalkedLast(walk);
      SelectedAreClones(s, init, ids);
      if id in ids {
        CloneNext(s, ids * Walked(init), Select(s, init, ids), id);
        assert ids * Walked(walk) == ids * Walked(init) + {id};
      } else {
        assert ids * Walked(walk) == ids * Walked(init);
      }
    }
  }

  /** One step of the walk, with and without a limit. */
  lemma SelectNext(s: Store, walk: seq<Uuid>, ids: set<Uuid>, i: nat, limit: nat)
    requires i < |walk| && walk[i] in s.messages
    ensures var before, after := Select(s, walk[..i], ids), Select(s, walk[..i + 1], ids);
            && after == (if walk[i] in ids then before + [s.messages[walk[i]]] else before)
            && Truncate(after, limit) == if walk[i] in ids && |Truncate(before, limit)| < limit
                                         then Truncate(before, limit) + [s.messages[walk[i]]]
                                         else Truncate(before, limit)
  {
    assert walk[..i + 1][..i] == walk[..i];
  }

  lemma AllSelected(s: Store, walk: seq<Uuid>, ids: set<Uuid>)
    requires Keyed(s) && IsWalk(s, walk) && ids <= s.messages.Keys
    ensures Clones(s, ids, Select(s, walk, ids))
  {
    SelectedAreClones(s, walk, ids);
    assert ids * Walked(walk) == ids;
  }

  lemma CloneNext(s: Store, found: set<Uuid>, ms: seq<Message>, id: Uuid)
    requires Clones(s, found, ms)
    requires id in s.messages && id !in found && s.messages[id].id == id
    ensures Clones(s, found + {id}, ms + [s.messages[id]])
  {
    var m := s.messages[id];
    assert m.id == id;
    forall x | x in ms
      ensures x.id != id
    {
      assert x.id in Ids(ms);
    }
    assert Ids(ms + [m]) == found + {id} by {
      assert m in ms + [m];
      forall x | x in found
        ensures x in Ids(ms + [m])
      {
        var y :| y in ms && y.id == x;
        assert y in ms + [m];
      }
    }
  }

  lemma {:induction false} SubsetIsSmaller(a: set<Uuid>, b: set<Uuid>)
    requires a <= b
    ensures |a| <= |b|
  {
    assert b == a + (b - a);
  }

  /** Filter by status, then take. */
  lemma TakenIsBatch(s: Store, walk: seq<Uuid>, status: SyncStatus, limit: nat)
    requires Consistent(s) && IsWalk(s, walk)
    ensures IsBatch(s, status, limit, Truncate(Select(s, walk, InStatus(s, status)), limit))
  {
    var all := Select(s, walk, InStatus(s, status));
    AllSelected(s, walk, InStatus(s, status));
    forall m | m in all
      ensures m.syncStatus == status
    {
      assert m.id in Ids(all);
    }
  }

  function MatchingIds(s: Store, group: string, after: Option<int>, before: Option<int>): set<Uuid> {
    set id | id in s.messages && Matches(s.messages[id], group, after, before)
  }

  /** Filter, sort by order, truncate. */
  lemma QueryIsPage(s: Store, walk: seq<Uuid>, group: string, after: Option<int>, before: Option<int>, limit: nat)
    requires Consistent(s) && IsWalk(s, walk)
    ensures IsPage(s, group, after, before, limit,
                   Truncate(SortByOrder(Select(s, walk, MatchingIds(s, group, after, before))), limit))
  {
    var ids := MatchingIds(s, group, after, before);
    AllSelected(s, walk, ids);
    SortedClonesArePage(s, group, after, before, limit, Select(s, walk, ids));
  }

  lemma SortedClonesArePage(s: Store, group: string, after: Option<int>, before: Option<int>, limit: nat,
                            filtered: seq<Message>)
    requires OrdersAgree(s)
    requires Clones(s, MatchingIds(s, group, after, before), filtered)
    ensures IsPage(s, group, after, before, limit, Truncate(SortByOrder(filtered), limit))
  {
    forall m | m in filtered
      ensures Matches(m, group, after, before)
    {
      assert m.id in Ids(filtered);
    }
    forall i, j | 0 <= i < j < |filtered|
      ensures OrderOf(filtered[i]) != OrderOf(filtered[j])
    {
      assert filtered[i] in filtered && filtered[j] in filtered;
    }
    SortAscends(filtered);
    forall id | id in MatchingIds(s, group, after, before)
      ensures s.messages[id] in filtered
    {
      assert id in Ids(filtered);
    }
    TruncatedIsPage(s, group, after, before, limit, SortByOrder(filtered));
  }

  lemma TruncatedIsPage(s: Store, group: string, after: Option<int>, before: Option<int>, limit: nat,
                        sorted: seq<Message>)
    requires Ascending(sorted) && AllStored(s, sorted)
    requires forall m :: m in sorted ==> Matches(m, group, after, before)
    requires forall id :: id in MatchingIds(s, group, after, before) ==> s.messages[id] in sorted
    ensures IsPage(s, group, after, before, limit, Truncate(sorted, limit))
  {
    if |sorted| > limit {
      forall id | id in MatchingIds(s, group, after, before) && s.messages[id] !in sorted[..limit]
        ensures forall m :: m in sorted[..limit] ==> OrderOf(m) < OrderOf(s.messages[id])
      {
        var k :| 0 <= k < |sorted| && sorted[k] == s.messages[id];
        assert forall i :: 0 <= i < limit ==> sorted[..limit][i] == sorted[i];
      }
    }
  }
}
