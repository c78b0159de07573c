/** How fast the worker empties the store of pending messages when nobody writes. */
module Draining {
  import opened Messages
  import opened Stores
  import opened Walrus
  import opened WalrusSync
  import Archive

  // ---- One phase, whatever the publisher answers ----

  function Found(batch: seq<Message>, response: seq<StoredPatch>): set<Uuid> {
    set m | m in batch && GetPatchId(response, Identifier(m.id)).Some? :: m.id
  }

  /** The members of the batch for which the publisher's answer, if there is one, has a patch id. */
  function Acknowledged(batch: seq<Message>, to: SyncStatus, client: Client): set<Uuid> {
    var patches := PatchesOf(client, to, batch);
    if patches == [] then {}
    else
      match client.storeQuilt(patches, TagsOf(client, to, batch))
      case None => {}
      case Some(response) => Found(batch, response)
  }

  /** Exactly the messages of `marked` have moved to status `to`, with a patch id; everything
      else about the store, and every other message, is as before. */
  ghost predicate Moved(s: Store, marked: set<Uuid>, to: SyncStatus, s': Store) {
    && s'.messages.Keys == s.messages.Keys && s'.nonces == s.nonces && s'.groupOrders == s.groupOrders
    && forall id {:trigger s'.messages[id]} {:trigger s.messages[id]} :: id in s.messages ==>
         if id in marked then
           && SameIdentity(s'.messages[id], s.messages[id]) && s'.messages[id].content == s.messages[id].content
           && s'.messages[id].syncStatus == to && s'.messages[id].quiltPatchId.Some?
         else s'.messages[id] == s.messages[id]
  }

  lemma MarkOneMoves(s: Store, s1: Store, marked: set<Uuid>, m: Message, response: seq<StoredPatch>, to: SyncStatus,
                     now: Timestamp)
    requires Moved(s, marked, to, s1) && m.id in s.messages
    ensures var found := GetPatchId(response, Identifier(m.id)).Some?;
            Moved(s, if found then marked + {m.id} else marked, to, MarkOne(s1, m, response, to, now))
  {
  }

  lemma {:induction false} MarkAllMoves(s: Store, batch: seq<Message>, response: seq<StoredPatch>, to: SyncStatus,
                                        clock: nat -> Timestamp)
    requires forall m :: m in batch ==> m.id in s.messages
    ensures Moved(s, Found(batch, response), to, MarkAll(s, batch, response, to, clock))
    decreases |batch|
  {
    if batch != [] {
      var n := |batch| - 1;
      var init, m := batch[..n], batch[n];
      assert batch == init + [m];
      MarkAllMoves(s, init, response, to, clock);
      MarkOneMoves(s, MarkAll(s, init, response, to, clock), Found(init, response), m, response, to, clock(n));
      var found := GetPatchId(response, Identifier(m.id)).Some?;
      assert Found(batch, response) == if found then Found(init, response) + {m.id} else Found(init, response);
    }
  }

  /** A phase, with failed requests and partial answers included: what the publisher
      acknowledged moves on, and nothing else changes. */
  lemma PhaseMoves(s: Store, batch: seq<Message>, to: SyncStatus, client: Client, clock: nat -> Timestamp)
    requires AllStored(s, batch)
    ensures var (s', r) := UploadAndMark(s, batch, to, client, clock);
            && Moved(s, Acknowledged(batch, to, client), to, s')
            && Acknowledged(batch, to, client) <= Ids(batch)
            && (r.Err? ==> s' == s)
  {
    var patches := PatchesOf(client, to, batch);
    if patches != [] {
      var response := client.storeQuilt(patches, TagsOf(client, to, batch));
      if response.Some? {
        MarkAllMoves(s, batch, response.value, to, clock);
      }
    }
  }

  /** The worker's own loop takes the same steps as the interleaved system: a phase marks
      what that many single marks would. */
  function MarkMany(c: Archive.Core, n: nat, clock: nat -> Timestamp): Archive.Core {
    if n == 0 then c
    else
      var before := MarkMany(c, n - 1, clock);
      if Archive.CanMark(before) then Archive.Mark(before, clock(n - 1)) else before
  }

  lemma MarkIsMarkOne(c: Archive.Core, s: Store, to: SyncStatus, now: Timestamp)
    requires Archive.CanMark(c) && c.messages == s.messages && Target(c.worker.batch[c.worker.next].syncStatus) == to
    ensures Archive.Mark(c, now).messages
            == MarkOne(s, c.worker.batch[c.worker.next], c.worker.response, to, now).messages
    ensures Archive.Mark(c, now).worker
            == if c.worker.next + 1 < |c.worker.batch| then c.worker.(next := c.worker.next + 1) else Archive.Idle
  {
  }

  lemma {:induction false} MarkAllIsMarkMany(s: Store, c: Archive.Core, n: nat, to: SyncStatus, clock: nat -> Timestamp)
    requires c.worker.Marking? && c.worker.next == 0 && 0 < |c.worker.batch| && n <= |c.worker.batch|
    requires c.messages == s.messages && forall m :: m in c.worker.batch ==> Target(m.syncStatus) == to
    ensures MarkMany(c, n, clock).messages == MarkAll(s, c.worker.batch[..n], c.worker.response, to, clock).messages
    ensures MarkMany(c, n, clock).worker == if n < |c.worker.batch| then c.worker.(next := n) else Archive.Idle
  {
    if n > 0 {
      MarkAllIsMarkMany(s, c, n - 1, to, clock);
      var before := MarkMany(c, n - 1, clock);
      assert c.worker.batch[n - 1] in c.worker.batch;
      MarkIsMarkOne(before, MarkAll(s, c.worker.batch[..n - 1], c.worker.response, to, clock), to, clock(n - 1));
      assert c.worker.batch[..n][..n - 1] == c.worker.batch[..n - 1];
    }
  }

  // ---- A publisher that stores everything it is given ----

  ghost predicate Accepts(client: Client) {
    && (forall m :: client.serialize(m).Some?)
    && forall patches, tags, p: Patch {:trigger client.storeQuilt(patches, tags), p in patches} :: p in patches ==>
         client.storeQuilt(patches, tags).Some?
         && GetPatchId(client.storeQuilt(patches, tags).value, p.identifier).Some?
  }

  ghost predicate AllAccept(o: Outside) {
    forall status :: IsPending(status) ==> Accepts(o.clients(status))
  }

  lemma {:induction false} EveryPatchIsSent(client: Client, to: SyncStatus, batch: seq<Message>, m: Message)
    requires Accepts(client) && m in batch
    ensures exists p :: p in PatchesOf(client, to, batch) && p.identifier == Identifier(m.id)
    decreases |batch|
  {
    var n := |batch| - 1;
    var rest := PatchesOf(client, to, batch[..n]);
    var last := Patch(Identifier(batch[n].id), client.serialize(batch[n].(syncStatus := to)).value);
    assert PatchesOf(client, to, batch) == rest + [last];
    if m == batch[n] {
      assert last in rest + [last];
    } else {
      EveryPatchIsSent(client, to, batch[..n], m);
      var p :| p in rest && p.identifier == Identifier(m.id);
      assert p in rest + [last];
    }
  }

  lemma AllAcknowledged(client: Client, to: SyncStatus, batch: seq<Message>)
    requires Accepts(client)
    ensures Acknowledged(batch, to, client) == Ids(batch)
  {
    forall m | m in batch
      ensures m.id in Acknowledged(batch, to, client)
    {
      EveryPatchIsSent(client, to, batch, m);
      var p :| p in PatchesOf(client, to, batch) && p.identifier == Identifier(m.id);
      var response := client.storeQuilt(PatchesOf(client, to, batch), TagsOf(client, to, batch));
      assert GetPatchId(response.value, p.identifier).Some?;
    }
  }

  function Less(count: nat, done: nat): nat {
    if done <= count then count - done else 0
  }

  lemma MovedStatuses(s: Store, marked: set<Uuid>, from: SyncStatus, s': Store)
    requires IsPending(from) && marked <= InStatus(s, from) && Moved(s, marked, Target(from), s')
    ensures InStatus(s', from) == InStatus(s, from) - marked
    ensures forall other :: IsPending(other) && other != from ==> InStatus(s', other) == InStatus(s, other)
  {
    assert !IsPending(Target(from));
    forall other | IsPending(other) && other != from
      ensures InStatus(s', other) == InStatus(s, other)
    {
      assert forall id :: id in s.messages ==> (id in InStatus(s', other) <==> id in InStatus(s, other));
    }
  }

  /** The messages of `done` no longer wait in `from`, and nothing else changed its queue. */
  ghost predicate Drains(s: Store, from: SyncStatus, limit: nat, done: set<Uuid>, s': Store) {
    && Relieved(s, from, limit, done, s')
    && forall other :: IsPending(other) && other != from ==> InStatus(s', other) == InStatus(s, other)
  }

  /** With an accepting publisher a phase takes its batch off the messages that wait. */
  lemma PhaseDrains(s: Store, from: SyncStatus, limit: nat, o: Outside, batch: seq<Message>)
    requires IsPending(from) && Accepts(o.clients(from)) && IsBatch(s, from, limit, batch)
    ensures Drains(s, from, limit, Ids(batch), AfterPhase(s, from, o, batch))
    ensures |Ids(batch)| == |batch|
  {
    var to, client := Target(from), o.clients(from);
    PhaseMoves(s, batch, to, client, o.clocks(from));
    AllAcknowledged(client, to, batch);
    assert Ids(batch) <= InStatus(s, from);
    MovedStatuses(s, Ids(batch), from, AfterPhase(s, from, o, batch));
    IdsCount(batch);
    assert |InStatus(s, from) - Ids(batch)| == |InStatus(s, from)| - |Ids(batch)|;
  }

  // ---- Cycles ----

  /** Everything that waits for the worker. */
  function Waiters(s: Store): set<Uuid> {
    InStatus(s, SyncPending) + InStatus(s, UpdatePending) + InStatus(s, DeletePending)
  }

  function Uploads(b: Batches): set<Uuid> {
    Ids(b.created) + Ids(b.updated) + Ids(b.deleted)
  }

  lemma TakeFromThree(w1: set<Uuid>, w2: set<Uuid>, w3: set<Uuid>, a: set<Uuid>, b: set<Uuid>, c: set<Uuid>)
    requires w1 !! w2 && w1 !! w3 && w2 !! w3 && a <= w1 && b <= w2 && c <= w3
    ensures a + b + c <= w1 + w2 + w3
    ensures (w1 - a) + (w2 - b) + (w3 - c) == w1 + w2 + w3 - (a + b + c)
    ensures |a + b + c| == |a| + |b| + |c|
  {
    assert a !! b && (a + b) !! c;
  }

  lemma ThreeDrains(s: Store, limit: nat, a: set<Uuid>, s1: Store, b: set<Uuid>, s2: Store, c: set<Uuid>, s': Store)
    requires Drains(s, SyncPending, limit, a, s1)
    requires Drains(s1, UpdatePending, limit, b, s2)
    requires Drains(s2, DeletePending, limit, c, s')
    ensures Relieved(s, SyncPending, limit, a, s')
    ensures Relieved(s, UpdatePending, limit, b, s')
    ensures Relieved(s, DeletePending, limit, c, s')
  {
  }

  ghost predicate Relieved(s: Store, from: SyncStatus, limit: nat, done: set<Uuid>, s': Store) {
    && done <= InStatus(s, from)
    && InStatus(s', from) == InStatus(s, from) - done
    && |InStatus(s', from)| == Less(|InStatus(s, from)|, limit)
  }

  lemma CycleQueues(s: Store, limit: nat, o: Outside, b: Batches, s': Store)
    requires Cycle(s, limit, o, b, s') && AllAccept(o)
    ensures Relieved(s, SyncPending, limit, Ids(b.created), s') && |Ids(b.created)| == |b.created|
    ensures Relieved(s, UpdatePending, limit, Ids(b.updated), s') && |Ids(b.updated)| == |b.updated|
    ensures Relieved(s, DeletePending, limit, Ids(b.deleted), s') && |Ids(b.deleted)| == |b.deleted|
  {
    var s1 := AfterPhase(s, SyncPending, o, b.created);
    var s2 := AfterPhase(s1, UpdatePending, o, b.updated);
    assert Drains(s, SyncPending, limit, Ids(b.created), s1) && |Ids(b.created)| == |b.created| by {
      PhaseDrains(s, SyncPending, limit, o, b.created);
    }
    assert Drains(s1, UpdatePending, limit, Ids(b.updated), s2) && |Ids(b.updated)| == |b.updated| by {
      PhaseDrains(s1, UpdatePending, limit, o, b.updated);
    }
    assert Drains(s2, DeletePending, limit, Ids(b.deleted), s') && |Ids(b.deleted)| == |b.deleted| by {
      PhaseDrains(s2, DeletePending, limit, o, b.deleted);
    }
    ThreeDrains(s, limit, Ids(b.created), s1, Ids(b.updated), s2, Ids(b.deleted), s');
  }

  lemma QueuesTogether(s: Store, limit: nat, a: set<Uuid>, b: set<Uuid>, c: set<Uuid>, s': Store)
    requires Relieved(s, SyncPending, limit, a, s')
    requires Relieved(s, UpdatePending, limit, b, s')
    requires Relieved(s, DeletePending, limit, c, s')
    ensures a + b + c <= Waiters(s) && Waiters(s') == Waiters(s) - (a + b + c)
    ensures |a + b + c| == |a| + |b| + |c|
  {
    TakeFromThree(InStatus(s, SyncPending), InStatus(s, UpdatePending), InStatus(s, DeletePending), a, b, c);
  }

  /** In one cycle each of the three counts falls by the batch size, or to nothing. */
  lemma CycleDrains(s: Store, limit: nat, o: Outside, b: Batches, s': Store, status: SyncStatus)
    requires Cycle(s, limit, o, b, s') && AllAccept(o) && IsPending(status)
    ensures |InStatus(s', status)| == Less(|InStatus(s, status)|, limit)
  {
    CycleQueues(s, limit, o, b, s');
  }

  /** In one cycle every message is uploaded at most once, and what was uploaded no longer waits. */
  lemma CycleUploads(s: Store, limit: nat, o: Outside, b: Batches, s': Store)
    requires Cycle(s, limit, o, b, s') && AllAccept(o)
    ensures Uploads(b) <= Waiters(s) && Waiters(s') == Waiters(s) - Uploads(b)
    ensures |Uploads(b)| == |b.created| + |b.updated| + |b.deleted|
  {
    var x, y, z := Ids(b.created), Ids(b.updated), Ids(b.deleted);
    assert Uploads(b) == x + y + z;
    assert |x| == |b.created| && |y| == |b.updated| && |z| == |b.deleted|
           && Waiters(s') == Waiters(s) - (x + y + z) && x + y + z <= Waiters(s) && |x + y + z| == |x| + |y| + |z| by {
      CycleQueues(s, limit, o, b, s');
      QueuesTogether(s, limit, x, y, z, s');
    }
  }

  /** After `i` cycles each count has fallen by `i` batches, or to nothing. */
  lemma {:induction false} CyclesDrain(stores: seq<Store>, limit: nat, outside: nat -> Outside, taken: seq<Batches>,
                                       i: nat,
                                       status: SyncStatus)
    requires Cycles(stores, limit, outside, taken) && (forall k: nat :: AllAccept(outside(k)))
    requires i <= |taken| && IsPending(status)
    ensures |InStatus(stores[i], status)| == Less(|InStatus(stores[0], status)|, i * limit)
  {
    if i > 0 {
      var k := i - 1;
      CyclesDrain(stores, limit, outside, taken, k, status);
      assert Cycle(stores[k], limit, outside(k), taken[k], stores[k + 1]);
      CycleDrains(stores[k], limit, outside(k), taken[k], stores[i], status);
      assert i * limit == k * limit + limit;
    }
  }

  lemma CycleUploadsAt(stores: seq<Store>, limit: nat, outside: nat -> Outside, taken: seq<Batches>, k: nat)
    requires Cycles(stores, limit, outside, taken) && AllAccept(outside(k)) && k < |taken|
    ensures Uploads(taken[k]) <= Waiters(stores[k])
    ensures Waiters(stores[k + 1]) == Waiters(stores[k]) - Uploads(taken[k])
  {
    assert Cycle(stores[k], limit, outside(k), taken[k], stores[k + 1]);
    CycleUploads(stores[k], limit, outside(k), taken[k], stores[k + 1]);
  }

  /** Step by step, what is taken is there and is gone afterwards. */
  ghost predicate Shrinks(waiting: seq<set<Uuid>>, left: seq<set<Uuid>>) {
    && |waiting| == |left| + 1
    && forall k {:trigger left[k]} :: 0 <= k < |left| ==>
        left[k] <= waiting[k] && waiting[k + 1] == waiting[k] - left[k]
  }

  /** What has left a shrinking set does not leave it again. */
  lemma {:induction false} LeftOnce(waiting: seq<set<Uuid>>, left: seq<set<Uuid>>, i: nat, j: nat)
    requires Shrinks(waiting, left) && i < j < |left|
    ensures left[i] !! left[j] && left[i] !! waiting[j]
    decreases j
  {
    assert left[i] !! waiting[i + 1];
    if i + 1 < j {
      LeftOnce(waiting, left, i, j - 1);
      assert waiting[j - 1 + 1] == waiting[j - 1] - left[j - 1];
    }
  }

  function AllWaiters(stores: seq<Store>): seq<set<Uuid>> {
    seq(|stores|, k requires 0 <= k < |stores| => Waiters(stores[k]))
  }

  function AllUploads(taken: seq<Batches>): seq<set<Uuid>> {
    seq(|taken|, k requires 0 <= k < |taken| => Uploads(taken[k]))
  }

  lemma CyclesShrink(stores: seq<Store>, limit: nat, outside: nat -> Outside, taken: seq<Batches>)
    requires Cycles(stores, limit, outside, taken) && (forall k: nat :: AllAccept(outside(k)))
    ensures Shrinks(AllWaiters(stores), AllUploads(taken))
  {
    forall k | 0 <= k < |taken|
      ensures Uploads(taken[k]) <= Waiters(stores[k])
      ensures Waiters(stores[k + 1]) == Waiters(stores[k]) - Uploads(taken[k])
    {
      CycleUploadsAt(stores, limit, outside, taken, k);
    }
  }

  /** No message is uploaded by two cycles. */
  lemma UploadedOnce(stores: seq<Store>, limit: nat, outside: nat -> Outside, taken: seq<Batches>, i: nat, j: nat)
    requires Cycles(stores, limit, outside, taken) && (forall k: nat :: AllAccept(outside(k)))
    requires i < j < |taken|
    ensures Uploads(taken[i]) !! Uploads(taken[j])
  {
    CyclesShrink(stores, limit, outside, taken);
    LeftOnce(AllWaiters(stores), AllUploads(taken), i, j);
  }

  function Max(a: nat, b: nat): nat { if a < b then b else a }

  /** The longest of the three queues. */
  function Longest(s: Store): nat {
    Max(|InStatus(s, SyncPending)|, Max(|InStatus(s, UpdatePending)|, |InStatus(s, DeletePending)|))
  }

  function CyclesNeeded(s: Store, limit: nat): nat
    requires limit > 0
  {
    (Longest(s) + limit - 1) / limit
  }

  lemma EnoughIff(count: nat, limit: nat, k: nat)
    requires limit > 0
    ensures count <= k * limit <==> (count + limit - 1) / limit <= k
  {
    var q := (count + limit - 1) / limit;
    assert q * limit <= count + limit - 1 < q * limit + limit;
    if q <= k {
      MultiplesGrow(q, k, limit);
    } else {
      MultiplesGrow(k + 1, q, limit);
      assert (k + 1) * limit == k * limit + limit;
    }
  }

  lemma MultiplesGrow(a: nat, b: nat, limit: nat)
    requires a <= b
    ensures a * limit <= b * limit
  {
    assert b * limit == a * limit + (b - a) * limit;
  }

  /** Nothing waits any more after `k` cycles exactly when `k` batches could hold the longest
      queue; so with a batch size of 0 nothing ever moves. */
  lemma DrainedIff(stores: seq<Store>, limit: nat, outside: nat -> Outside, taken: seq<Batches>, k: nat)
    requires Cycles(stores, limit, outside, taken) && (forall n: nat :: AllAccept(outside(n)))
    requires k <= |taken|
    ensures Waiters(stores[k]) == {} <==> Longest(stores[0]) <= k * limit
  {
    CyclesDrain(stores, limit, outside, taken, k, SyncPending);
    CyclesDrain(stores, limit, outside, taken, k, UpdatePending);
    CyclesDrain(stores, limit, outside, taken, k, DeletePending);
  }

  /** With a batch size of at least 1, the number of cycles it takes to archive everything is
      the longest queue divided by the batch size, rounded up. */
  lemma CyclesNeededIff(stores: seq<Store>, limit: nat, outside: nat -> Outside, taken: seq<Batches>, k: nat)
    requires Cycles(stores, limit, outside, taken) && (forall n: nat :: AllAccept(outside(n)))
    requires limit > 0 && k <= |taken|
    ensures Waiters(stores[k]) == {} <==> CyclesNeeded(stores[0], limit) <= k
  {
    DrainedIff(stores, limit, outside, taken, k);
    EnoughIff(Longest(stores[0]), limit, k);
  }
}
