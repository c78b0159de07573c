/** The background worker: batches of pending messages go to Walrus in three phases. */
module WalrusSync {
  import opened Wrappers
  import opened Hex
  import opened Messages
  import opened Stores
  import opened Storage
  import opened Walrus
  import opened TriggerLoop
  import Decimal

  const SOURCE_TAG: string := "sui-messaging-relayer"
  const MAX_BATCH: nat := 666

  datatype Patch = Patch(identifier: string, data: Bytes)
  datatype Tags = Tags(identifier: string, source: string, groupId: string, sender: string, status: SyncStatus,
                       order: string)

  /** JSON serialization, and the publisher with its answer (`None` when the request fails). */
  datatype Client = Client(
    serialize: Message -> Option<Bytes>,
    storeQuilt: (seq<Patch>, seq<Tags>) -> Option<seq<StoredPatch>>)

  datatype SyncError = UploadFailed

  function PatchesOf(client: Client, to: SyncStatus, batch: seq<Message>): seq<Patch> {
    if batch == [] then []
    else
      var init, m := PatchesOf(client, to, batch[..|batch| - 1]), batch[|batch| - 1];
      match client.serialize(m.(syncStatus := to))
      case None => init
      case Some(data) => init + [Patch(Identifier(m.id), data)]
  }

  function TagsFor(m: Message, to: SyncStatus): Tags {
    Tags(Identifier(m.id), SOURCE_TAG, m.groupId, m.sender, to,
         match m.order case None => "" case Some(o) => Decimal.Format(o))
  }

  /** The patch of one message, with the tags that describe it. */
  predicate IsPatchOf(client: Client, to: SyncStatus, m: Message, patch: Patch, tags: Tags) {
    && patch.identifier == tags.identifier == "msg-" + m.id.text
    && client.serialize(m.(syncStatus := to)) == Some(patch.data)
    && tags.source == "sui-messaging-relayer"
    && tags.groupId == m.groupId && tags.sender == m.sender && tags.status == to
    && (m.order.None? ==> tags.order == "")
    && (m.order.Some? ==> tags.order == Decimal.Format(m.order.value))
  }

  function TagsOf(client: Client, to: SyncStatus, batch: seq<Message>): seq<Tags> {
    if batch == [] then []
    else
      var init, m := TagsOf(client, to, batch[..|batch| - 1]), batch[|batch| - 1];
      if client.serialize(m.(syncStatus := to)).None? then init else init + [TagsFor(m, to)]
  }

  predicate Serializable(client: Client, to: SyncStatus, m: Message) {
    client.serialize(m.(syncStatus := to)).Some?
  }

  /** Patch by patch and tag by tag, what is sent stands for the members at positions `from`. */
  ghost predicate SentFor(client: Client, to: SyncStatus, batch: seq<Message>, from: seq<nat>,
                          patches: seq<Patch>, tags: seq<Tags>)
  {
    && |patches| == |tags| == |from|
    && forall k :: 0 <= k < |from| ==>
         from[k] < |batch| && IsPatchOf(client, to, batch[from[k]], patches[k], tags[k])
  }

  /** `from` lists the positions before `n` whose members can be serialized, in order. */
  ghost predicate SerializablePositions(client: Client, to: SyncStatus, batch: seq<Message>, n: nat, from: seq<nat>)
    requires n <= |batch|
  {
    && (forall j, k :: 0 <= j < k < |from| ==> from[j] < from[k])
    && forall i: nat {:trigger i in from} :: i in from <==> i < n && Serializable(client, to, batch[i])
  }

  lemma NextPosition(client: Client, to: SyncStatus, batch: seq<Message>, n: nat, from: seq<nat>)
    requires n < |batch| && SerializablePositions(client, to, batch, n, from)
    ensures SerializablePositions(client, to, batch, n + 1,
                                  if Serializable(client, to, batch[n]) then from + [n] else from)
  {
    forall k | 0 <= k < |from|
      ensures from[k] < n
    {
      assert from[k] in from;
    }
    assert forall i: nat :: i in from + [n] <==> i in from || i == n;
  }

  lemma NextPatch(client: Client, to: SyncStatus, batch: seq<Message>, n: nat, from: seq<nat>)
    requires n < |batch|
    requires SentFor(client, to, batch, from, PatchesOf(client, to, batch[..n]), TagsOf(client, to, batch[..n]))
    ensures SentFor(client, to, batch, if Serializable(client, to, batch[n]) then from + [n] else from,
                    PatchesOf(client, to, batch[..n + 1]), TagsOf(client, to, batch[..n + 1]))
  {
    assert batch[..n + 1][..n] == batch[..n] && batch[..n + 1][n] == batch[n];
  }

  lemma {:induction false} PatchesFollowBatch(client: Client, to: SyncStatus, batch: seq<Message>, n: nat)
    returns (from: seq<nat>)
    requires n <= |batch|
    ensures SerializablePositions(client, to, batch, n, from)
    ensures SentFor(client, to, batch, from, PatchesOf(client, to, batch[..n]), TagsOf(client, to, batch[..n]))
  {
    from := [];
    if n > 0 {
      var before := PatchesFollowBatch(client, to, batch, n - 1);
      NextPosition(client, to, batch, n - 1, before);
      NextPatch(client, to, batch, n - 1, before);
      from := if Serializable(client, to, batch[n - 1]) then before + [n - 1] else before;
    }
  }

  function MarkOne(s: Store, m: Message, response: seq<StoredPatch>, to: SyncStatus, now: Timestamp): Store {
    match GetPatchId(response, Identifier(m.id))
    case None => s
    case Some(p) => OrElse(UpdateSyncStatus(s, m.id, to, Some(p), now), s)
  }

  /** `clock(i)` is read when message `i` is marked. */
  function MarkAll(s: Store, batch: seq<Message>, response: seq<StoredPatch>, to: SyncStatus, clock: nat -> Timestamp)
    : Store
  {
    if batch == [] then s
    else
      var n := |batch| - 1;
      MarkOne(MarkAll(s, batch[..n], response, to, clock), batch[n], response, to, clock(n))
  }

  /** What one phase does with its batch. */
  function UploadAndMark(s: Store, batch: seq<Message>, to: SyncStatus, client: Client, clock: nat -> Timestamp)
    : (Store, Result<(), SyncError>)
  {
    var patches := PatchesOf(client, to, batch);
    if patches == [] then (s, Ok(()))
    else
      match client.storeQuilt(patches, TagsOf(client, to, batch))
      case None => (s, Err(UploadFailed))
      case Some(response) => (MarkAll(s, batch, response, to, clock), Ok(()))
  }

  /** What a cycle takes from its three phases. */
  datatype Batches = Batches(created: seq<Message>, updated: seq<Message>, deleted: seq<Message>)

  /** What the outside contributes to a cycle: the publisher and the clock, at each phase. */
  datatype Outside = Outside(clients: SyncStatus -> Client, clocks: SyncStatus -> (nat -> Timestamp))

  function PhaseOn(s: Store, from: SyncStatus, o: Outside, batch: seq<Message>): (Store, Result<(), SyncError>) {
    UploadAndMark(s, batch, Target(from), o.clients(from), o.clocks(from))
  }

  function AfterPhase(s: Store, from: SyncStatus, o: Outside, batch: seq<Message>): Store {
    PhaseOn(s, from, o, batch).0
  }

  ghost predicate Cycle(s: Store, limit: nat, o: Outside, b: Batches, s': Store) {
    var s1 := AfterPhase(s, SyncPending, o, b.created);
    var s2 := AfterPhase(s1, UpdatePending, o, b.updated);
    && IsBatch(s, SyncPending, limit, b.created)
    && IsBatch(s1, UpdatePending, limit, b.updated)
    && IsBatch(s2, DeletePending, limit, b.deleted)
    && s' == AfterPhase(s2, DeletePending, o, b.deleted)
  }

  /** Cycle after cycle with nothing in between. */
  ghost predicate Cycles(stores: seq<Store>, limit: nat, outside: nat -> Outside, taken: seq<Batches>) {
    && |stores| == |taken| + 1
    && forall i {:trigger taken[i]} :: 0 <= i < |taken| ==> Cycle(stores[i], limit, outside(i), taken[i], stores[i + 1])
  }

  /** So many cycles lead from `first` to `last`. */
  ghost predicate Led(first: Store, stores: seq<Store>, limit: nat, outside: nat -> Outside, taken: seq<Batches>,
                      last: Store)
  {
    Cycles(stores, limit, outside, taken) && stores[0] == first && stores[|stores| - 1] == last
  }

  lemma NextCycle(first: Store, stores: seq<Store>, limit: nat, outside: nat -> Outside, taken: seq<Batches>,
                  last: Store, b: Batches, s: Store)
    requires Led(first, stores, limit, outside, taken, last) && Cycle(last, limit, outside(|taken|), b, s)
    ensures Led(first, stores + [s], limit, outside, taken + [b], s)
  {
  }

  class WalrusSyncService {
    const storage: InMemoryStorage
    const batchSize: nat
    const messageThreshold: nat

    constructor (storage: InMemoryStorage, configuredBatchSize: nat, messageThreshold: nat)
      ensures this.storage == storage && this.messageThreshold == messageThreshold
      ensures batchSize == if configuredBatchSize < 666 then configuredBatchSize else 666
    {
      this.storage := storage;
      this.batchSize := Min(configuredBatchSize, MAX_BATCH);
      this.messageThreshold := messageThreshold;
    }

    /** A patch and tags for each message that can be serialized; `from` says which those are. */
    static method BuildPatches(messages: seq<Message>, to: SyncStatus, client: Client)
      returns (patches: seq<Patch>, metadata: seq<Tags>, ghost from: seq<nat>)
      ensures patches == PatchesOf(client, to, messages) && metadata == TagsOf(client, to, messages)
      ensures SerializablePositions(client, to, messages, |messages|, from)
      ensures SentFor(client, to, messages, from, patches, metadata)
    {
      patches, metadata := [], [];
      for i := 0 to |messages|
        invariant patches == PatchesOf(client, to, messages[..i])
        invariant metadata == TagsOf(client, to, messages[..i])
      {
        assert messages[..i + 1][..i] == messages[..i];
        var m := messages[i];
        var data := client.serialize(m.(syncStatus := to));
        if data.Some? {
          metadata := metadata + [TagsFor(m, to)];
          patches := patches + [Patch(Identifier(m.id), data.value)];
        }
      }
      assert messages[..|messages|] == messages;
      from := PatchesFollowBatch(client, to, messages, |messages|);
    }

    method MarkMessage(m: Message, response: seq<StoredPatch>, to: SyncStatus, now: Timestamp)
      requires storage.Valid()
      modifies storage`Contents, storage.messages.Values
      ensures storage.Valid()
      ensures storage.Contents == MarkOne(old(storage.Contents), m, response, to, now)
    {
      var patchId := GetPatchId(response, Identifier(m.id));
      if patchId.Some? {
        var _ := storage.UpdateSyncStatus(m.id, to, patchId, now);
      }
    }

    /** One message after the other; an error of the store is logged and the next one starts. */
    method MarkMessages(messages: seq<Message>, response: seq<StoredPatch>, to: SyncStatus, clock: nat -> Timestamp)
      requires storage.Valid()
      modifies storage`Contents, storage.messages.Values
      ensures storage.Valid()
      ensures storage.Contents == MarkAll(old(storage.Contents), messages, response, to, clock)
    {
      for i := 0 to |messages|
        invariant storage.Valid()
        invariant storage.Contents == MarkAll(old(storage.Contents), messages[..i], response, to, clock)
      {
        assert messages[..i + 1][..i] == messages[..i];
        MarkMessage(messages[i], response, to, clock(i));
      }
      assert messages[..|messages|] == messages;
    }

    /** `batch` is what this call took from the store; a failed upload changes nothing. */
    method SyncMessages(from: SyncStatus, to: SyncStatus, client: Client, clock: nat -> Timestamp)
      returns (r: Result<(), SyncError>, ghost batch: seq<Message>)
      requires storage.Valid()
      modifies storage`Contents, storage.messages.Values
      ensures storage.Valid()
      ensures IsBatch(old(storage.Contents), from, batchSize, batch)
      ensures (storage.Contents, r) == UploadAndMark(old(storage.Contents), batch, to, client, clock)
    {
      var messages := storage.GetMessagesBySyncStatus(from, batchSize);
      batch := messages;
      if messages == [] {
        return Ok(()), batch;
      }
      var patches, metadata, _ := BuildPatches(messages, to, client);
      if patches == [] {
        return Ok(()), batch;
      }
      var response := client.storeQuilt(patches, metadata);
      if response.None? {
        return Err(UploadFailed), batch;
      }
      MarkMessages(messages, response.value, to, clock);
      r := Ok(());
    }

    method SyncPendingMessages(outside: Outside) returns (r: Result<(), SyncError>, ghost batch: seq<Message>)
      requires storage.Valid()
      modifies storage`Contents, storage.messages.Values
      ensures storage.Valid()
      ensures IsBatch(old(storage.Contents), SyncPending, batchSize, batch)
      ensures (storage.Contents, r) == PhaseOn(old(storage.Contents), SyncPending, outside, batch)
    {
      var client, clock := outside.clients(SyncPending), outside.clocks(SyncPending);
      ghost var before := storage.Contents;
      r, batch := SyncMessages(SyncPending, Synced, client, clock);
      assert PhaseOn(before, SyncPending, outside, batch) == UploadAndMark(before, batch, Synced, client, clock);
    }

    method SyncUpdatedMessages(outside: Outside) returns (r: Result<(), SyncError>, ghost batch: seq<Message>)
      requires storage.Valid()
      modifies storage`Contents, storage.messages.Values
      ensures storage.Valid()
      ensures IsBatch(old(storage.Contents), UpdatePending, batchSize, batch)
      ensures (storage.Contents, r) == PhaseOn(old(storage.Contents), UpdatePending, outside, batch)
    {
      var client, clock := outside.clients(UpdatePending), outside.clocks(UpdatePending);
      ghost var before := storage.Contents;
      r, batch := SyncMessages(UpdatePending, Updated, client, clock);
      assert PhaseOn(before, UpdatePending, outside, batch) == UploadAndMark(before, batch, Updated, client, clock);
    }

    method SyncDeletedMessages(outside: Outside) returns (r: Result<(), SyncError>, ghost batch: seq<Message>)
      requires storage.Valid()
      modifies storage`Contents, storage.messages.Values
      ensures storage.Valid()
      ensures IsBatch(old(storage.Contents), DeletePending, batchSize, batch)
      ensures (storage.Contents, r) == PhaseOn(old(storage.Contents), DeletePending, outside, batch)
    {
      var client, clock := outside.clients(DeletePending), outside.clocks(DeletePending);
      ghost var before := storage.Contents;
      r, batch := SyncMessages(DeletePending, Deleted, client, clock);
      assert PhaseOn(before, DeletePending, outside, batch) == UploadAndMark(before, batch, Deleted, client, clock);
    }

    /** All three workflows; an error in one is logged and the next one starts. */
    method RunCycle(outside: Outside) returns (ghost taken: Batches)
      requires storage.Valid()
      modifies storage`Contents, storage.messages.Values
      ensures storage.Valid()
      ensures Cycle(old(storage.Contents), batchSize, outside, taken, storage.Contents)
    {
      var _, created := SyncPendingMessages(outside);
      var _, updated := SyncUpdatedMessages(outside);
      var _, deleted := SyncDeletedMessages(outside);
      taken := Batches(created, updated, deleted);
    }

    /** The loop, on whatever the timer and the channel bring until the channel closes. */
    method Run(triggers: seq<Trigger>, outside: nat -> Outside)
      returns (fired: seq<nat>, ghost stores: seq<Store>, ghost taken: seq<Batches>)
      requires storage.Valid()
      modifies storage`Contents, storage.messages.Values
      ensures storage.Valid()
      ensures fired == Fired(messageThreshold, triggers)
      ensures |taken| == |fired| && Led(old(storage.Contents), stores, batchSize, outside, taken, storage.Contents)
    {
      fired, stores, taken := [], [storage.Contents], [];
      var messageCount := 0;
      for i := 0 to |triggers|
        invariant storage.Valid()
        invariant messageCount == Waiting(messageThreshold, triggers[..i])
        invariant fired == Fired(messageThreshold, triggers[..i])
        invariant Closed !in triggers[..i]
        invariant |taken| == |fired| && Led(old(storage.Contents), stores, batchSize, outside, taken, storage.Contents)
      {
        assert triggers[..i + 1][..i] == triggers[..i];
        match triggers[i] {
          case Tick =>
          case Notify =>
            messageCount := messageCount + 1;
            if messageThreshold == 0 || messageCount < messageThreshold {
              continue;
            }
          case Closed =>
            FiredStops(messageThreshold, triggers, i);
            return;
        }
        ghost var before := storage.Contents;
        ghost var batches := RunCycle(outside(|fired|));
        NextCycle(old(storage.Contents), stores, batchSize, outside, taken, before, batches, storage.Contents);
        stores, taken := stores + [storage.Contents], taken + [batches];
        fired := fired + [i];
        messageCount := 0;
      }
      assert triggers[..|triggers|] == triggers;
    }
  }
}
