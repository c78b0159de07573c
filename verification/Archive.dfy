/** The sync worker, the archive it fills and the user writes that run beside it.
    One transition is one lock acquisition or one network answer. */
module Archive {
  import opened Wrappers
  import opened Messages
  import opened Stores
  import opened Walrus

  datatype Worker =
    | Idle
    | Uploading(batch: seq<Message>)
    | Marking(batch: seq<Message>, response: seq<StoredPatch>, next: nat)

  /** `messages` and `archive` are what the system holds. The rest is history:
      `written`, each message as its last user write left it; `touched`, the ids written
      since the last snapshot; `lost`, the ids whose last write was marked over by a batch
      snapshotted before it. */
  datatype Core = Core(
    messages: map<Uuid, Message>,
    worker: Worker,
    archive: map<PatchId, Message>,
    written: map<Uuid, Message>,
    touched: set<Uuid>,
    lost: set<Uuid>)

  // ---- Transitions ----

  /** A create, edit or delete takes effect. */
  ghost predicate CanWrite(c: Core, m: Message) {
    && IsPending(m.syncStatus)
    && (m.id in c.messages ==> SameIdentity(c.messages[m.id], m))
  }

  function Write(c: Core, m: Message): Core {
    c.(messages := c.messages[m.id := m],
       written := c.written[m.id := m],
       touched := c.touched + {m.id},
       lost := c.lost - {m.id})
  }

  /** Clones of distinct messages that wait in one pending status. */
  ghost predicate CanSnapshot(c: Core, batch: seq<Message>) {
    && c.worker.Idle?
    && batch != []
    && DistinctIds(batch)
    && forall m :: m in batch ==> m.id in c.messages && c.messages[m.id] == m
                                  && IsPending(m.syncStatus) && m.syncStatus == batch[0].syncStatus
  }

  function Snapshot(c: Core, batch: seq<Message>): Core {
    c.(worker := Uploading(batch), touched := {})
  }

  /** The publisher stored some of the patches (`added` maps patch ids to positions in the
      batch) and its answer, if any arrived, names some of those. A patch id is bound to one
      content for good: storing the same content again may return the same id. */
  ghost predicate CanUpload(c: Core, added: map<PatchId, nat>, response: Option<seq<StoredPatch>>) {
    && c.worker.Uploading?
    && (forall p :: p in added ==> added[p] < |c.worker.batch|)
    && (forall p :: p in added && p in c.archive ==> c.archive[p] == ForWalrus(c.worker.batch[added[p]]))
    && (response.Some? ==> forall sp :: sp in response.value ==>
          sp.patchId in added && sp.identifier == Identifier(c.worker.batch[added[sp.patchId]].id))
  }

  function Upload(c: Core, added: map<PatchId, nat>, response: Option<seq<StoredPatch>>): Core
    requires c.worker.Uploading?
    requires forall p :: p in added ==> added[p] < |c.worker.batch|
  {
    c.(archive := c.archive + map p | p in added :: ForWalrus(c.worker.batch[added[p]]),
       worker := match response
                 case None => Idle
                 case Some(r) => Marking(c.worker.batch, r, 0))
  }

  /** The worker handles the next message of its batch. */
  predicate CanMark(c: Core) {
    c.worker.Marking? && c.worker.next < |c.worker.batch|
  }

  function Mark(c: Core, now: Timestamp): Core
    requires CanMark(c)
  {
    var m := c.worker.batch[c.worker.next];
    var rest := if c.worker.next + 1 < |c.worker.batch| then c.worker.(next := c.worker.next + 1) else Idle;
    match GetPatchId(c.worker.response, Identifier(m.id))
    case None => c.(worker := rest)
    case Some(p) =>
      if m.id !in c.messages then c.(worker := rest)
      else
        c.(messages := c.messages[m.id := WithStatus(c.messages[m.id], Target(m.syncStatus), Some(p), now)],
           worker := rest,
           lost := if m.id in c.touched then c.lost + {m.id} else c.lost)
  }

  // ---- What holds in every interleaving, whatever the clock does ----

  ghost predicate Identities(c: Core) {
    && c.written.Keys == c.messages.Keys
    && (forall id {:trigger c.messages[id]} {:trigger c.written[id]} :: id in c.messages ==>
          && c.written[id].id == id
          && SameIdentity(c.messages[id], c.written[id])
          && c.messages[id].content == c.written[id].content
          && IsPending(c.written[id].syncStatus))
    && (forall p {:trigger c.archive[p]} :: p in c.archive ==>
          c.archive[p].id in c.messages && SameIdentity(c.archive[p], c.messages[c.archive[p].id]))
  }

  /** The members of the batch that the worker has not reached yet. */
  function Unmarked(w: Worker): seq<Message> {
    match w
    case Idle => []
    case Uploading(batch) => batch
    case Marking(batch, _, next) => if next <= |batch| then batch[next..] else []
  }

  /** The batch holds old clones of stored messages, each id once. */
  ghost predicate BatchKnown(c: Core) {
    !c.worker.Idle? ==>
      && DistinctIds(c.worker.batch)
      && forall m :: m in c.worker.batch ==>
           m.id in c.messages && SameIdentity(m, c.messages[m.id]) && IsPending(m.syncStatus)
  }

  /** What was not written since the snapshot and not marked yet is still as it was snapshotted. */
  ghost predicate UnmarkedCurrent(c: Core) {
    && (forall m :: m in Unmarked(c.worker) && m.id !in c.touched ==>
          m.id in c.messages && m.id in c.written && c.messages[m.id] == m && c.written[m.id] == m)
    && (c.worker.Uploading? ==> forall m :: m in c.worker.batch ==> m.id !in c.lost)
  }

  /** Every patch id in the answer leads to the archived copy of the message it names. */
  ghost predicate AnswerHonest(c: Core) {
    c.worker.Marking? ==> forall sp :: sp in c.worker.response ==>
      sp.patchId in c.archive
      && exists m :: m in c.worker.batch && sp.identifier == Identifier(m.id) && c.archive[sp.patchId] == ForWalrus(m)
  }

  ghost predicate BatchAgrees(c: Core) {
    BatchKnown(c) && UnmarkedCurrent(c) && AnswerHonest(c)
  }

  /** A pending message is as its last write left it. Any other message has an archived copy
      of its own under its patch id, with its own status, and that copy is its last written
      version unless the write was lost. */
  ghost predicate MessageAgrees(c: Core, id: Uuid)
    requires id in c.messages && id in c.written
  {
    var m := c.messages[id];
    if IsPending(m.syncStatus) then m == c.written[id] && id !in c.lost
    else
      && m.quiltPatchId.Some?
      && m.quiltPatchId.value in c.archive
      && var copy := c.archive[m.quiltPatchId.value];
         copy.id == id
         && copy.syncStatus == m.syncStatus
         && (id !in c.lost ==> copy == ForWalrus(c.written[id]))
  }

  ghost predicate Agrees(c: Core) {
    && Identities(c)
    && BatchAgrees(c)
    && c.lost <= c.messages.Keys
    && forall id :: id in c.messages ==> MessageAgrees(c, id)
  }

  // ---- Each transition keeps it ----

  lemma WriteKeepsIdentities(c: Core, m: Message)
    requires Identities(c) && CanWrite(c, m)
    ensures Identities(Write(c, m))
  {
  }

  lemma WriteKeepsBatch(c: Core, m: Message)
    requires Identities(c) && BatchAgrees(c) && CanWrite(c, m)
    ensures BatchAgrees(Write(c, m))
  {
    var c' := Write(c, m);
    assert c'.worker == c.worker;
    forall b | b in Unmarked(c.worker) && b.id !in c'.touched
      ensures b.id in c'.messages && c'.messages[b.id] == b && c'.written[b.id] == b
    {
      assert b.id != m.id && b.id !in c.touched;
    }
  }

  lemma WriteKeepsAgreement(c: Core, m: Message)
    requires Agrees(c) && CanWrite(c, m)
    ensures Agrees(Write(c, m))
  {
    WriteKeepsIdentities(c, m);
    WriteKeepsBatch(c, m);
    var c' := Write(c, m);
    forall id | id in c'.messages
      ensures MessageAgrees(c', id)
    {
      if id != m.id {
        assert MessageAgrees(c, id);
      }
    }
  }

  lemma SnapshotKeepsAgreement(c: Core, batch: seq<Message>)
    requires Agrees(c) && CanSnapshot(c, batch)
    ensures Agrees(Snapshot(c, batch))
  {
    var c' := Snapshot(c, batch);
    forall m | m in batch
      ensures c.written[m.id] == m && m.id !in c.lost && SameIdentity(m, c.messages[m.id])
    {
      assert MessageAgrees(c, m.id);
    }
    assert BatchAgrees(c');
    forall id | id in c'.messages
      ensures MessageAgrees(c', id)
    {
      assert MessageAgrees(c, id);
    }
  }

  lemma UploadKeepsAgreement(c: Core, added: map<PatchId, nat>, response: Option<seq<StoredPatch>>)
    requires Agrees(c) && CanUpload(c, added, response)
    ensures Agrees(Upload(c, added, response))
  {
    var c' := Upload(c, added, response);
    forall p | p in c.archive
      ensures p in c'.archive && c'.archive[p] == c.archive[p]
    {
    }
    UploadKeepsIdentities(c, added, response);
    UploadKeepsBatch(c, added, response);
    forall id | id in c'.messages
      ensures MessageAgrees(c', id)
    {
      assert MessageAgrees(c, id);
    }
  }

  lemma UploadKeepsIdentities(c: Core, added: map<PatchId, nat>, response: Option<seq<StoredPatch>>)
    requires Identities(c) && BatchAgrees(c) && CanUpload(c, added, response)
    ensures Identities(Upload(c, added, response))
  {
    var c' := Upload(c, added, response);
    forall p | p in c'.archive
      ensures c'.archive[p].id in c'.messages && SameIdentity(c'.archive[p], c'.messages[c'.archive[p].id])
    {
      if p in added {
        var m := c.worker.batch[added[p]];
        assert m in c.worker.batch && c'.archive[p] == ForWalrus(m);
      } else {
        assert c'.archive[p] == c.archive[p];
      }
    }
  }

  lemma UploadKeepsBatch(c: Core, added: map<PatchId, nat>, response: Option<seq<StoredPatch>>)
    requires BatchAgrees(c) && CanUpload(c, added, response)
    ensures BatchAgrees(Upload(c, added, response))
  {
    var c' := Upload(c, added, response);
    if response.Some? {
      assert Unmarked(c'.worker) == c.worker.batch;
      forall sp | sp in response.value
        ensures sp.patchId in c'.archive
        ensures exists m :: m in c.worker.batch && sp.identifier == Identifier(m.id)
                            && c'.archive[sp.patchId] == ForWalrus(m)
      {
        var m := c.worker.batch[added[sp.patchId]];
        assert m in c.worker.batch && c'.archive[sp.patchId] == ForWalrus(m);
      }
    }
  }

  /** The patch id the worker finds for a message is that of the message's own copy. */
  lemma FoundPatchIsOwnCopy(c: Core, m: Message)
    requires BatchKnown(c) && AnswerHonest(c) && c.worker.Marking? && m in c.worker.batch
    requires GetPatchId(c.worker.response, Identifier(m.id)).Some?
    ensures var p := GetPatchId(c.worker.response, Identifier(m.id)).value;
            p in c.archive && c.archive[p] == ForWalrus(m)
  {
    var sp := StoredPatch(Identifier(m.id), GetPatchId(c.worker.response, Identifier(m.id)).value);
    assert sp in c.worker.response;
    var b :| b in c.worker.batch && sp.identifier == Identifier(b.id) && c.archive[sp.patchId] == ForWalrus(b);
    IdentifierInjective(b.id, m.id);
    SameIdSameMember(c.worker.batch, b, m);
  }

  lemma SameIdSameMember(ms: seq<Message>, a: Message, b: Message)
    requires DistinctIds(ms) && a in ms && b in ms && a.id == b.id
    ensures a == b
  {
    var i :| 0 <= i < |ms| && ms[i] == a;
    var j :| 0 <= j < |ms| && ms[j] == b;
    assert i == j;
  }

  /** A mark touches one message, and in it only the status, the time and the patch id. */
  lemma MarkEffect(c: Core, now: Timestamp)
    requires CanMark(c)
    ensures var c' := Mark(c, now);
            && c'.messages.Keys == c.messages.Keys
            && c'.archive == c.archive && c'.written == c.written && c'.touched == c.touched
            && (forall id :: id in c.messages ==>
                  SameIdentity(c'.messages[id], c.messages[id]) && c'.messages[id].content == c.messages[id].content)
            && (forall id :: id in c.messages && id != c.worker.batch[c.worker.next].id ==>
                c'.messages[id] == c.messages[id])
    ensures || Mark(c, now).worker.Idle?
            || (Mark(c, now).worker == c.worker.(next := c.worker.next + 1) && CanMark(Mark(c, now)))
    ensures c.lost <= Mark(c, now).lost <= c.lost + {c.worker.batch[c.worker.next].id}
  {
    var m := c.worker.batch[c.worker.next];
    if GetPatchId(c.worker.response, Identifier(m.id)).None? || m.id !in c.messages {
      assert Mark(c, now).messages == c.messages && Mark(c, now).lost == c.lost;
    }
  }

  lemma MarkKeepsIdentities(c: Core, now: Timestamp)
    requires Identities(c) && CanMark(c)
    ensures Identities(Mark(c, now))
  {
    MarkEffect(c, now);
  }

  lemma MarkKeepsUnmarked(c: Core, now: Timestamp)
    requires BatchKnown(c) && UnmarkedCurrent(c) && CanMark(c)
    ensures UnmarkedCurrent(Mark(c, now))
  {
    MarkEffect(c, now);
    var c' := Mark(c, now);
    if c'.worker.Marking? {
      var batch, k := c.worker.batch, c.worker.next;
      forall b | b in Unmarked(c'.worker)
        ensures b in Unmarked(c.worker) && b.id != batch[k].id
      {
        var i :| 0 <= i < |batch[k + 1..]| && batch[k + 1..][i] == b;
        assert batch[k..][i + 1] == batch[k + 1 + i] == b;
      }
    }
  }

  lemma MarkKeepsBatch(c: Core, now: Timestamp)
    requires BatchAgrees(c) && CanMark(c)
    ensures BatchAgrees(Mark(c, now))
  {
    MarkKeepsUnmarked(c, now);
    MarkEffect(c, now);
  }

  /** A message without a patch id in the answer is passed over. */
  lemma MarkPassesOver(c: Core, now: Timestamp)
    requires CanMark(c) && GetPatchId(c.worker.response, Identifier(c.worker.batch[c.worker.next].id)).None?
    ensures Mark(c, now) == c.(worker := Mark(c, now).worker)
  {
  }

  /** Any other takes the status its batch was uploaded with, and the patch id. */
  lemma MarkMoves(c: Core, now: Timestamp)
    requires CanMark(c) && c.worker.batch[c.worker.next].id in c.messages
    requires GetPatchId(c.worker.response, Identifier(c.worker.batch[c.worker.next].id)).Some?
    ensures var m, c' := c.worker.batch[c.worker.next], Mark(c, now);
            && m.id in c'.messages
            && c'.messages[m.id].syncStatus == Target(m.syncStatus)
            && c'.messages[m.id].quiltPatchId == GetPatchId(c.worker.response, Identifier(m.id))
            && c'.archive == c.archive && c'.written == c.written
            && (m.id in c.touched ==> m.id in c'.lost)
  {
  }

  lemma MovedAgrees(c: Core, now: Timestamp)
    requires CanMark(c)
    requires c.worker.batch[c.worker.next].id in c.messages && c.worker.batch[c.worker.next].id in c.written
    requires IsPending(c.worker.batch[c.worker.next].syncStatus)
    requires var m := c.worker.batch[c.worker.next];
             var found := GetPatchId(c.worker.response, Identifier(m.id));
             && found.Some? && found.value in c.archive && c.archive[found.value] == ForWalrus(m)
             && (m.id !in c.touched ==> c.written[m.id] == m)
    ensures c.worker.batch[c.worker.next].id in Mark(c, now).messages
    ensures c.worker.batch[c.worker.next].id in Mark(c, now).written
    ensures MessageAgrees(Mark(c, now), c.worker.batch[c.worker.next].id)
  {
    MarkMoves(c, now);
  }

  /** What a mark leaves behind in the message it handles. */
  lemma MarkedAgrees(c: Core, now: Timestamp)
    requires Identities(c) && BatchAgrees(c) && CanMark(c)
    requires c.worker.batch[c.worker.next].id in c.messages ==> MessageAgrees(c, c.worker.batch[c.worker.next].id)
    ensures c.worker.batch[c.worker.next].id in c.messages
    ensures MessageAgrees(Mark(c, now), c.worker.batch[c.worker.next].id)
  {
    var m := c.worker.batch[c.worker.next];
    assert m in c.worker.batch;
    assert m.id in c.messages && m.id in c.written && IsPending(m.syncStatus);
    if GetPatchId(c.worker.response, Identifier(m.id)).Some? {
      FoundPatchIsOwnCopy(c, m);
      assert m.id !in c.touched ==> c.written[m.id] == m by {
        assert m == c.worker.batch[c.worker.next..][0];
        assert m in Unmarked(c.worker);
      }
      MovedAgrees(c, now);
    } else {
      MarkPassesOver(c, now);
    }
  }

  lemma MarkKeepsAgreement(c: Core, now: Timestamp)
    requires Agrees(c) && CanMark(c)
    ensures Agrees(Mark(c, now))
  {
    MarkKeepsIdentities(c, now);
    MarkKeepsBatch(c, now);
    MarkEffect(c, now);
    var marked := c.worker.batch[c.worker.next].id;
    assert c.worker.batch[c.worker.next] in c.worker.batch;
    assert MessageAgrees(c, marked);
    MarkedAgrees(c, now);
    forall id | id in c.messages && id != marked
      ensures MessageAgrees(Mark(c, now), id)
    {
      assert MessageAgrees(c, id);
    }
  }

  // ---- What a strictly increasing clock adds ----

  /** No patch of this message is as recent as its last write. */
  ghost predicate PatchesOlder(c: Core, id: Uuid)
    requires id in c.written
  {
    forall p :: p in c.archive && c.archive[p].id == id ==> c.archive[p].updatedAt < c.written[id].updatedAt
  }

  /** `m`, a clone or a copy, is not newer than the last write; if as new, it is that version. */
  ghost predicate NotNewer(m: Message, written: Message) {
    m.updatedAt < written.updatedAt || (m.updatedAt == written.updatedAt && m == written)
  }

  ghost predicate WritesPast(c: Core, clock: Timestamp) {
    forall id :: id in c.written ==> c.written[id].updatedAt <= clock
  }

  ghost predicate PatchesTimed(c: Core) {
    forall p :: p in c.archive ==>
      c.archive[p].id in c.written && NotNewer(c.archive[p], ForWalrus(c.written[c.archive[p].id]))
  }

  ghost predicate BatchTimed(c: Core) {
    c.worker.Uploading? ==> forall m :: m in c.worker.batch ==>
      && m.id in c.written
      && NotNewer(m, c.written[m.id])
      && (m.id in c.touched ==> m.updatedAt < c.written[m.id].updatedAt)
  }

  ghost predicate OverwrittenOlder(c: Core) {
    forall id :: id in c.written && (id in c.touched || id in c.lost) ==> PatchesOlder(c, id)
  }

  ghost predicate Timed(c: Core, clock: Timestamp) {
    WritesPast(c, clock) && PatchesTimed(c) && BatchTimed(c) && OverwrittenOlder(c)
  }

  /** A write that is newer than everything before it, or the first one of its message. */
  ghost predicate NewerWrite(c: Core, m: Message, clock: Timestamp, clock': Timestamp) {
    clock <= clock' && m.updatedAt <= clock' && (m.id in c.messages ==> clock < m.updatedAt)
  }

  lemma WriteKeepsPatchesTimed(c: Core, m: Message, clock: Timestamp, clock': Timestamp)
    requires Identities(c) && WritesPast(c, clock) && PatchesTimed(c) && NewerWrite(c, m, clock, clock')
    ensures PatchesTimed(Write(c, m))
    ensures PatchesOlder(Write(c, m), m.id)
  {
    var c' := Write(c, m);
    assert c'.archive == c.archive;
    forall p | p in c.archive
      ensures c.archive[p].id in c'.written && NotNewer(c.archive[p], ForWalrus(c'.written[c.archive[p].id]))
      ensures c.archive[p].id == m.id ==> c.archive[p].updatedAt < m.updatedAt
    {
      assert NotNewer(c.archive[p], ForWalrus(c.written[c.archive[p].id]));
    }
  }

  lemma WriteKeepsBatchTimed(c: Core, m: Message, clock: Timestamp, clock': Timestamp)
    requires Identities(c) && WritesPast(c, clock) && BatchTimed(c) && NewerWrite(c, m, clock, clock')
    ensures BatchTimed(Write(c, m))
  {
    if c.worker.Uploading? {
      forall b | b in c.worker.batch && b.id == m.id
        ensures b.updatedAt < m.updatedAt
      {
        assert NotNewer(b, c.written[m.id]);
      }
    }
  }

  lemma WriteKeepsTimed(c: Core, m: Message, clock: Timestamp, clock': Timestamp)
    requires Identities(c) && Timed(c, clock) && NewerWrite(c, m, clock, clock')
    ensures Timed(Write(c, m), clock')
  {
    WriteKeepsPatchesTimed(c, m, clock, clock');
    WriteKeepsBatchTimed(c, m, clock, clock');
    var c' := Write(c, m);
    forall id | id in c'.written && (id in c'.touched || id in c'.lost) && id != m.id
      ensures PatchesOlder(c', id)
    {
      assert PatchesOlder(c, id);
    }
  }

  lemma SnapshotKeepsTimed(c: Core, batch: seq<Message>, clock: Timestamp)
    requires Agrees(c) && CanSnapshot(c, batch) && Timed(c, clock)
    ensures Timed(Snapshot(c, batch), clock)
  {
    var c' := Snapshot(c, batch);
    forall m | m in batch
      ensures m.id in c.written && c.written[m.id] == m
    {
      assert MessageAgrees(c, m.id);
    }
    forall id | id in c'.written && id in c'.lost
      ensures PatchesOlder(c', id)
    {
      assert PatchesOlder(c, id);
    }
  }

  /** A patch of this upload is timed like the clone it was made from. */
  lemma UploadedPatch(c: Core, added: map<PatchId, nat>, response: Option<seq<StoredPatch>>, p: PatchId)
    requires UnmarkedCurrent(c) && BatchTimed(c) && CanUpload(c, added, response) && p in added
    ensures var copy := Upload(c, added, response).archive[p];
            && copy.id in c.written && copy.id !in c.lost
            && NotNewer(copy, ForWalrus(c.written[copy.id]))
            && (copy.id in c.touched ==> copy.updatedAt < c.written[copy.id].updatedAt)
  {
    var m := c.worker.batch[added[p]];
    assert m in c.worker.batch && Upload(c, added, response).archive[p] == ForWalrus(m);
  }

  lemma UploadKeepsTimed(c: Core, added: map<PatchId, nat>, response: Option<seq<StoredPatch>>, clock: Timestamp)
    requires UnmarkedCurrent(c) && CanUpload(c, added, response) && Timed(c, clock)
    ensures Timed(Upload(c, added, response), clock)
  {
    var c' := Upload(c, added, response);
    forall p | p in c'.archive
      ensures p in added || (p in c.archive && c'.archive[p] == c.archive[p])
    {
    }
    forall p | p in added
      ensures c'.archive[p].id in c.written && NotNewer(c'.archive[p], ForWalrus(c.written[c'.archive[p].id]))
    {
      UploadedPatch(c, added, response, p);
    }
    forall id | id in c'.written && (id in c'.touched || id in c'.lost)
      ensures PatchesOlder(c', id)
    {
      assert PatchesOlder(c, id);
      forall p | p in added && c'.archive[p].id == id
        ensures c'.archive[p].updatedAt < c'.written[id].updatedAt
      {
        UploadedPatch(c, added, response, p);
      }
    }
  }

  lemma MarkKeepsTimed(c: Core, now: Timestamp, clock: Timestamp)
    requires CanMark(c) && Timed(c, clock)
    ensures Timed(Mark(c, now), clock)
  {
    MarkEffect(c, now);
    var c' := Mark(c, now);
    forall id | id in c'.written && (id in c'.touched || id in c'.lost)
      ensures PatchesOlder(c', id)
    {
      assert PatchesOlder(c, id);
    }
  }

  // ---- What the archive says about the store ----

  /** A message that is not pending has an archived copy under its patch id, with its own id,
      group, order, sender and status; and of its last written version if that was not lost. */
  lemma OwnCopy(c: Core, id: Uuid)
    requires Agrees(c) && id in c.messages && !IsPending(c.messages[id].syncStatus)
    ensures var m := c.messages[id];
            && m.quiltPatchId.Some? && m.quiltPatchId.value in c.archive
            && var copy := c.archive[m.quiltPatchId.value];
               && SameIdentity(copy, m) && copy.syncStatus == m.syncStatus
               && (id !in c.lost ==> copy == ForWalrus(c.written[id]) && copy.content == m.content)
  {
    assert MessageAgrees(c, id);
  }

  /** On a clock that moves on, a lost write is in no copy. */
  lemma LostIsNowhere(c: Core, clock: Timestamp, id: Uuid, p: PatchId)
    requires Timed(c, clock) && id in c.lost && id in c.written && p in c.archive && c.archive[p].id == id
    ensures c.archive[p] != ForWalrus(c.written[id])
  {
    assert PatchesOlder(c, id);
  }

  /** The documented reader: the latest patch of each message, unless it is a deletion. */
  ghost predicate IsLatest(archive: map<PatchId, Message>, copy: Message) {
    && copy in archive.Values
    && forall p :: p in archive && archive[p].id == copy.id ==> archive[p].updatedAt <= copy.updatedAt
  }

  ghost predicate Reads(archive: map<PatchId, Message>, copy: Message) {
    IsLatest(archive, copy) && !copy.syncStatus.Deleted?
  }

  /** Everything in a message except the time and the patch id that archiving itself changes. */
  function Visible(m: Message): Message {
    m.(updatedAt := 0, quiltPatchId := None)
  }

  ghost predicate Drained(c: Core) {
    forall id :: id in c.messages ==> !IsPending(c.messages[id].syncStatus)
  }

  /** For each archived message the latest patch is its last written version exactly when
      that write was not lost. */
  lemma LatestIffNotLost(c: Core, clock: Timestamp, copy: Message)
    requires Agrees(c) && Timed(c, clock) && Drained(c)
    requires IsLatest(c.archive, copy)
    ensures copy.id in c.messages
    ensures copy == ForWalrus(c.written[copy.id]) <==> copy.id !in c.lost
  {
    var p :| p in c.archive && c.archive[p] == copy;
    var id := copy.id;
    OwnCopy(c, id);
    if id in c.lost {
      LostIsNowhere(c, clock, id, p);
    } else {
      var own := c.messages[id].quiltPatchId.value;
      assert c.archive[own].updatedAt <= copy.updatedAt;
      assert NotNewer(copy, ForWalrus(c.written[id]));
    }
  }

  lemma LastVersionVisible(c: Core, id: Uuid)
    requires Agrees(c)
    requires id in c.messages && !IsPending(c.messages[id].syncStatus) && id !in c.lost
    ensures Visible(ForWalrus(c.written[id])) == Visible(c.messages[id])
  {
    assert MessageAgrees(c, id);
  }

  /** Once nothing is pending and no write was lost, the reader yields exactly the stored
      messages that are not deleted, each with its current content, group, order and sender,
      however many duplicate uploads failed or partial answers have caused. */
  lemma ReaderSeesTheStore(c: Core, clock: Timestamp)
    requires Agrees(c) && Timed(c, clock) && Drained(c) && c.lost == {}
    ensures forall copy :: Reads(c.archive, copy) ==>
              copy.id in c.messages && !c.messages[copy.id].syncStatus.Deleted?
              && Visible(copy) == Visible(c.messages[copy.id])
    ensures forall id :: id in c.messages && !c.messages[id].syncStatus.Deleted? ==>
              exists copy :: Reads(c.archive, copy) && Visible(copy) == Visible(c.messages[id])
    ensures forall copy, copy' :: Reads(c.archive, copy) && Reads(c.archive, copy') && copy.id == copy'.id ==>
        copy == copy'
  {
    forall copy | Reads(c.archive, copy)
      ensures copy.id in c.messages && copy == ForWalrus(c.written[copy.id])
      ensures Visible(copy) == Visible(c.messages[copy.id])
    {
      LatestIffNotLost(c, clock, copy);
      LastVersionVisible(c, copy.id);
    }
    forall id | id in c.messages && !c.messages[id].syncStatus.Deleted?
      ensures exists copy :: Reads(c.archive, copy) && Visible(copy) == Visible(c.messages[id])
    {
      OwnCopy(c, id);
      LastVersionVisible(c, id);
      var own := c.messages[id].quiltPatchId.value;
      var copy := c.archive[own];
      forall p | p in c.archive && c.archive[p].id == id
        ensures c.archive[p].updatedAt <= copy.updatedAt
      {
        assert NotNewer(c.archive[p], ForWalrus(c.written[id]));
      }
      assert Reads(c.archive, copy);
    }
  }
}
