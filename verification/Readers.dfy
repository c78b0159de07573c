/** When readers of the archive see the live store, with no assumption on when users write. */
module Readers {
  import opened Wrappers
  import opened Messages
  import opened Walrus
  import opened Archive
  import opened Relay
  import opened RelayInvariants
  import opened ArchiveRuns

  // ---- A message's own copy is the latest of its id ----

  /** While a batch is being uploaded its messages all still wait. */
  ghost predicate UploadingWaits(c: Core) {
    c.worker.Uploading? ==> forall m :: m in c.worker.batch ==>
      m.id in c.messages && IsPending(c.messages[m.id].syncStatus)
  }

  /** No copy of `m`'s id is newer than `m`; one as new is that of `m` itself. */
  ghost predicate NothingNewer(archive: map<PatchId, Message>, m: Message) {
    forall p {:trigger archive[p]} :: p in archive && archive[p].id == m.id ==> NotNewer(archive[p], m)
  }

  ghost predicate BatchNewest(c: Core) {
    !c.worker.Idle? ==> forall m :: m in c.worker.batch ==> NothingNewer(c.archive, ForWalrus(m))
  }

  ghost predicate OwnNewest(c: Core, id: Uuid)
    requires id in c.messages
  {
    !IsPending(c.messages[id].syncStatus) ==>
      && c.messages[id].quiltPatchId.Some? && c.messages[id].quiltPatchId.value in c.archive
      && c.archive[c.messages[id].quiltPatchId.value].id == id
      && NothingNewer(c.archive, c.archive[c.messages[id].quiltPatchId.value])
  }

  ghost predicate Newest(c: Core) {
    UploadingWaits(c) && BatchNewest(c) && forall id {:trigger OwnNewest(c, id)} :: id in c.messages ==>
        OwnNewest(c, id)
  }

  lemma WriteKeepsNewest(c: Core, m: Message)
    requires Newest(c) && CanWrite(c, m)
    ensures Newest(Write(c, m))
  {
    forall id | id in Write(c, m).messages
      ensures OwnNewest(Write(c, m), id)
    {
      if id != m.id {
        assert OwnNewest(c, id);
      }
    }
  }

  lemma SnapshotKeepsNewest(c: Core, batch: seq<Message>, clock: Timestamp)
    requires Newest(c) && Agrees(c) && Timed(c, clock) && CanSnapshot(c, batch)
    ensures Newest(Snapshot(c, batch))
  {
    forall m | m in batch
      ensures NothingNewer(c.archive, ForWalrus(m))
    {
      assert MessageAgrees(c, m.id);
    }
    forall id | id in c.messages
      ensures OwnNewest(Snapshot(c, batch), id)
    {
      assert OwnNewest(c, id);
    }
  }

  lemma UploadKeepsBatchNewest(c: Core, added: map<PatchId, nat>, response: Option<seq<StoredPatch>>, m: Message)
    requires BatchNewest(c) && BatchKnown(c) && CanUpload(c, added, response) && m in c.worker.batch
    ensures NothingNewer(Upload(c, added, response).archive, ForWalrus(m))
  {
    var archive := Upload(c, added, response).archive;
    forall p | p in archive && archive[p].id == m.id
      ensures NotNewer(archive[p], ForWalrus(m))
    {
      if p in added {
        var b := c.worker.batch[added[p]];
        assert b in c.worker.batch;
        SameIdSameMember(c.worker.batch, b, m);
      } else {
        assert archive[p] == c.archive[p];
      }
    }
  }

  /** The archive only gains copies of batch members, which all still wait. */
  lemma UploadKeepsOwnNewest(c: Core, added: map<PatchId, nat>, response: Option<seq<StoredPatch>>, id: Uuid)
    requires CanUpload(c, added, response) && UploadingWaits(c) && id in c.messages && OwnNewest(c, id)
    ensures OwnNewest(Upload(c, added, response), id)
  {
    var archive := Upload(c, added, response).archive;
    if !IsPending(c.messages[id].syncStatus) {
      var own := c.messages[id].quiltPatchId.value;
      assert archive[own] == c.archive[own];
      forall p | p in added
        ensures archive[p].id != id
      {
        assert c.worker.batch[added[p]] in c.worker.batch;
      }
      forall p | p in archive && archive[p].id == id
        ensures NotNewer(archive[p], archive[own])
      {
        assert archive[p] == c.archive[p];
      }
    }
  }

  lemma UploadKeepsNewest(c: Core, added: map<PatchId, nat>, response: Option<seq<StoredPatch>>)
    requires Newest(c) && BatchKnown(c) && CanUpload(c, added, response)
    ensures Newest(Upload(c, added, response))
  {
    var c' := Upload(c, added, response);
    if c'.worker.Marking? {
      forall m | m in c.worker.batch
        ensures NothingNewer(c'.archive, ForWalrus(m))
      {
        UploadKeepsBatchNewest(c, added, response, m);
      }
    }
    forall id | id in c'.messages
      ensures OwnNewest(c', id)
    {
      assert OwnNewest(c, id);
      UploadKeepsOwnNewest(c, added, response, id);
    }
  }

  lemma MarkedOwnNewest(c: Core, now: Timestamp)
    requires CanMark(c) && BatchKnown(c) && AnswerHonest(c) && BatchNewest(c)
    requires c.worker.batch[c.worker.next].id in c.messages && OwnNewest(c, c.worker.batch[c.worker.next].id)
    ensures c.worker.batch[c.worker.next].id in Mark(c, now).messages
    ensures OwnNewest(Mark(c, now), c.worker.batch[c.worker.next].id)
  {
    var m := c.worker.batch[c.worker.next];
    assert m in c.worker.batch;
    if GetPatchId(c.worker.response, Identifier(m.id)).Some? {
      FoundPatchIsOwnCopy(c, m);
      MarkMoves(c, now);
    } else {
      MarkPassesOver(c, now);
    }
  }

  lemma MarkKeepsNewest(c: Core, now: Timestamp)
    requires Newest(c) && CanMark(c) && BatchKnown(c) && AnswerHonest(c)
    ensures Newest(Mark(c, now))
  {
    MarkEffect(c, now);
    var c' := Mark(c, now);
    var marked := c.worker.batch[c.worker.next].id;
    assert c.worker.batch[c.worker.next] in c.worker.batch;
    assert OwnNewest(c, marked);
    MarkedOwnNewest(c, now);
    forall id | id in c'.messages && id != marked
      ensures OwnNewest(c', id)
    {
      assert OwnNewest(c, id);
    }
  }

  lemma CoreNextNewest(c: Core, k: CoreStep, clock: Timestamp)
    requires Newest(c) && Agrees(c) && Timed(c, clock) && CoreEnabled(c, k)
    ensures Newest(CoreNext(c, k))
  {
    match k
    case Unchanged =>
    case Wrote(m) => WriteKeepsNewest(c, m);
    case Snapshotted(batch) => SnapshotKeepsNewest(c, batch, clock);
    case Answered(added, response) => UploadKeepsNewest(c, added, response);
    case Marked(now) => MarkKeepsNewest(c, now);
  }

  lemma {:induction false} RunIsNewest(states: seq<State>, acts: seq<Action>, i: nat)
    requires Run(states, acts) && StrictClock(states, acts) && i <= |acts|
    ensures Newest(CoreOf(states[i]))
  {
    if i > 0 {
      var s, a := states[i - 1], acts[i - 1];
      RunIsNewest(states, acts, i - 1);
      RunIsSound(states, acts, i - 1);
      RunIsInTime(states, acts, i - 1);
      StepIsCoreStep(s, a);
      CoreNextNewest(CoreOf(s), CoreStepOf(s, a), s.clock);
      assert states[i - 1 + 1] == Step(s, a);
    }
  }

  // ---- The exact condition for readers to see the store ----

  /** The copy that the message's own patch id leads to. */
  function Own(c: Core, id: Uuid): Option<Message> {
    if id in c.messages && c.messages[id].quiltPatchId.Some? && c.messages[id].quiltPatchId.value in c.archive
    then Some(c.archive[c.messages[id].quiltPatchId.value])
    else None
  }

  /** The stored content is not the archived one. */
  predicate ContentDiffers(c: Core, id: Uuid) {
    id in c.messages && Own(c, id).Some? && c.messages[id].content != Own(c, id).value.content
  }

  /** Once nothing waits, the copies a reader takes are the messages' own copies. */
  lemma LatestIsOwn(c: Core, copy: Message)
    requires Newest(c) && Agrees(c) && Drained(c)
    ensures IsLatest(c.archive, copy) <==> copy.id in c.messages && Own(c, copy.id) == Some(copy)
  {
    if IsLatest(c.archive, copy) {
      var p :| p in c.archive && c.archive[p] == copy;
      assert copy.id in c.messages && OwnNewest(c, copy.id);
      var own := c.messages[copy.id].quiltPatchId.value;
      assert c.archive[own].updatedAt <= copy.updatedAt && NotNewer(c.archive[p], c.archive[own]);
    }
    if copy.id in c.messages && Own(c, copy.id) == Some(copy) {
      assert OwnNewest(c, copy.id);
      forall p | p in c.archive && c.archive[p].id == copy.id
        ensures c.archive[p].updatedAt <= copy.updatedAt
      {
        assert NotNewer(c.archive[p], copy);
      }
    }
  }

  /** An own copy shows what the store shows, but perhaps for the content. */
  lemma OwnShows(c: Core, id: Uuid)
    requires Agrees(c) && Drained(c) && id in c.messages
    ensures Own(c, id).Some? && Own(c, id).value.id == id
    ensures Own(c, id).value.syncStatus == c.messages[id].syncStatus
    ensures Visible(Own(c, id).value) == Visible(c.messages[id]) <==> !ContentDiffers(c, id)
    ensures ContentDiffers(c, id) ==> id in c.lost
  {
    OwnCopy(c, id);
  }

  /** Once nothing is pending, readers of the archive see exactly the live store if and only if
      no message that is not deleted has lost a write that changed its content. */
  lemma ReaderMatchesStoreIff(states: seq<State>, acts: seq<Action>, i: nat)
    requires Run(states, acts) && StrictClock(states, acts) && i <= |acts|
    requires Drained(CoreOf(states[i]))
    ensures ReaderMatchesStore(states[i]) <==>
            forall id :: WriteLost(states, acts, id, i) && id in states[i].store.messages
                         ==> states[i].store.messages[id].syncStatus.Deleted? || !ContentDiffers(CoreOf(states[i]), id)
  {
    var s, c := states[i], CoreOf(states[i]);
    RunIsSound(states, acts, i);
    RunIsNewest(states, acts, i);
    forall id | id in c.messages
      ensures ContentDiffers(c, id) ==> WriteLost(states, acts, id, i)
    {
      OwnShows(c, id);
      LostIff(states, acts, i, id);
    }
    MatchesIff(s);
  }

  /** Once nothing waits, readers take the own copies of the messages that are not deleted. */
  lemma ReadsOwn(c: Core, copy: Message)
    requires Newest(c) && Agrees(c) && Drained(c)
    ensures Reads(c.archive, copy) <==>
            copy.id in c.messages && Own(c, copy.id) == Some(copy) && !c.messages[copy.id].syncStatus.Deleted?
  {
    LatestIsOwn(c, copy);
    if copy.id in c.messages {
      OwnShows(c, copy.id);
    }
  }

  lemma OwnIsRead(c: Core, id: Uuid)
    requires Newest(c) && Agrees(c) && Drained(c)
    requires id in c.messages && !c.messages[id].syncStatus.Deleted?
    ensures Own(c, id).Some? && Own(c, id).value.id == id && Reads(c.archive, Own(c, id).value)
    ensures Visible(Own(c, id).value) == Visible(c.messages[id]) <==> !ContentDiffers(c, id)
  {
    OwnShows(c, id);
    ReadsOwn(c, Own(c, id).value);
  }

  lemma MatchesIff(s: State)
    requires Newest(CoreOf(s)) && Agrees(CoreOf(s)) && Drained(CoreOf(s))
    ensures ReaderMatchesStore(s) <==> forall id ::
              id in s.store.messages && !s.store.messages[id].syncStatus.Deleted? ==> !ContentDiffers(CoreOf(s), id)
  {
    var c := CoreOf(s);
    forall copy | Reads(s.archive, copy)
      ensures copy.id in c.messages && !c.messages[copy.id].syncStatus.Deleted? && Own(c, copy.id) == Some(copy)
    {
      ReadsOwn(c, copy);
    }
    forall id | id in c.messages && !c.messages[id].syncStatus.Deleted?
      ensures Own(c, id).Some? && Own(c, id).value.id == id && Reads(s.archive, Own(c, id).value)
      ensures Visible(Own(c, id).value) == Visible(c.messages[id]) <==> !ContentDiffers(c, id)
    {
      OwnIsRead(c, id);
    }
  }
}
