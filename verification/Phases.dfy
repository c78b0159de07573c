/** One phase of the worker, message by message, and as steps of the interleaved system. */
module Phases {
  import opened Wrappers
  import opened Messages
  import opened Stores
  import opened Walrus
  import opened WalrusSync
  import opened Archive
  import opened Draining

  /** What the publisher is asked and answers; nothing is asked when no message can be serialized. */
  function AnswerTo(client: Client, to: SyncStatus, batch: seq<Message>): Option<seq<StoredPatch>> {
    if PatchesOf(client, to, batch) == [] then None
    else client.storeQuilt(PatchesOf(client, to, batch), TagsOf(client, to, batch))
  }

  lemma {:induction false} NothingToSendIff(client: Client, to: SyncStatus, batch: seq<Message>)
    ensures PatchesOf(client, to, batch) == [] <==> forall m :: m in batch ==> !Serializable(client, to, m)
  {
    if batch != [] {
      var n := |batch| - 1;
      NothingToSendIff(client, to, batch[..n]);
      assert batch == batch[..n] + [batch[n]] && batch[n] in batch;
    }
  }

  /** A phase fails exactly when some message can be serialized and the publisher does not answer. */
  lemma PhaseFailsIff(s: Store, batch: seq<Message>, to: SyncStatus, client: Client, clock: nat -> Timestamp)
    ensures UploadAndMark(s, batch, to, client, clock).1.Err? <==>
              && (exists m :: m in batch && client.serialize(m.(syncStatus := to)).Some?)
              && client.storeQuilt(PatchesOf(client, to, batch), TagsOf(client, to, batch)).None?
  {
    NothingToSendIff(client, to, batch);
  }

  /** Where the acknowledged messages of each queue go. */
  predicate Leads(from: SyncStatus, to: SyncStatus) {
    || (from == SyncPending && to == Synced)
    || (from == UpdatePending && to == Updated)
    || (from == DeletePending && to == Deleted)
  }

  lemma {:induction false} MarkAllKeepsOthers(s: Store, batch: seq<Message>, response: seq<StoredPatch>, to: SyncStatus,
                                              clock: nat -> Timestamp, id: Uuid)
    requires id in s.messages && forall i :: 0 <= i < |batch| ==> batch[i].id != id
    ensures var s' := MarkAll(s, batch, response, to, clock);
            id in s'.messages && s'.messages[id] == s.messages[id]
    decreases |batch|
  {
    if batch != [] {
      MarkAllKeepsOthers(s, batch[..|batch| - 1], response, to, clock, id);
    }
  }

  lemma {:induction false} MarkedAt(s: Store, batch: seq<Message>, response: seq<StoredPatch>, to: SyncStatus,
                                    clock: nat -> Timestamp, k: nat)
    requires DistinctIds(batch) && k < |batch| && batch[k].id in s.messages
    ensures var m, s' := s.messages[batch[k].id], MarkAll(s, batch, response, to, clock);
            && batch[k].id in s'.messages
            && s'.messages[batch[k].id]
               == match GetPatchId(response, Identifier(batch[k].id))
                  case None => m
                  case Some(p) => m.(syncStatus := to, quiltPatchId := Some(p), updatedAt := clock(k))
    decreases |batch|
  {
    var n := |batch| - 1;
    if k < n {
      MarkedAt(s, batch[..n], response, to, clock, k);
      assert batch[k].id != batch[n].id;
    } else {
      MarkAllKeepsOthers(s, batch[..n], response, to, clock, batch[n].id);
    }
  }

  lemma AfterPhaseIs(s: Store, from: SyncStatus, to: SyncStatus, o: Outside, batch: seq<Message>)
    requires Leads(from, to)
    ensures var answer := AnswerTo(o.clients(from), to, batch);
            AfterPhase(s, from, o, batch)
            == match answer case None => s case Some(response) => MarkAll(s, batch, response, to, o.clocks(from))
  {
  }

  /** After a phase, each member of its batch has the status that its queue leads to, the patch id
      of its own identifier and the time of its mark; without such a patch id it is as before. */
  lemma MembersAfterPhase(s: Store, from: SyncStatus, to: SyncStatus, o: Outside, limit: nat, batch: seq<Message>,
                          k: nat)
    requires Leads(from, to) && IsBatch(s, from, limit, batch) && k < |batch|
    ensures var m, s', answer := batch[k], AfterPhase(s, from, o, batch), AnswerTo(o.clients(from), to, batch);
            && m.id in s'.messages
            && s'.messages[m.id]
               == if answer.None? || GetPatchId(answer.value, "msg-" + m.id.text).None? then m
                  else m.(syncStatus := to, updatedAt := o.clocks(from)(k),
                          quiltPatchId := GetPatchId(answer.value, "msg-" + m.id.text))
  {
    assert batch[k] in batch;
    AfterPhaseIs(s, from, to, o, batch);
    var answer := AnswerTo(o.clients(from), to, batch);
    if answer.Some? {
      MarkedAt(s, batch, answer.value, to, o.clocks(from), k);
    }
  }

  lemma {:induction false} MarkNothing(c: Core, n: nat, clock: nat -> Timestamp)
    requires c.worker.Idle?
    ensures MarkMany(c, n, clock) == c
  {
    if n > 0 {
      MarkNothing(c, n - 1, clock);
    }
  }

  lemma MarksAfterUpload(s: Store, c: Core, to: SyncStatus, batch: seq<Message>, added: map<PatchId, nat>,
                         answer: Option<seq<StoredPatch>>, clock: nat -> Timestamp)
    requires c.messages == s.messages && c.worker == Uploading(batch) && batch != [] && CanUpload(c, added, answer)
    requires forall m :: m in batch ==> Target(m.syncStatus) == to
    ensures var c' := MarkMany(Upload(c, added, answer), |batch|, clock);
            && c'.worker == Idle
            && c'.messages == match answer
                              case None => s.messages
                              case Some(response) => MarkAll(s, batch, response, to, clock).messages
  {
    var uploaded := Upload(c, added, answer);
    if answer.Some? {
      MarkAllIsMarkMany(s, uploaded, |batch|, to, clock);
      assert batch[..|batch|] == batch;
    } else {
      MarkNothing(uploaded, |batch|, clock);
    }
  }

  /** The copy that the interleaved system archives is the one that the phase serializes. */
  lemma ArchivedIsSent(s: Store, from: SyncStatus, to: SyncStatus, limit: nat, batch: seq<Message>, k: nat)
    requires Leads(from, to) && IsBatch(s, from, limit, batch) && k < |batch|
    ensures ForWalrus(batch[k]) == batch[k].(syncStatus := to)
  {
    assert batch[k] in batch;
  }

  /** A phase alone is a snapshot, an answer and the marks of the interleaved system, for every
      publisher whose answers that system admits. */
  lemma PhaseIsSteps(s: Store, c: Core, from: SyncStatus, to: SyncStatus, o: Outside, limit: nat,
                     batch: seq<Message>, added: map<PatchId, nat>)
    requires c.messages == s.messages && c.worker.Idle?
    requires Leads(from, to) && IsBatch(s, from, limit, batch) && batch != []
    requires CanUpload(Snapshot(c, batch), added, AnswerTo(o.clients(from), to, batch))
    ensures CanSnapshot(c, batch)
    ensures var answer := AnswerTo(o.clients(from), to, batch);
            var c' := MarkMany(Upload(Snapshot(c, batch), added, answer), |batch|, o.clocks(from));
            c'.messages == AfterPhase(s, from, o, batch).messages && c'.worker == Idle
  {
    assert CanSnapshot(c, batch) by { assert batch[0] in batch; }
    AfterPhaseIs(s, from, to, o, batch);
    MarksAfterUpload(s, Snapshot(c, batch), to, batch, added, AnswerTo(o.clients(from), to, batch), o.clocks(from));
  }
}
