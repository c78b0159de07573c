/** How long a delete holds. */
module Deletions {
  import opened Messages
  import opened Stores
  import opened Walrus
  import opened Archive
  import opened Relay
  import opened RelayInvariants
  import opened Requests

  predicate IsDeletion(status: SyncStatus) {
    status.DeletePending? || status.Deleted?
  }

  predicate HeldDeleted(messages: map<Uuid, Message>, id: Uuid) {
    id in messages && IsDeletion(messages[id].syncStatus)
  }

  predicate DeletedIn(s: State, id: Uuid) {
    HeldDeleted(s.store.messages, id)
  }

  /** An edit of the message is admitted. */
  ghost predicate Edits(s: State, a: Action, id: Uuid) {
    && a.Apply? && a.t in s.pending && s.pending[a.t].Edit? && s.pending[a.t].id == id
    && Outcome(s.store, s.pending[a.t], a.now).Ok?
  }

  /** The worker marks the message. */
  ghost predicate MarksFound(s: State, a: Action, id: Uuid) {
    && a.MarkNext? && CanMark(CoreOf(s)) && s.worker.batch[s.worker.next].id == id
    && GetPatchId(s.worker.response, Identifier(id)).Some?
  }

  /** The two ways in which a delete ends: an edit, and the mark of a batch that was taken when the
      message was not deleted. */
  ghost predicate Revives(s: State, a: Action, id: Uuid) {
    Edits(s, a, id) || (MarksFound(s, a, id) && !s.worker.batch[s.worker.next].syncStatus.DeletePending?)
  }

  lemma MarkRevivesIff(c: Core, now: Timestamp, id: Uuid)
    requires CanMark(c) && BatchKnown(c) && HeldDeleted(c.messages, id)
    ensures var m := c.worker.batch[c.worker.next];
            HeldDeleted(Mark(c, now).messages, id) <==>
              !(m.id == id && GetPatchId(c.worker.response, Identifier(id)).Some? && !m.syncStatus.DeletePending?)
  {
    var m := c.worker.batch[c.worker.next];
    assert m in c.worker.batch && IsPending(m.syncStatus);
    if m.id != id {
      MarkEffect(c, now);
    } else if GetPatchId(c.worker.response, Identifier(id)).Some? {
      MarkMoves(c, now);
    } else {
      MarkPassesOver(c, now);
    }
  }

  /** A user write leaves the message deleted unless it is an edit of it. */
  lemma WriteRevivesIff(s: State, a: Action, id: Uuid)
    requires Enabled(s, a) && InFlight(s) && Keyed(s.store) && DeletedIn(s, id) && !a.MarkNext?
    ensures var k := CoreStepOf(s, a);
            Edits(s, a, id) <==> k.Wrote? && k.m.id == id && !IsDeletion(k.m.syncStatus)
  {
    match a
    case Apply(t, now) => assert s.store.messages[s.pending[t].id].id == s.pending[t].id;
    case _ =>
  }

  lemma CoreNextHolds(c: Core, k: CoreStep, id: Uuid)
    requires CoreEnabled(c, k) && !k.Marked? && HeldDeleted(c.messages, id)
    ensures HeldDeleted(CoreNext(c, k).messages, id) <==> !(k.Wrote? && k.m.id == id && !IsDeletion(k.m.syncStatus))
  {
  }

  lemma MarkStepRevivesIff(s: State, a: Action, id: Uuid)
    requires Enabled(s, a) && BatchKnown(CoreOf(s)) && DeletedIn(s, id) && a.MarkNext?
    ensures DeletedIn(Step(s, a), id) <==> !Revives(s, a, id)
  {
    MarkRevivesIff(CoreOf(s), a.now, id);
    assert Step(s, a).store.messages == Mark(CoreOf(s), a.now).messages;
  }

  lemma OtherStepRevivesIff(s: State, a: Action, id: Uuid)
    requires Enabled(s, a) && InFlight(s) && Keyed(s.store) && DeletedIn(s, id) && !a.MarkNext?
    ensures DeletedIn(Step(s, a), id) <==> !Revives(s, a, id)
  {
    var c, k := CoreOf(s), CoreStepOf(s, a);
    assert CoreEnabled(c, k) && Step(s, a).store.messages == CoreNext(c, k).messages by {
      StepIsCoreStep(s, a);
      assert CoreOf(Step(s, a)).messages == Step(s, a).store.messages;
    }
    WriteRevivesIff(s, a, id);
    CoreNextHolds(c, k, id);
  }

  /** At moment `k` of a run the delete goes on to hold unless the step ends it. */
  ghost predicate Continues(states: seq<State>, acts: seq<Action>, id: Uuid, k: nat)
    requires |states| == |acts| + 1 && k < |acts|
  {
    DeletedIn(states[k], id) ==> (DeletedIn(states[k + 1], id) <==> !Revives(states[k], acts[k], id))
  }

  lemma RunContinues(states: seq<State>, acts: seq<Action>, id: Uuid, k: nat)
    requires Run(states, acts) && k < |acts|
    ensures Continues(states, acts, id, k)
  {
    var s, a := states[k], acts[k];
    if DeletedIn(s, id) {
      assert InFlight(s) && Keyed(s.store) && BatchKnown(CoreOf(s)) by { RunIsSound(states, acts, k); }
      assert states[k + 1] == Step(s, a);
      if a.MarkNext? {
        MarkStepRevivesIff(s, a, id);
      } else {
        OtherStepRevivesIff(s, a, id);
      }
    }
  }

  lemma {:induction false} HoldsUntilRevived(states: seq<State>, acts: seq<Action>, id: Uuid, i: nat, j: nat)
    requires |states| == |acts| + 1 && i <= j <= |acts| && DeletedIn(states[i], id)
    requires forall k {:trigger Continues(states, acts, id, k)} :: i <= k < j ==> Continues(states, acts, id, k)
    ensures (forall k :: i <= k <= j ==> DeletedIn(states[k], id))
            <==> forall k :: i <= k < j ==> !Revives(states[k], acts[k], id)
    decreases j
  {
    if i < j {
      HoldsUntilRevived(states, acts, id, i, j - 1);
      assert Continues(states, acts, id, j - 1);
    }
  }

  /** The exact condition for a delete to hold from one moment to another: nobody's edit of the
      message is admitted, and no batch taken when it was not deleted marks it. */
  lemma DeleteHoldsIff(states: seq<State>, acts: seq<Action>, id: Uuid, i: nat, j: nat)
    requires Run(states, acts) && i <= j <= |acts| && DeletedIn(states[i], id)
    ensures (forall k :: i <= k <= j ==> DeletedIn(states[k], id))
            <==> forall k :: i <= k < j ==> !Revives(states[k], acts[k], id)
  {
    forall k | i <= k < j
      ensures Continues(states, acts, id, k)
    {
      RunContinues(states, acts, id, k);
    }
    HoldsUntilRevived(states, acts, id, i, j);
  }

  // ---- What readers are told ----

  predicate ShownDeleted(s: State, id: Uuid) {
    id in s.store.messages && ToResponse(s.store.messages[id]).isDeleted
  }

  lemma ShownDeletedIff(s: State, id: Uuid)
    ensures ShownDeleted(s, id) <==> DeletedIn(s, id)
  {
  }

  /** The mark of a deleted message moves it on, and it is still shown as deleted. */
  lemma MarkedIsShownDeleted(s: State, a: Action, id: Uuid)
    requires Enabled(s, a) && MarksFound(s, a, id) && id in s.store.messages
    requires s.worker.batch[s.worker.next].syncStatus == DeletePending
    ensures id in Step(s, a).store.messages && Step(s, a).store.messages[id].syncStatus == Deleted
    ensures ToResponse(Step(s, a).store.messages[id]).isDeleted
  {
    MarkMoves(CoreOf(s), a.now);
  }

  /** A message that is shown as deleted at one moment is shown so up to another exactly when the
      delete holds until then: through its mark, and until it is revived. */
  lemma ShownDeletedHoldsIff(states: seq<State>, acts: seq<Action>, id: Uuid, i: nat, j: nat)
    requires Run(states, acts) && i <= j <= |acts| && ShownDeleted(states[i], id)
    ensures (forall k :: i <= k <= j ==> ShownDeleted(states[k], id))
            <==> forall k :: i <= k < j ==> !Revives(states[k], acts[k], id)
  {
    forall k | i <= k <= j
      ensures ShownDeleted(states[k], id) <==> DeletedIn(states[k], id)
    {
      ShownDeletedIff(states[k], id);
    }
    DeleteHoldsIff(states, acts, id, i, j);
  }
}
