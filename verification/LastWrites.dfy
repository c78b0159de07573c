/** Whether readers of the archive are shown what users last wrote: the content of a message's
    last write, or nothing if that was a delete. */
module LastWrites {
  import opened Wrappers
  import opened Messages
  import opened Stores
  import opened Walrus
  import opened Archive
  import opened Relay
  import opened RelayInvariants
  import opened Readers
  import opened Deletions

  // ---- The clone that was last marked ----

  /** The batch member that this step marks. */
  function Clone(s: State): Message
    requires CanMark(CoreOf(s))
  {
    s.worker.batch[s.worker.next]
  }

  /** The clone of the message in the batch whose mark came last before moment `i`. */
  ghost function LastClone(states: seq<State>, acts: seq<Action>, id: Uuid, i: nat): Option<Message>
    requires |states| == |acts| + 1 && i <= |acts|
  {
    if i == 0 then None
    else if MarksFound(states[i - 1], acts[i - 1], id) then Some(Clone(states[i - 1]))
    else LastClone(states, acts, id, i - 1)
  }

  /** The message's patch id leads to the archived copy of `last`; it has none before its first mark. */
  ghost predicate LeadsToClone(c: Core, id: Uuid, last: Option<Message>) {
    match last
    case None => id in c.messages ==> c.messages[id].quiltPatchId.None?
    case Some(m) => id in c.messages && Own(c, id) == Some(ForWalrus(m)) && IsPending(m.syncStatus)
  }

  lemma MarkLeadsToClone(c: Core, now: Timestamp, id: Uuid, last: Option<Message>)
    requires CanMark(c) && BatchKnown(c) && AnswerHonest(c) && LeadsToClone(c, id, last)
    ensures var m := c.worker.batch[c.worker.next];
            LeadsToClone(Mark(c, now), id,
                         if m.id == id && GetPatchId(c.worker.response, Identifier(id)).Some? then Some(m) else last)
  {
    var m := c.worker.batch[c.worker.next];
    assert m in c.worker.batch;
    MarkEffect(c, now);
    if m.id == id {
      if GetPatchId(c.worker.response, Identifier(id)).Some? {
        FoundPatchIsOwnCopy(c, m);
        MarkMoves(c, now);
      } else {
        MarkPassesOver(c, now);
      }
    }
  }

  /** A user write keeps the patch id, and a new message has none. */
  ghost predicate KeepsPatchId(c: Core, m: Message) {
    m.quiltPatchId == if m.id in c.messages then c.messages[m.id].quiltPatchId else None
  }

  lemma WriteKeepsPatchId(s: State, a: Action)
    requires Enabled(s, a) && InFlight(s) && Keyed(s.store) && CoreStepOf(s, a).Wrote?
    ensures KeepsPatchId(CoreOf(s), CoreStepOf(s, a).m)
  {
    match a
    case Apply(t, now) => assert s.store.messages[s.pending[t].id].id == s.pending[t].id;
    case _ =>
  }

  lemma CoreNextLeadsToClone(c: Core, k: CoreStep, id: Uuid, last: Option<Message>)
    requires CoreEnabled(c, k) && !k.Marked? && LeadsToClone(c, id, last)
    requires k.Wrote? ==> KeepsPatchId(c, k.m)
    ensures LeadsToClone(CoreNext(c, k), id, last)
  {
    if k.Answered? && last.Some? {
      var p := c.messages[id].quiltPatchId.value;
      assert CoreNext(c, k).archive[p] == c.archive[p];
    }
  }

  lemma MarkStepLeadsToClone(s: State, a: Action, id: Uuid, last: Option<Message>)
    requires Enabled(s, a) && BatchKnown(CoreOf(s)) && AnswerHonest(CoreOf(s)) && a.MarkNext?
    requires LeadsToClone(CoreOf(s), id, last)
    ensures LeadsToClone(CoreOf(Step(s, a)), id, if MarksFound(s, a, id) then Some(Clone(s)) else last)
  {
    MarkLeadsToClone(CoreOf(s), a.now, id, last);
    assert CoreOf(Step(s, a)) == Mark(CoreOf(s), a.now);
  }

  lemma OtherStepLeadsToClone(s: State, a: Action, id: Uuid, last: Option<Message>)
    requires Enabled(s, a) && InFlight(s) && Keyed(s.store) && !a.MarkNext?
    requires LeadsToClone(CoreOf(s), id, last)
    ensures LeadsToClone(CoreOf(Step(s, a)), id, last)
  {
    StepIsCoreStep(s, a);
    if CoreStepOf(s, a).Wrote? {
      WriteKeepsPatchId(s, a);
    }
    CoreNextLeadsToClone(CoreOf(s), CoreStepOf(s, a), id, last);
  }

  lemma {:induction false} RunLeadsToClone(states: seq<State>, acts: seq<Action>, id: Uuid, i: nat)
    requires Run(states, acts) && i <= |acts|
    ensures LeadsToClone(CoreOf(states[i]), id, LastClone(states, acts, id, i))
  {
    if i > 0 {
      var s, a, last := states[i - 1], acts[i - 1], LastClone(states, acts, id, i - 1);
      RunLeadsToClone(states, acts, id, i - 1);
      assert InFlight(s) && Keyed(s.store) && BatchKnown(CoreOf(s)) && AnswerHonest(CoreOf(s)) by {
        RunIsSound(states, acts, i - 1);
      }
      assert states[i - 1 + 1] == Step(s, a);
      if a.MarkNext? {
        MarkStepLeadsToClone(s, a, id, last);
      } else {
        OtherStepLeadsToClone(s, a, id, last);
      }
    }
  }

  // ---- What readers are shown ----

  /** Readers are shown the content of the last write, or nothing if it was a delete. */
  ghost predicate ShowsLastWrite(s: State, id: Uuid)
    requires id in s.written
  {
    if s.written[id].syncStatus.DeletePending? then
      forall copy :: Reads(s.archive, copy) ==> copy.id != id
    else
      && (exists copy :: Reads(s.archive, copy) && copy.id == id)
      && forall copy :: Reads(s.archive, copy) && copy.id == id ==> copy.content == s.written[id].content
  }

  /** The clone says the same as the write, to a reader. */
  predicate SaysTheSame(clone: Message, write: Message) {
    if write.syncStatus.DeletePending? then clone.syncStatus.DeletePending?
    else !clone.syncStatus.DeletePending? && clone.content == write.content
  }

  lemma ReadsClone(s: State, id: Uuid, clone: Message, copy: Message)
    requires Newest(CoreOf(s)) && Agrees(CoreOf(s)) && Drained(CoreOf(s))
    requires LeadsToClone(CoreOf(s), id, Some(clone))
    ensures ForWalrus(clone).id == id
    ensures Reads(s.archive, copy) && copy.id == id <==>
            copy == ForWalrus(clone) && !clone.syncStatus.DeletePending?
  {
    OwnShows(CoreOf(s), id);
    ReadsOwn(CoreOf(s), copy);
  }

  lemma ShownFromClone(s: State, id: Uuid, clone: Message)
    requires Newest(CoreOf(s)) && Agrees(CoreOf(s)) && Drained(CoreOf(s)) && id in s.written
    requires LeadsToClone(CoreOf(s), id, Some(clone))
    ensures ShowsLastWrite(s, id) <==> SaysTheSame(clone, s.written[id])
  {
    forall copy
      ensures Reads(s.archive, copy) && copy.id == id <==>
              copy == ForWalrus(clone) && !clone.syncStatus.DeletePending?
    {
      ReadsClone(s, id, clone, copy);
    }
    var copy := ForWalrus(clone);
    assert copy.content == clone.content && copy.id == id;
    assert clone.syncStatus.DeletePending? || Reads(s.archive, copy);
  }

  lemma ShowsIff(states: seq<State>, acts: seq<Action>, i: nat, id: Uuid)
    requires Run(states, acts) && StrictClock(states, acts) && i <= |acts|
    requires Drained(CoreOf(states[i])) && id in states[i].written
    ensures LastClone(states, acts, id, i).Some?
    ensures ShowsLastWrite(states[i], id) <==> SaysTheSame(LastClone(states, acts, id, i).value, states[i].written[id])
  {
    RunIsSound(states, acts, i);
    RunIsNewest(states, acts, i);
    RunLeadsToClone(states, acts, id, i);
    OwnShows(CoreOf(states[i]), id);
    ShownFromClone(states[i], id, LastClone(states, acts, id, i).value);
  }

  /** The exact condition, once nothing is pending: readers are shown every message as its user
      last left it if and only if each clone that was last marked says what the last write says. */
  lemma ReadersShowLastWritesIff(states: seq<State>, acts: seq<Action>, i: nat)
    requires Run(states, acts) && StrictClock(states, acts) && i <= |acts| && Drained(CoreOf(states[i]))
    ensures (forall id :: id in states[i].written ==> ShowsLastWrite(states[i], id))
            <==> forall id :: id in states[i].written ==>
                   && LastClone(states, acts, id, i).Some?
                   && SaysTheSame(LastClone(states, acts, id, i).value, states[i].written[id])
  {
    forall id | id in states[i].written
      ensures LastClone(states, acts, id, i).Some?
      ensures ShowsLastWrite(states[i], id) <==>
              SaysTheSame(LastClone(states, acts, id, i).value, states[i].written[id])
    {
      ShowsIff(states, acts, i, id);
    }
  }
}
