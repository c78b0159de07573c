/** What the `is_edited` field of a response tells, over whole runs. */
module EditedFlag {
  import opened Messages
  import opened Requests
  import opened Archive
  import opened Relay
  import opened RelayInvariants
  import opened ArchiveRuns

  predicate Untouched(m: Message) {
    m.updatedAt == m.createdAt
  }

  /** Only a message that still waits for its first upload looks untouched. */
  predicate FlagFits(m: Message, clock: Timestamp) {
    m.createdAt <= clock && (Untouched(m) <==> m.syncStatus.SyncPending?)
  }

  ghost predicate FlagsFit(c: Core, clock: Timestamp) {
    forall id {:trigger c.messages[id]} :: id in c.messages ==> FlagFits(c.messages[id], clock)
  }

  lemma CoreNextFits(c: Core, k: CoreStep, clock: Timestamp, clock': Timestamp)
    requires CoreEnabled(c, k) && BatchKnown(c) && FlagsFit(c, clock) && clock <= clock'
    requires k.Wrote? ==> FlagFits(k.m, clock')
    requires k.Marked? ==> clock < k.now
    ensures FlagsFit(CoreNext(c, k), clock')
  {
    if k.Marked? {
      MarkEffect(c, k.now);
      assert c.worker.batch[c.worker.next] in c.worker.batch;
      assert FlagFits(c.messages[c.worker.batch[c.worker.next].id], clock);
    }
  }

  lemma WriteFits(s: State, a: Action)
    requires Enabled(s, a) && InFlight(s) && DraftsPast(s) && FlagsFit(CoreOf(s), s.clock) && Ticks(s, a)
    requires CoreStepOf(s, a).Wrote?
    ensures FlagFits(CoreStepOf(s, a).m, Step(s, a).clock)
  {
    if a.Apply? {
      assert FlagFits(CoreOf(s).messages[s.pending[a.t].id], s.clock);
    }
  }

  lemma {:induction false} RunFits(states: seq<State>, acts: seq<Action>, i: nat)
    requires Run(states, acts) && StrictClock(states, acts) && i <= |acts|
    ensures FlagsFit(CoreOf(states[i]), states[i].clock)
  {
    if i > 0 {
      var s, a := states[i - 1], acts[i - 1];
      RunFits(states, acts, i - 1);
      RunIsSound(states, acts, i - 1);
      RunIsInTime(states, acts, i - 1);
      assert Ticks(s, a);
      assert states[i - 1 + 1] == Step(s, a);
      StepFits(s, a);
    }
  }

  lemma StepFits(s: State, a: Action)
    requires Enabled(s, a) && Sound(s) && InTime(s) && Ticks(s, a) && FlagsFit(CoreOf(s), s.clock)
    ensures FlagsFit(CoreOf(Step(s, a)), Step(s, a).clock)
  {
    TickMovesOn(s, a);
    StepIsCoreStep(s, a);
    if CoreStepOf(s, a).Wrote? {
      WriteFits(s, a);
    }
    CoreNextFits(CoreOf(s), CoreStepOf(s, a), s.clock, Step(s, a).clock);
  }

  /** A response says edited exactly when the message has left its first status: an edit or a
      delete does that, and so does the worker's mark on a message nobody has edited. */
  lemma LooksEditedIff(states: seq<State>, acts: seq<Action>, i: nat, id: Uuid)
    requires Run(states, acts) && StrictClock(states, acts) && i <= |acts|
    requires id in states[i].store.messages
    ensures ToResponse(states[i].store.messages[id]).isEdited <==> !states[i].store.messages[id].syncStatus.SyncPending?
  {
    RunFits(states, acts, i);
    assert FlagFits(CoreOf(states[i]).messages[id], states[i].clock);
  }

  // ---- When the flag tells the truth ----

  /** An edit or a delete of the message takes effect. */
  ghost predicate WritesTo(s: State, a: Action, id: Uuid) {
    a.Apply? && a.t in s.pending && s.pending[a.t].id == id && Outcome(s.store, s.pending[a.t], a.now).Ok?
  }

  /** Some user write has come after the create. */
  ghost predicate WrittenAgain(states: seq<State>, acts: seq<Action>, id: Uuid, i: nat)
    requires |states| == |acts| + 1 && i <= |acts|
  {
    exists j :: 0 <= j < i && WritesTo(states[j], acts[j], id)
  }

  /** A message's last written version: none, its create, or a later write. */
  datatype Version = Absent | Created | Changed

  function VersionOf(written: map<Uuid, Message>, id: Uuid): Version {
    if id !in written then Absent else if written[id].syncStatus.SyncPending? then Created else Changed
  }

  /** What a step may make of it. */
  predicate Follows(before: Version, writes: bool, after: Version) {
    if writes then after.Changed? else after == before || (before.Absent? && after.Created?)
  }

  lemma CoreVersion(c: Core, k: CoreStep, id: Uuid)
    requires CoreEnabled(c, k)
    ensures VersionOf(CoreNext(c, k).written, id) == if k.Wrote? && k.m.id == id
                                                     then if k.m.syncStatus.SyncPending? then Created else Changed
                                                     else VersionOf(c.written, id)
  {
    if k.Marked? {
      MarkEffect(c, k.now);
    }
  }

  /** What is written is a create of a new message, or the edit or delete of its own. */
  lemma WroteIs(s: State, a: Action)
    requires Enabled(s, a) && Sound(s)
    ensures var k := CoreStepOf(s, a);
            && (k.Wrote? && a.Commit? ==> k.m.id !in s.store.messages && k.m.syncStatus.SyncPending?)
            && (k.Wrote? && !a.Commit? ==> WritesTo(s, a, k.m.id) && !k.m.syncStatus.SyncPending?)
            && (forall id :: WritesTo(s, a, id) ==> k.Wrote? && k.m.id == id)
  {
    if a.Apply? {
      assert s.store.messages[s.pending[a.t].id].id == s.pending[a.t].id;
    }
  }

  lemma StepVersion(s: State, a: Action, id: Uuid)
    requires Enabled(s, a) && Sound(s)
    ensures Follows(VersionOf(s.written, id), WritesTo(s, a, id), VersionOf(Step(s, a).written, id))
  {
    var c, k := CoreOf(s), CoreStepOf(s, a);
    assert c.written.Keys == c.messages.Keys;
    assert CoreEnabled(c, k) && Step(s, a).written == CoreNext(c, k).written by {
      StepIsCoreStep(s, a);
      assert CoreOf(Step(s, a)).written == Step(s, a).written;
    }
    WroteIs(s, a);
    CoreVersion(c, k, id);
  }

  /** Versions and writes of one message along a run. */
  ghost predicate History(versions: seq<Version>, writes: seq<bool>) {
    && |versions| == |writes| + 1 && versions[0].Absent?
    && forall i {:trigger writes[i]} :: 0 <= i < |writes| ==> Follows(versions[i], writes[i], versions[i + 1])
  }

  lemma {:induction false} ChangedIffWritten(versions: seq<Version>, writes: seq<bool>, i: nat)
    requires History(versions, writes) && i <= |writes|
    ensures versions[i].Changed? <==> exists j :: 0 <= j < i && writes[j]
  {
    if i > 0 {
      ChangedIffWritten(versions, writes, i - 1);
      assert Follows(versions[i - 1], writes[i - 1], versions[i - 1 + 1]);
    }
  }

  lemma LastVersionIff(states: seq<State>, acts: seq<Action>, i: nat, id: Uuid)
    requires Run(states, acts) && i <= |acts|
    ensures VersionOf(states[i].written, id).Changed? <==> WrittenAgain(states, acts, id, i)
  {
    var versions := seq(|states|, k requires 0 <= k < |states| => VersionOf(states[k].written, id));
    var writes := seq(|acts|, k requires 0 <= k < |acts| => WritesTo(states[k], acts[k], id));
    forall k | 0 <= k < |writes|
      ensures Follows(versions[k], writes[k], versions[k + 1])
    {
      RunIsSound(states, acts, k);
      StepVersion(states[k], acts[k], id);
    }
    ChangedIffWritten(versions, writes, i);
    assert (exists j :: 0 <= j < i && writes[j]) <==> WrittenAgain(states, acts, id, i) by {
      if WrittenAgain(states, acts, id, i) {
        var j :| 0 <= j < i && WritesTo(states[j], acts[j], id);
        assert writes[j];
      }
    }
  }

  // ---- A lost write is a write ----

  /** What was written since the snapshot of its batch, or lost, is more than a create. */
  ghost predicate LossesAreWrites(c: Core) {
    && (forall id :: id in c.lost ==> VersionOf(c.written, id).Changed?)
    && (!c.worker.Idle? ==>
          forall m :: m in c.worker.batch && m.id in c.touched ==> VersionOf(c.written, m.id).Changed?)
  }

  lemma CoreNextLosesWrites(c: Core, k: CoreStep)
    requires CoreEnabled(c, k) && BatchKnown(c) && LossesAreWrites(c)
    requires k.Wrote? && k.m.id in c.messages ==> !k.m.syncStatus.SyncPending?
    requires c.lost <= c.messages.Keys
    ensures LossesAreWrites(CoreNext(c, k))
  {
    if k.Marked? {
      MarkEffect(c, k.now);
      MarkLosesTouched(c, k.now);
      assert c.worker.batch[c.worker.next] in c.worker.batch;
    }
  }

  lemma MarkLosesTouched(c: Core, now: Timestamp)
    requires CanMark(c)
    ensures forall id :: id in Mark(c, now).lost ==>
              id in c.lost || (id == c.worker.batch[c.worker.next].id && id in c.touched)
  {
  }

  lemma {:induction false} RunLosesWrites(states: seq<State>, acts: seq<Action>, i: nat)
    requires Run(states, acts) && i <= |acts|
    ensures LossesAreWrites(CoreOf(states[i]))
  {
    if i > 0 {
      var s, a := states[i - 1], acts[i - 1];
      RunLosesWrites(states, acts, i - 1);
      RunIsSound(states, acts, i - 1);
      assert states[i - 1 + 1] == Step(s, a);
      StepLosesWrites(s, a);
    }
  }

  lemma StepLosesWrites(s: State, a: Action)
    requires Enabled(s, a) && Sound(s) && LossesAreWrites(CoreOf(s))
    ensures LossesAreWrites(CoreOf(Step(s, a)))
  {
    StepIsCoreStep(s, a);
    WroteIs(s, a);
    CoreNextLosesWrites(CoreOf(s), CoreStepOf(s, a));
  }

  /** A message that is past its first status has been written again, except when it is Synced and
      no write of it was lost. */
  lemma ChangedIff(c: Core, id: Uuid)
    requires Agrees(c) && LossesAreWrites(c) && id in c.messages
    ensures VersionOf(c.written, id).Changed? <==>
            !c.messages[id].syncStatus.SyncPending? && (c.messages[id].syncStatus.Synced? ==> id in c.lost)
  {
    assert MessageAgrees(c, id);
  }

  /** The exact condition for `is_edited` to be wrong about whether a user wrote the message after
      its create: it is Synced, and no write of it was lost. */
  lemma FlagIsWrongIff(states: seq<State>, acts: seq<Action>, i: nat, id: Uuid)
    requires Run(states, acts) && StrictClock(states, acts) && i <= |acts|
    requires id in states[i].store.messages
    ensures var m := states[i].store.messages[id];
            (ToResponse(m).isEdited != WrittenAgain(states, acts, id, i)) <==>
              m.syncStatus.Synced? && !WriteLost(states, acts, id, i)
  {
    LooksEditedIff(states, acts, i, id);
    RunIsSound(states, acts, i);
    RunLosesWrites(states, acts, i);
    ChangedIff(CoreOf(states[i]), id);
    LastVersionIff(states, acts, i, id);
    LostIff(states, acts, i, id);
  }
}
