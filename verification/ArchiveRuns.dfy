/** What readers of the archive see, over whole runs. */
module ArchiveRuns {
  import opened Messages
  import opened Walrus
  import opened Archive
  import opened Relay
  import opened RelayInvariants

  // ---- When a write is lost, in terms of the run alone ----

  /** What a step means for one message: a user write, a new batch, its own mark. */
  datatype Note = Wrote | Snapshotted | Marked | Other

  function NoteOf(c: Core, k: CoreStep, id: Uuid): Note
    requires CoreEnabled(c, k)
  {
    match k
    case Wrote(m) => if m.id == id then Note.Wrote else Other
    case Snapshotted(_) => Note.Snapshotted
    case Marked(_) =>
      var m := c.worker.batch[c.worker.next];
      if m.id == id && GetPatchId(c.worker.response, Identifier(id)).Some? then Note.Marked else Other
    case _ => Other
  }

  lemma CoreHistory(c: Core, k: CoreStep, id: Uuid)
    requires CoreEnabled(c, k) && BatchKnown(c)
    ensures var c', note := CoreNext(c, k), NoteOf(c, k, id);
            && (id in c'.touched <==> note.Wrote? || (id in c.touched && !note.Snapshotted?))
            && (id in c'.lost <==> !note.Wrote? && (id in c.lost || (note.Marked? && id in c.touched)))
  {
    if k.Marked? {
      assert c.worker.batch[c.worker.next] in c.worker.batch;
    }
  }

  /** A write and then, before any new batch, up to `j`. */
  predicate WrittenInWindow(notes: seq<Note>, w: nat, j: nat)
    requires w < j <= |notes|
  {
    notes[w].Wrote? && forall k :: w < k < j ==> !notes[k].Snapshotted?
  }

  /** The write at `w` came after the batch was snapshotted, `j` marked the message all the
      same, and nobody wrote it again before `i`. */
  predicate LosesWrite(notes: seq<Note>, w: nat, j: nat, i: nat)
    requires w < j < i <= |notes|
  {
    WrittenInWindow(notes, w, j) && notes[j].Marked? && forall k :: j < k < i ==> !notes[k].Wrote?
  }

  ghost predicate LosesAWrite(notes: seq<Note>, i: nat)
    requires i <= |notes|
  {
    exists w: nat, j: nat {:trigger LosesWrite(notes, w, j, i)} :: w < j < i && LosesWrite(notes, w, j, i)
  }

  function TouchedAfter(notes: seq<Note>, i: nat): bool
    requires i <= |notes|
  {
    i > 0 && (notes[i - 1].Wrote? || (TouchedAfter(notes, i - 1) && !notes[i - 1].Snapshotted?))
  }

  function LostAfter(notes: seq<Note>, i: nat): bool
    requires i <= |notes|
  {
    i > 0 && !notes[i - 1].Wrote? && (LostAfter(notes, i - 1) || (notes[i - 1].Marked? && TouchedAfter(notes, i - 1)))
  }

  lemma {:induction false} TouchedMeans(notes: seq<Note>, i: nat)
    requires i <= |notes|
    ensures TouchedAfter(notes, i) <==> exists w: nat :: w < i && WrittenInWindow(notes, w, i)
  {
    if i > 0 {
      TouchedMeans(notes, i - 1);
      if notes[i - 1].Wrote? {
        assert WrittenInWindow(notes, i - 1, i);
      } else if TouchedAfter(notes, i) {
        var w: nat :| w < i - 1 && WrittenInWindow(notes, w, i - 1);
        assert WrittenInWindow(notes, w, i);
      }
      forall w: nat | w < i && WrittenInWindow(notes, w, i)
        ensures TouchedAfter(notes, i)
      {
        assert w == i - 1 || WrittenInWindow(notes, w, i - 1);
      }
    }
  }

  lemma {:induction false} LostMeans(notes: seq<Note>, i: nat)
    requires i <= |notes|
    ensures LostAfter(notes, i) <==> LosesAWrite(notes, i)
  {
    if i > 0 {
      LostMeans(notes, i - 1);
      TouchedMeans(notes, i - 1);
      if LostAfter(notes, i) {
        if LostAfter(notes, i - 1) {
          var w: nat, j: nat :| w < j < i - 1 && LosesWrite(notes, w, j, i - 1);
          assert LosesWrite(notes, w, j, i);
        } else {
          var w: nat :| w < i - 1 && WrittenInWindow(notes, w, i - 1);
          assert LosesWrite(notes, w, i - 1, i);
        }
      }
      forall w: nat, j: nat | w < j < i && LosesWrite(notes, w, j, i)
        ensures LostAfter(notes, i)
      {
        if j < i - 1 {
          assert LosesWrite(notes, w, j, i - 1);
        } else {
          assert WrittenInWindow(notes, w, i - 1);
        }
      }
    }
  }

  function NotesOn(states: seq<State>, acts: seq<Action>, id: Uuid): seq<Note>
    requires Run(states, acts)
    requires forall i :: 0 <= i < |acts| ==> CoreEnabled(CoreOf(states[i]), CoreStepOf(states[i], acts[i]))
  {
    seq(|acts|, i requires 0 <= i < |acts| => NoteOf(CoreOf(states[i]), CoreStepOf(states[i], acts[i]), id))
  }

  lemma RunIsEnabled(states: seq<State>, acts: seq<Action>)
    requires Run(states, acts)
    ensures forall i :: 0 <= i < |acts| ==> CoreEnabled(CoreOf(states[i]), CoreStepOf(states[i], acts[i]))
  {
    forall i | 0 <= i < |acts|
      ensures CoreEnabled(CoreOf(states[i]), CoreStepOf(states[i], acts[i]))
    {
      RunIsSound(states, acts, i);
      StepIsCoreStep(states[i], acts[i]);
    }
  }

  /** In the run, a write to `id` was marked over by a batch snapshotted before it, and the
      message has not been written since. */
  ghost predicate WriteLost(states: seq<State>, acts: seq<Action>, id: Uuid, i: nat)
    requires Run(states, acts) && i <= |acts|
  {
    RunIsEnabled(states, acts);
    LosesAWrite(NotesOn(states, acts, id), i)
  }

  lemma {:induction false} HistoryMatchesNotes(states: seq<State>, acts: seq<Action>, id: Uuid, notes: seq<Note>,
                                               i: nat)
    requires Run(states, acts) && i <= |acts| && |notes| == |acts|
    requires forall j :: 0 <= j < |acts| ==>
               && CoreEnabled(CoreOf(states[j]), CoreStepOf(states[j], acts[j]))
               && notes[j] == NoteOf(CoreOf(states[j]), CoreStepOf(states[j], acts[j]), id)
    ensures id in states[i].touched <==> TouchedAfter(notes, i)
    ensures id in states[i].lost <==> LostAfter(notes, i)
  {
    if i > 0 {
      HistoryMatchesNotes(states, acts, id, notes, i - 1);
      var c, k := CoreOf(states[i - 1]), CoreStepOf(states[i - 1], acts[i - 1]);
      assert BatchKnown(c) && CoreOf(states[i - 1 + 1]) == CoreNext(c, k) by {
        RunIsSound(states, acts, i - 1);
        StepIsCoreStep(states[i - 1], acts[i - 1]);
      }
      CoreHistory(c, k, id);
    }
  }

  /** The exact condition for a message's last write to be missing from the archive. */
  lemma LostIff(states: seq<State>, acts: seq<Action>, i: nat, id: Uuid)
    requires Run(states, acts) && i <= |acts|
    ensures id in states[i].lost <==> WriteLost(states, acts, id, i)
  {
    RunIsEnabled(states, acts);
    var notes := NotesOn(states, acts, id);
    HistoryMatchesNotes(states, acts, id, notes, i);
    LostMeans(notes, i);
  }

  /** With no user write between a message's snapshot and its mark, nothing is ever lost. */
  lemma {:induction false} QuietWindowsLoseNothing(states: seq<State>, acts: seq<Action>, i: nat)
    requires Run(states, acts) && QuietWindows(states, acts) && i <= |acts|
    ensures NothingLost(CoreOf(states[i]))
  {
    if i > 0 {
      var s, a := states[i - 1], acts[i - 1];
      QuietWindowsLoseNothing(states, acts, i - 1);
      RunIsSound(states, acts, i - 1);
      assert OutsideWindow(s, a);
      assert states[i - 1 + 1] == Step(s, a);
      QuietStep(s, a);
    }
  }

  ghost predicate NothingLost(c: Core) {
    c.lost == {} && forall m :: m in Unmarked(c.worker) ==> m.id !in c.touched
  }

  lemma QuietCoreStep(c: Core, k: CoreStep)
    requires CoreEnabled(c, k) && NothingLost(c)
    requires k.Wrote? ==> forall m :: m in Unmarked(c.worker) ==> m.id != k.m.id
    ensures NothingLost(CoreNext(c, k))
  {
    if k.Marked? {
      MarkEffect(c, k.now);
      var batch, n := c.worker.batch, c.worker.next;
      assert batch[n] == batch[n..][0] && batch[n] in Unmarked(c.worker);
      if Mark(c, k.now).worker.Marking? {
        assert forall m :: m in batch[n + 1..] ==> m in batch[n..];
      }
    }
  }

  lemma QuietStep(s: State, a: Action)
    requires Enabled(s, a) && Sound(s) && OutsideWindow(s, a) && NothingLost(CoreOf(s))
    ensures NothingLost(CoreOf(Step(s, a)))
  {
    var c, k := CoreOf(s), CoreStepOf(s, a);
    StepIsCoreStep(s, a);
    assert k.Wrote? ==> forall m :: m in Unmarked(c.worker) ==> m.id != k.m.id by {
      UnmarkedAreStored(c);
      if a.Apply? {
        assert s.store.messages[s.pending[a.t].id].id == s.pending[a.t].id;
      }
    }
    QuietCoreStep(c, k);
  }

  lemma UnmarkedAreStored(c: Core)
    requires BatchKnown(c)
    ensures forall m :: m in Unmarked(c.worker) ==> m.id in c.messages
  {
    forall m | m in Unmarked(c.worker)
      ensures m.id in c.messages
    {
      assert m in c.worker.batch;
    }
  }

  // ---- Main results ----

  /** In every interleaving, whatever the clock reads, a message that is Synced, Updated or
      Deleted has an archived copy under its patch id with its own id, group, order, sender and
      status; and unless a write was lost it is the copy of its last written version. */
  lemma ArchivedCopyInEveryRun(states: seq<State>, acts: seq<Action>, i: nat, id: Uuid)
    requires Run(states, acts) && i <= |acts|
    requires id in states[i].store.messages && !IsPending(states[i].store.messages[id].syncStatus)
    ensures id in states[i].written
    ensures var s := states[i]; var m := s.store.messages[id];
            && m.quiltPatchId.Some? && m.quiltPatchId.value in s.archive
            && var copy := s.archive[m.quiltPatchId.value];
               && SameIdentity(copy, m) && copy.syncStatus == m.syncStatus
               && (!WriteLost(states, acts, id, i) ==> copy == ForWalrus(s.written[id]) && copy.content == m.content)
  {
    RunIsSound(states, acts, i);
    OwnCopy(CoreOf(states[i]), id);
    LostIff(states, acts, i, id);
  }

  /** On a strictly increasing clock that is the exact condition. */
  lemma ArchivedCopyIsLastIff(states: seq<State>, acts: seq<Action>, i: nat, id: Uuid)
    requires Run(states, acts) && StrictClock(states, acts) && i <= |acts|
    requires id in states[i].store.messages && !IsPending(states[i].store.messages[id].syncStatus)
    requires states[i].store.messages[id].quiltPatchId.Some? && id in states[i].written
    requires states[i].store.messages[id].quiltPatchId.value in states[i].archive
    ensures states[i].archive[states[i].store.messages[id].quiltPatchId.value] == ForWalrus(states[i].written[id])
            <==> !WriteLost(states, acts, id, i)
  {
    RunIsSound(states, acts, i);
    RunIsInTime(states, acts, i);
    ArchivedCopyInEveryRun(states, acts, i, id);
    LostIff(states, acts, i, id);
    if id in states[i].lost {
      LostIsNowhere(CoreOf(states[i]), states[i].clock, id, states[i].store.messages[id].quiltPatchId.value);
    }
  }

  ghost predicate ReaderMatchesStore(s: State) {
    && (forall copy :: Reads(s.archive, copy) ==>
          copy.id in s.store.messages && !s.store.messages[copy.id].syncStatus.Deleted?
          && Visible(copy) == Visible(s.store.messages[copy.id]))
    && (forall id :: id in s.store.messages && !s.store.messages[id].syncStatus.Deleted? ==>
          exists copy :: Reads(s.archive, copy) && Visible(copy) == Visible(s.store.messages[id]))
    && (forall copy, copy' :: Reads(s.archive, copy) && Reads(s.archive, copy') && copy.id == copy'.id ==>
        copy == copy')
  }

  /** Once nothing is pending, readers of the archive see exactly the live store. */
  lemma ArchiveRefinesStore(states: seq<State>, acts: seq<Action>, i: nat)
    requires Run(states, acts) && StrictClock(states, acts) && QuietWindows(states, acts) && i <= |acts|
    requires Drained(CoreOf(states[i]))
    ensures ReaderMatchesStore(states[i])
  {
    RunIsSound(states, acts, i);
    RunIsInTime(states, acts, i);
    QuietWindowsLoseNothing(states, acts, i);
    ReaderSeesTheStore(CoreOf(states[i]), states[i].clock);
  }

  /** Among the copies of one message there is a latest one. */
  lemma {:induction false} LatestExists(archive: map<PatchId, Message>, ps: set<PatchId>, id: Uuid)
    returns (best: PatchId)
    requires ps <= archive.Keys && ps != {} && forall p :: p in ps ==> archive[p].id == id
    ensures best in ps && forall p :: p in ps ==> archive[p].updatedAt <= archive[best].updatedAt
    decreases |ps|
  {
    var p :| p in ps;
    best := p;
    if ps - {p} != {} {
      var other := LatestExists(archive, ps - {p}, id);
      if archive[other].updatedAt > archive[p].updatedAt {
        best := other;
      }
    }
    assert forall q :: q in ps ==> q == p || q in ps - {p};
  }

  /** Readers get the last written version of every message. */
  ghost predicate ReadersAreCurrent(s: State) {
    forall copy :: IsLatest(s.archive, copy) ==> copy.id in s.written && copy == ForWalrus(s.written[copy.id])
  }

  /** The exact condition: once nothing is pending, readers are current if and only if no
      write was marked over by a batch snapshotted before it. */
  lemma ReadersAreCurrentIff(states: seq<State>, acts: seq<Action>, i: nat)
    requires Run(states, acts) && StrictClock(states, acts) && i <= |acts|
    requires Drained(CoreOf(states[i]))
    ensures ReadersAreCurrent(states[i]) <==>
            forall id :: !WriteLost(states, acts, id, i)
  {
    var s, c := states[i], CoreOf(states[i]);
    RunIsSound(states, acts, i);
    RunIsInTime(states, acts, i);
    forall copy | IsLatest(s.archive, copy)
      ensures copy.id in c.messages && (copy == ForWalrus(c.written[copy.id]) <==> copy.id !in c.lost)
    {
      LatestIffNotLost(c, s.clock, copy);
    }
    forall id | WriteLost(states, acts, id, i)
      ensures !ReadersAreCurrent(s)
    {
      LostIff(states, acts, i, id);
      OwnCopy(c, id);
      var ps := set p | p in s.archive && s.archive[p].id == id;
      assert s.store.messages[id].quiltPatchId.value in ps;
      var best := LatestExists(s.archive, ps, id);
      assert IsLatest(s.archive, s.archive[best]);
    }
    forall id | id in s.lost
      ensures WriteLost(states, acts, id, i)
    {
      LostIff(states, acts, i, id);
    }
  }
}
