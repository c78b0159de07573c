/** What every interleaving of handlers and worker keeps. */
module RelayInvariants {
  import opened Messages
  import opened Stores
  import opened Archive
  import opened Relay

  // ---- Messages only gain company ----

  /** Every message of `before` is still there, with the same identity. */
  ghost predicate Keeps(before: map<Uuid, Message>, after: map<Uuid, Message>) {
    forall id {:trigger after[id]} {:trigger before[id]} :: id in before ==>
      id in after && SameIdentity(before[id], after[id])
  }

  lemma CoreNextKeeps(c: Core, k: CoreStep)
    requires CoreEnabled(c, k)
    ensures Keeps(c.messages, CoreNext(c, k).messages)
  {
    if k.Marked? {
      MarkEffect(c, k.now);
    }
  }

  lemma StepKeeps(s: State, a: Action)
    requires Enabled(s, a) && InFlight(s) && Keyed(s.store)
    ensures Keeps(s.store.messages, Step(s, a).store.messages)
  {
    StepIsCoreStep(s, a);
    CoreNextKeeps(CoreOf(s), CoreStepOf(s, a));
    assert Step(s, a).store.messages == CoreOf(Step(s, a)).messages;
  }

  // ---- Requests in flight ----

  lemma StepKeepsInFlight(s: State, a: Action)
    requires Enabled(s, a) && InFlight(s) && Keyed(s.store)
    ensures InFlight(Step(s, a))
  {
    StepKeeps(s, a);
    var s' := Step(s, a);
    PendingTable(s, a);
    forall t | t in s'.pending
      ensures s'.pending[t].id in s'.store.messages
      ensures Owns(s'.store.messages[s'.pending[t].id], s'.pending[t].group, s'.pending[t].sender)
    {
      var p := s'.pending[t];
      assert p.id in s.store.messages && Owns(s.store.messages[p.id], p.group, p.sender);
    }
    CreatesLookNew(s, a);
  }

  lemma PendingTable(s: State, a: Action)
    requires Enabled(s, a)
    ensures forall t :: t in Step(s, a).pending ==>
              || (t in s.pending && Step(s, a).pending[t] == s.pending[t])
              || (a.Fetch? && a.t == t && Step(s, a).pending[t] == a.p)
  {
  }

  lemma CreatesLookNew(s: State, a: Action)
    requires Enabled(s, a) && InFlight(s)
    ensures forall t :: t in Step(s, a).creates ==>
              var m := Step(s, a).creates[t].m;
              m.syncStatus.SyncPending? && m.updatedAt == m.createdAt && m.quiltPatchId.None?
  {
  }

  // ---- The nonce index ----

  lemma StepKeepsIndexed(s: State, a: Action)
    requires Enabled(s, a) && InFlight(s) && Indexed(s)
    ensures Indexed(Step(s, a))
  {
    match a
    case Reserve(t) => SameContentsKeepIndex(s.store, Step(s, a).store);
    case Commit(t) =>
      if CommitMessage(s.store, s.creates[t].m).Ok? {
        CommitKeepsIndex(s.store, s.creates[t].m);
      }
    case Apply(t, now) =>
      match s.pending[t] {
        case Edit(id, _, _, content) =>
          if UpdateMessage(s.store, id, content, now).Ok? {
            UpdateKeepsIndex(s.store, id, content, now);
          }
        case Removal(id, _, _) => SameContentsKeepIndex(s.store, Step(s, a).store);
      }
    case MarkNext(now) =>
      MarkEffect(CoreOf(s), now);
      SameContentsKeepIndex(s.store, Step(s, a).store);
    case _ =>
  }

  // ---- Agreement of store, worker and archive ----

  lemma CoreNextAgrees(c: Core, k: CoreStep)
    requires Agrees(c) && CoreEnabled(c, k)
    ensures Agrees(CoreNext(c, k))
  {
    match k
    case Unchanged =>
    case Wrote(m) => WriteKeepsAgreement(c, m);
    case Snapshotted(batch) => SnapshotKeepsAgreement(c, batch);
    case Answered(added, response) => UploadKeepsAgreement(c, added, response);
    case Marked(now) => MarkKeepsAgreement(c, now);
  }

  ghost predicate Sound(s: State) {
    InFlight(s) && Indexed(s) && Agrees(CoreOf(s))
  }

  lemma StepKeepsSound(s: State, a: Action)
    requires Enabled(s, a) && Sound(s)
    ensures Sound(Step(s, a))
  {
    StepKeepsInFlight(s, a);
    StepKeepsIndexed(s, a);
    assert Agrees(CoreOf(Step(s, a))) by {
      StepIsCoreStep(s, a);
      CoreNextAgrees(CoreOf(s), CoreStepOf(s, a));
    }
  }

  /** In every interleaving: the nonce index is exactly the stored nonces, each used once; and
      the store, the worker's batch and the archive agree. */
  lemma {:induction false} RunIsSound(states: seq<State>, acts: seq<Action>, i: nat)
    requires Run(states, acts) && i <= |acts|
    ensures Sound(states[i])
  {
    if i > 0 {
      RunIsSound(states, acts, i - 1);
      StepKeepsSound(states[i - 1], acts[i - 1]);
      assert states[i - 1 + 1] == Step(states[i - 1], acts[i - 1]);
    }
  }

  // ---- A check made at fetch time holds at the later write ----

  /** Ids only grow, and id, group, order, sender and creation time never change. */
  lemma {:induction false} IdentityIsStable(states: seq<State>, acts: seq<Action>, i: nat, j: nat)
    requires Run(states, acts) && i <= j <= |acts|
    ensures Keeps(states[i].store.messages, states[j].store.messages)
    decreases j
  {
    if i < j {
      IdentityIsStable(states, acts, i, j - 1);
      RunIsSound(states, acts, j - 1);
      StepKeeps(states[j - 1], acts[j - 1]);
      assert states[j - 1 + 1] == Step(states[j - 1], acts[j - 1]);
      var a, b, c := states[i].store.messages, states[j - 1].store.messages, states[j].store.messages;
      forall id | id in a
        ensures id in c && SameIdentity(a[id], c[id])
      {
        assert id in b && SameIdentity(a[id], b[id]);
      }
    }
  }

  /** At the moment of a checked write the message exists and still belongs to the checked
      sender and group; the write can only be refused for a nonce that another message holds. */
  lemma CheckedWriteHolds(states: seq<State>, acts: seq<Action>, i: nat)
    requires Run(states, acts) && i < |acts| && acts[i].Apply?
    ensures var s, p := states[i], states[i].pending[acts[i].t];
            && p.id in s.store.messages && Owns(s.store.messages[p.id], p.group, p.sender)
            && (Outcome(s.store, p, acts[i].now).Err? <==>
                  p.Edit? && exists other :: other in s.store.messages && other != p.id
                                             && s.store.messages[other].content.nonce == p.content.nonce)
  {
    RunIsSound(states, acts, i);
    var s, p := states[i], states[i].pending[acts[i].t];
    if p.Edit? {
      EditRefusedIff(s.store, p.id, p.content, acts[i].now);
    }
  }

  /** The worker never marks a message that is gone. */
  lemma MarkNeverMisses(states: seq<State>, acts: seq<Action>, i: nat)
    requires Run(states, acts) && i < |acts| && acts[i].MarkNext?
    ensures CanMark(CoreOf(states[i]))
    ensures var w := states[i].worker;
            w.batch[w.next].id in states[i].store.messages
            && SameIdentity(w.batch[w.next], states[i].store.messages[w.batch[w.next].id])
  {
    RunIsSound(states, acts, i);
    var c := CoreOf(states[i]);
    assert Enabled(states[i], acts[i]);
    assert c.worker.batch[c.worker.next] in c.worker.batch && BatchKnown(c);
  }

  // ---- Time ----

  ghost predicate InTime(s: State) {
    Timed(CoreOf(s), s.clock) && DraftsPast(s)
  }

  lemma CoreNextTimed(c: Core, k: CoreStep, clock: Timestamp, clock': Timestamp)
    requires Agrees(c) && Timed(c, clock) && CoreEnabled(c, k) && clock <= clock'
    requires k.Wrote? ==> NewerWrite(c, k.m, clock, clock')
    ensures Timed(CoreNext(c, k), clock')
  {
    match k
    case Unchanged =>
    case Wrote(m) => WriteKeepsTimed(c, m, clock, clock');
    case Snapshotted(batch) => SnapshotKeepsTimed(c, batch, clock);
    case Answered(added, response) => UploadKeepsTimed(c, added, response, clock);
    case Marked(now) => MarkKeepsTimed(c, now, clock);
  }

  ghost predicate DraftsPast(s: State) {
    forall t :: t in s.creates ==> s.creates[t].m.updatedAt <= s.clock
  }

  lemma TickMovesOn(s: State, a: Action)
    requires Enabled(s, a) && DraftsPast(s) && Ticks(s, a)
    ensures s.clock <= Step(s, a).clock && DraftsPast(Step(s, a))
  {
  }

  lemma TickWritesNewer(s: State, a: Action)
    requires Enabled(s, a) && DraftsPast(s) && Ticks(s, a) && Keyed(s.store)
    requires CoreStepOf(s, a).Wrote?
    ensures NewerWrite(CoreOf(s), CoreStepOf(s, a).m, s.clock, Step(s, a).clock)
  {
  }

  lemma StepKeepsInTime(s: State, a: Action)
    requires Enabled(s, a) && Sound(s) && InTime(s) && Ticks(s, a)
    ensures InTime(Step(s, a))
  {
    TickMovesOn(s, a);
    assert Timed(CoreOf(Step(s, a)), Step(s, a).clock) by {
      StepIsCoreStep(s, a);
      var k := CoreStepOf(s, a);
      if k.Wrote? {
        TickWritesNewer(s, a);
      }
      CoreNextTimed(CoreOf(s), k, s.clock, Step(s, a).clock);
    }
  }

  lemma {:induction false} RunIsInTime(states: seq<State>, acts: seq<Action>, i: nat)
    requires Run(states, acts) && StrictClock(states, acts) && i <= |acts|
    ensures InTime(states[i])
  {
    if i > 0 {
      RunIsInTime(states, acts, i - 1);
      RunIsSound(states, acts, i - 1);
      assert Ticks(states[i - 1], acts[i - 1]);
      StepKeepsInTime(states[i - 1], acts[i - 1]);
      assert states[i - 1 + 1] == Step(states[i - 1], acts[i - 1]);
    }
  }
}
