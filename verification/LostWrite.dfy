/** A write that falls between a message's snapshot and its mark never reaches the archive: an
    edit is not shown to readers, and a delete is undone in the store as well. */
module LostWrite {
  import opened Wrappers
  import opened Messages
  import opened Stores
  import opened Walrus
  import opened Archive
  import opened Relay
  import opened ArchiveRuns
  import opened Readers

  /** The message as first stored, in a group of its own. */
  function First(id: Uuid, group: string, sender: string, content: Content): Message {
    WithOrder(NewMessage(id, group, sender, content, 1), 1)
  }

  /** A checked edit or delete of this message. */
  predicate IsWriteTo(m: Message, w: Pending) {
    w.id == m.id && Owns(m, w.group, w.sender)
  }

  function Rewritten(m: Message, w: Pending): Message {
    match w
    case Edit(_, _, _, content) => WithContent(m, content, 2)
    case Removal(_, _, _) => MarkedForDeletion(m, 2)
  }

  function AfterMark(m: Message, w: Pending, p: PatchId): Message {
    WithStatus(Rewritten(m, w), Synced, Some(p), 3)
  }

  /** Create, snapshot, write, upload, mark. */
  function Script(m: Message, w: Pending, p: PatchId): seq<Action> {
    [ Draft(0, Unordered(m)),
      Reserve(0),
      Commit(0),
      TakeBatch([m]),
      Fetch(0, w),
      Apply(0, 2),
      Answer(map[p := 0], Some([StoredPatch(Identifier(m.id), p)])),
      MarkNext(3) ]
  }

  function Holding(m: Message): Store {
    Store(map[m.id := m], map[m.groupId := 1], {m.content.nonce})
  }

  function Trace(m: Message, w: Pending, p: PatchId): seq<State> {
    var stored, rewritten, marked := Holding(m), Holding(Rewritten(m, w)), Holding(AfterMark(m, w, p));
    var w0, w1 := map[m.id := m], map[m.id := Rewritten(m, w)];
    var answer, archive := [StoredPatch(Identifier(m.id), p)], map[p := ForWalrus(m)];
    [ START,
      State(EMPTY_STORE, 1, map[0 := Drafted(Unordered(m))], map[], Idle, map[], {}, map[], {}, {}),
      State(Store(map[], map[m.groupId := 1], {}), 1, map[0 := Reserved(m)], map[], Idle, map[], {}, map[], {}, {}),
      State(stored, 1, map[], map[], Idle, map[], {}, w0, {m.id}, {}),
      State(stored, 1, map[], map[], Uploading([m]), map[], {}, w0, {}, {}),
      State(stored, 1, map[], map[0 := w], Uploading([m]), map[], {}, w0, {}, {}),
      State(rewritten, 2, map[], map[], Uploading([m]), map[], {}, w1, {m.id}, {}),
      State(rewritten, 2, map[], map[], Marking([m], answer, 0), archive, {}, w1, {m.id}, {}),
      State(marked, 3, map[], map[], Idle, archive, {}, w1, {m.id}, {m.id}) ]
  }

  lemma FirstSteps(m: Message, w: Pending, p: PatchId)
    requires m == First(m.id, m.groupId, m.sender, m.content)
    ensures var s, a := Trace(m, w, p), Script(m, w, p); forall i :: 0 <= i < 3 ==> IsStep(s[i], a[i], s[i + 1])
  {
    var s, a := Trace(m, w, p), Script(m, w, p);
    assert IsStep(s[0], a[0], s[1]);
    assert IsStep(s[1], a[1], s[2]);
    assert s[2].creates - {0} == map[];
    assert IsStep(s[2], a[2], s[3]);
  }

  lemma WriteStep(m: Message, w: Pending, p: PatchId)
    requires m == First(m.id, m.groupId, m.sender, m.content) && IsWriteTo(m, w)
    ensures var s, a := Trace(m, w, p), Script(m, w, p); IsStep(s[5], a[5], s[6])
  {
    var s := Trace(m, w, p);
    assert s[5].pending - {0} == map[];
    if w.Edit? {
      assert {m.content.nonce} - {m.content.nonce} + {w.content.nonce} == {w.content.nonce};
    }
  }

  lemma WindowSteps(m: Message, w: Pending, p: PatchId)
    requires m == First(m.id, m.groupId, m.sender, m.content) && IsWriteTo(m, w)
    ensures var s, a := Trace(m, w, p), Script(m, w, p); forall i :: 3 <= i < 6 ==> IsStep(s[i], a[i], s[i + 1])
  {
    var s, a := Trace(m, w, p), Script(m, w, p);
    assert IsStep(s[3], a[3], s[4]);
    assert IsStep(s[4], a[4], s[5]);
    WriteStep(m, w, p);
  }

  lemma AnswerStep(m: Message, w: Pending, p: PatchId)
    requires m == First(m.id, m.groupId, m.sender, m.content)
    ensures var s, a := Trace(m, w, p), Script(m, w, p); IsStep(s[6], a[6], s[7])
  {
    var s, a := Trace(m, w, p), Script(m, w, p);
    assert Enabled(s[6], a[6]);
    assert Step(s[6], a[6]).archive == map[p := ForWalrus(m)];
  }

  lemma MarkStep(m: Message, w: Pending, p: PatchId)
    requires m == First(m.id, m.groupId, m.sender, m.content)
    ensures var s, a := Trace(m, w, p), Script(m, w, p); IsStep(s[7], a[7], s[8])
  {
    assert GetPatchId([StoredPatch(Identifier(m.id), p)], Identifier(m.id)) == Some(p);
  }

  lemma TraceTicks(m: Message, w: Pending, p: PatchId)
    requires m == First(m.id, m.groupId, m.sender, m.content)
    ensures StrictClock(Trace(m, w, p), Script(m, w, p))
  {
  }

  lemma TraceSteps(m: Message, w: Pending, p: PatchId, i: nat)
    requires m == First(m.id, m.groupId, m.sender, m.content) && IsWriteTo(m, w) && i < 8
    ensures var s, a := Trace(m, w, p), Script(m, w, p); IsStep(s[i], a[i], s[i + 1])
  {
    if i < 3 {
      FirstSteps(m, w, p);
    } else if i < 6 {
      WindowSteps(m, w, p);
    } else if i == 6 {
      AnswerStep(m, w, p);
    } else {
      MarkStep(m, w, p);
    }
  }

  lemma TraceIsRun(m: Message, w: Pending, p: PatchId)
    requires m == First(m.id, m.groupId, m.sender, m.content) && IsWriteTo(m, w)
    ensures Run(Trace(m, w, p), Script(m, w, p)) && StrictClock(Trace(m, w, p), Script(m, w, p))
  {
    forall i | 0 <= i < 8
      ensures IsStep(Trace(m, w, p)[i], Script(m, w, p)[i], Trace(m, w, p)[i + 1])
    {
      TraceSteps(m, w, p, i);
    }
    StepsAreRun(Trace(m, w, p), Script(m, w, p));
    TraceTicks(m, w, p);
  }

  /** In the end the store holds the write under the status of the older snapshot, and readers are
      shown the snapshot. */
  lemma TraceEnds(m: Message, w: Pending, p: PatchId)
    requires m == First(m.id, m.groupId, m.sender, m.content)
    ensures var s := Trace(m, w, p)[8];
            && Drained(CoreOf(s)) && s.store.messages == map[m.id := AfterMark(m, w, p)]
            && s.written == map[m.id := Rewritten(m, w)] && s.lost == {m.id}
            && Reads(s.archive, ForWalrus(m)) && Own(CoreOf(s), m.id) == Some(ForWalrus(m))
  {
    var s := Trace(m, w, p)[8];
    assert s.archive[p] == ForWalrus(m);
  }

  /** For every message and every edit that changes it there is a run, on a strictly increasing
      clock, after which nothing is pending, the store holds the edit, and readers of the
      archive are shown the old content. */
  lemma EditInWindowIsLost(id: Uuid, group: string, sender: string, content: Content, edit: Content, p: PatchId)
    returns (states: seq<State>, acts: seq<Action>)
    requires content != edit
    ensures Run(states, acts) && StrictClock(states, acts)
    ensures var s := states[|acts|];
            && Drained(CoreOf(s))
            && id in s.store.messages && s.store.messages[id].content == edit
            && (exists copy :: Reads(s.archive, copy) && copy.id == id && copy.content == content)
            && !ReaderMatchesStore(s)
  {
    var m, w := First(id, group, sender, content), Edit(id, group, sender, edit);
    states, acts := Trace(m, w, p), Script(m, w, p);
    TraceIsRun(m, w, p);
    TraceEnds(m, w, p);
    assert Visible(ForWalrus(m)).content != Visible(states[8].store.messages[id]).content;
  }

  /** For every message there is a run in which a delete is applied and then undone: nothing is
      pending, the store holds the message as Synced, readers are shown it, and so archive and
      store agree on what the last write denies. */
  lemma DeleteInWindowIsUndone(id: Uuid, group: string, sender: string, content: Content, p: PatchId)
    returns (states: seq<State>, acts: seq<Action>)
    ensures Run(states, acts) && StrictClock(states, acts)
    ensures var s := states[|acts|];
            && Drained(CoreOf(s))
            && id in s.written && s.written[id].syncStatus == DeletePending && WriteLost(states, acts, id, |acts|)
            && id in s.store.messages && s.store.messages[id].syncStatus == Synced
            && (exists copy :: Reads(s.archive, copy) && copy.id == id && copy.content == content)
            && ReaderMatchesStore(s) && !ReadersAreCurrent(s)
  {
    var m, w := First(id, group, sender, content), Removal(id, group, sender);
    states, acts := Trace(m, w, p), Script(m, w, p);
    TraceIsRun(m, w, p);
    TraceEnds(m, w, p);
    LostIff(states, acts, |acts|, id);
    ReaderMatchesStoreIff(states, acts, |acts|);
    ReadersAreCurrentIff(states, acts, |acts|);
  }
}
