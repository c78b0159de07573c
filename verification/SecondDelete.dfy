/** A lost write that costs nothing: a second delete while the first is being archived. */
module SecondDelete {
  import opened Wrappers
  import opened Messages
  import opened Stores
  import opened Walrus
  import opened Archive
  import opened Relay
  import opened ArchiveRuns
  import opened LostWrite
  import opened LastWrites

  function Removed(m: Message, now: Timestamp): Message {
    MarkedForDeletion(m, now)
  }

  function Gone(m: Message, p: PatchId): Message {
    WithStatus(Removed(m, 3), Deleted, Some(p), 4)
  }

  /** Create, delete, snapshot, delete again, upload, mark. */
  function Actions(m: Message, w: Pending, p: PatchId): seq<Action> {
    [ Draft(0, Unordered(m)), Reserve(0), Commit(0),
      Fetch(0, w), Apply(0, 2),
      TakeBatch([Removed(m, 2)]),
      Fetch(0, w), Apply(0, 3),
      Answer(map[p := 0], Some([StoredPatch(Identifier(m.id), p)])),
      MarkNext(4) ]
  }

  function States(m: Message, w: Pending, p: PatchId): seq<State> {
    var d, d', id := Removed(m, 2), Removed(m, 3), m.id;
    var answer, archive := [StoredPatch(Identifier(id), p)], map[p := ForWalrus(d)];
    var w0, w1, w2 := map[id := m], map[id := d], map[id := d'];
    [ START,
      State(EMPTY_STORE, 1, map[0 := Drafted(Unordered(m))], map[], Idle, map[], {}, map[], {}, {}),
      State(Store(map[], map[m.groupId := 1], {}), 1, map[0 := Reserved(m)], map[], Idle, map[], {}, map[], {}, {}),
      State(Holding(m), 1, map[], map[], Idle, map[], {}, w0, {id}, {}),
      State(Holding(m), 1, map[], map[0 := w], Idle, map[], {}, w0, {id}, {}),
      State(Holding(d), 2, map[], map[], Idle, map[], {}, w1, {id}, {}),
      State(Holding(d), 2, map[], map[], Uploading([d]), map[], {}, w1, {}, {}),
      State(Holding(d), 2, map[], map[0 := w], Uploading([d]), map[], {}, w1, {}, {}),
      State(Holding(d'), 3, map[], map[], Uploading([d]), map[], {}, w2, {id}, {}),
      State(Holding(d'), 3, map[], map[], Marking([d], answer, 0), archive, {}, w2, {id}, {}),
      State(Holding(Gone(m, p)), 4, map[], map[], Idle, archive, {}, w2, {id}, {id}) ]
  }

  ghost predicate IsCase(m: Message, w: Pending) {
    m == First(m.id, m.groupId, m.sender, m.content) && w == Removal(m.id, m.groupId, m.sender)
  }

  lemma CreateSteps(m: Message, w: Pending, p: PatchId, i: nat)
    requires IsCase(m, w) && i < 3
    ensures IsStep(States(m, w, p)[i], Actions(m, w, p)[i], States(m, w, p)[i + 1])
  {
    FirstSteps(m, w, p);
    assert States(m, w, p)[..4] == Trace(m, w, p)[..4];
    assert Trace(m, w, p)[..4][i] == Trace(m, w, p)[i] && Trace(m, w, p)[..4][i + 1] == Trace(m, w, p)[i + 1];
  }

  lemma FirstDeleteSteps(m: Message, w: Pending, p: PatchId, i: nat)
    requires IsCase(m, w) && 3 <= i < 5
    ensures IsStep(States(m, w, p)[i], Actions(m, w, p)[i], States(m, w, p)[i + 1])
  {
    var s, a := States(m, w, p), Actions(m, w, p);
    assert s[4].pending - {0} == map[];
    assert Step(s[i], a[i]).store == s[i + 1].store;
  }

  lemma SnapshotStep(m: Message, w: Pending, p: PatchId)
    requires IsCase(m, w)
    ensures IsStep(States(m, w, p)[5], Actions(m, w, p)[5], States(m, w, p)[6])
  {
    var d := Removed(m, 2);
    assert [d][0] == d;
  }

  lemma SecondDeleteSteps(m: Message, w: Pending, p: PatchId, i: nat)
    requires IsCase(m, w) && 6 <= i < 8
    ensures IsStep(States(m, w, p)[i], Actions(m, w, p)[i], States(m, w, p)[i + 1])
  {
    var s, a := States(m, w, p), Actions(m, w, p);
    assert s[7].pending - {0} == map[];
    assert Step(s[i], a[i]).store == s[i + 1].store;
  }

  lemma UploadStep(m: Message, w: Pending, p: PatchId)
    requires IsCase(m, w)
    ensures IsStep(States(m, w, p)[8], Actions(m, w, p)[8], States(m, w, p)[9])
  {
    var s, a := States(m, w, p), Actions(m, w, p);
    assert Enabled(s[8], a[8]);
    assert Step(s[8], a[8]).archive == map[p := ForWalrus(Removed(m, 2))];
  }

  lemma GoneStep(m: Message, w: Pending, p: PatchId)
    requires IsCase(m, w)
    ensures IsStep(States(m, w, p)[9], Actions(m, w, p)[9], States(m, w, p)[10])
  {
    assert GetPatchId([StoredPatch(Identifier(m.id), p)], Identifier(m.id)) == Some(p);
  }

  lemma ActionsTick(m: Message, w: Pending, p: PatchId)
    requires IsCase(m, w)
    ensures StrictClock(States(m, w, p), Actions(m, w, p))
  {
  }

  lemma StatesAreRun(m: Message, w: Pending, p: PatchId)
    requires IsCase(m, w)
    ensures Run(States(m, w, p), Actions(m, w, p))
  {
    forall i | 0 <= i < 10
      ensures IsStep(States(m, w, p)[i], Actions(m, w, p)[i], States(m, w, p)[i + 1])
    {
      if i < 3 {
        CreateSteps(m, w, p, i);
      } else if i < 5 {
        FirstDeleteSteps(m, w, p, i);
      } else if i == 5 {
        SnapshotStep(m, w, p);
      } else if i < 8 {
        SecondDeleteSteps(m, w, p, i);
      } else if i == 8 {
        UploadStep(m, w, p);
      } else {
        GoneStep(m, w, p);
      }
    }
    StepsAreRun(States(m, w, p), Actions(m, w, p));
  }

  lemma StatesEnd(m: Message, w: Pending, p: PatchId)
    requires IsCase(m, w)
    ensures var s := States(m, w, p)[10];
            && Drained(CoreOf(s)) && s.store.messages == map[m.id := Gone(m, p)]
            && s.written == map[m.id := Removed(m, 3)] && s.lost == {m.id}
            && forall copy :: !Reads(s.archive, copy)
  {
  }

  /** For every message there is a run in which a write is lost and readers do not have the last
      written version, yet the delete holds and every message is shown as its user left it. */
  lemma SecondDeleteIsHarmless(id: Uuid, group: string, sender: string, content: Content, p: PatchId)
    returns (states: seq<State>, acts: seq<Action>)
    ensures Run(states, acts) && StrictClock(states, acts)
    ensures var s := states[|acts|];
            && Drained(CoreOf(s)) && id in s.written && WriteLost(states, acts, id, |acts|) && !ReadersAreCurrent(s)
            && id in s.store.messages && s.store.messages[id].syncStatus == Deleted
            && forall other :: other in s.written ==> ShowsLastWrite(s, other)
  {
    var m, w := First(id, group, sender, content), Removal(id, group, sender);
    states, acts := States(m, w, p), Actions(m, w, p);
    StatesAreRun(m, w, p);
    ActionsTick(m, w, p);
    StatesEnd(m, w, p);
    LostIff(states, acts, |acts|, id);
    ReadersAreCurrentIff(states, acts, |acts|);
  }
}
