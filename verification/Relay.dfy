/** The running relayer: handlers and the sync worker interleave, one lock acquisition or
    network answer at a time. A create reserves its order under one lock and commits under
    another; an edit or delete checks the message under one lock and writes under another. */
module Relay {
  import opened Wrappers
  import opened Messages
  import opened Stores
  import opened Walrus
  import opened Archive

  /** A request being served. */
  type Ticket = nat

  datatype Creating = Drafted(m: Message) | Reserved(m: Message)

  /** A write that passed the ownership check of `sender` for `group`. */
  datatype Pending = Edit(id: Uuid, group: string, sender: string, content: Content)
                   | Removal(id: Uuid, group: string, sender: string)

  datatype Slot = Slot(group: string, order: int)

  datatype State = State(
    store: Store,
    clock: Timestamp,
    creates: map<Ticket, Creating>,
    pending: map<Ticket, Pending>,
    worker: Worker,
    archive: map<PatchId, Message>,
    // history
    burned: set<Slot>,
    written: map<Uuid, Message>,
    touched: set<Uuid>,
    lost: set<Uuid>)

  const START := State(EMPTY_STORE, 0, map[], map[], Idle, map[], {}, map[], {}, {})

  function CoreOf(s: State): Core {
    Core(s.store.messages, s.worker, s.archive, s.written, s.touched, s.lost)
  }

  function WithCore(s: State, c: Core): State {
    s.(store := s.store.(messages := c.messages), worker := c.worker, archive := c.archive,
       written := c.written, touched := c.touched, lost := c.lost)
  }

  datatype Action =
    | Draft(t: Ticket, m: Message)
    | Reserve(t: Ticket)
    | Commit(t: Ticket)
    | Fetch(t: Ticket, p: Pending)
    | Apply(t: Ticket, now: Timestamp)
    | TakeBatch(batch: seq<Message>)
    | Answer(added: map<PatchId, nat>, response: Option<seq<StoredPatch>>)
    | MarkNext(now: Timestamp)

  /** Both handlers reject the caller unless the message is in the authorized group and the
      caller sent it. */
  predicate Owns(m: Message, group: string, sender: string) {
    m.groupId == group && m.sender == sender
  }

  ghost predicate Enabled(s: State, a: Action) {
    match a
    case Draft(t, m) => t !in s.creates && m == NewMessage(m.id, m.groupId, m.sender, m.content, m.createdAt)
    case Reserve(t) => t in s.creates && s.creates[t].Drafted?
    case Commit(t) => t in s.creates && s.creates[t].Reserved?
    case Fetch(t, p) => t !in s.pending && p.id in s.store.messages && Owns(s.store.messages[p.id], p.group, p.sender)
    case Apply(t, now) => t in s.pending
    case TakeBatch(batch) => CanSnapshot(CoreOf(s), batch)
    case Answer(added, response) => CanUpload(CoreOf(s), added, response)
    case MarkNext(now) => CanMark(CoreOf(s))
  }

  function Step(s: State, a: Action): State
    requires Enabled(s, a)
  {
    match a
    case Draft(t, m) => s.(creates := s.creates[t := Drafted(m)], clock := m.createdAt)
    case Reserve(t) =>
      var m := s.creates[t].m;
      var store := ReserveOrder(s.store, m.groupId);
      s.(store := store, creates := s.creates[t := Reserved(WithOrder(m, Counter(store, m.groupId)))])
    case Commit(t) =>
      var m := s.creates[t].m;
      var s' := s.(creates := s.creates - {t});
      (match CommitMessage(s.store, m)
       case Ok(store) => WithCore(s', Write(CoreOf(s), m)).(store := store)
       case Err(_) => s'.(burned := s.burned + {Slot(m.groupId, OrderOf(m))}))
    case Fetch(t, p) => s.(pending := s.pending[t := p])
    case Apply(t, now) =>
      var p := s.pending[t];
      var s' := s.(pending := s.pending - {t}, clock := now);
      (match Outcome(s.store, p, now)
       case Ok(store) => WithCore(s', Write(CoreOf(s), store.messages[p.id])).(store := store)
       case Err(_) => s')
    case TakeBatch(batch) => WithCore(s, Snapshot(CoreOf(s), batch))
    case Answer(added, response) => WithCore(s, Upload(CoreOf(s), added, response))
    case MarkNext(now) => WithCore(s, Mark(CoreOf(s), now)).(clock := now)
  }

  /** The storage call behind a checked write. */
  function Outcome(store: Store, p: Pending, now: Timestamp): Result<Store, StorageError> {
    match p
    case Edit(id, _, _, content) => UpdateMessage(store, id, content, now)
    case Removal(id, _, _) => DeleteMessage(store, id, now)
  }

  // ---- Runs ----

  ghost predicate Run(states: seq<State>, acts: seq<Action>) {
    && |states| == |acts| + 1
    && states[0] == START
    && forall i :: 0 <= i < |acts| ==> Enabled(states[i], acts[i]) && states[i + 1] == Step(states[i], acts[i])
  }

  ghost predicate IsStep(s: State, a: Action, s': State) {
    Enabled(s, a) && Step(s, a) == s'
  }

  lemma StepsAreRun(states: seq<State>, acts: seq<Action>)
    requires |states| == |acts| + 1 && states[0] == START
    requires forall i :: 0 <= i < |acts| ==> IsStep(states[i], acts[i], states[i + 1])
    ensures Run(states, acts)
  {
    forall i | 0 <= i < |acts|
      ensures Enabled(states[i], acts[i]) && states[i + 1] == Step(states[i], acts[i])
    {
      assert IsStep(states[i], acts[i], states[i + 1]);
    }
  }

  /** Each reading of the clock is later than all before it. */
  predicate Ticks(s: State, a: Action) {
    match a
    case Draft(_, m) => s.clock < m.createdAt
    case Apply(_, now) => s.clock < now
    case MarkNext(now) => s.clock < now
    case _ => true
  }

  ghost predicate StrictClock(states: seq<State>, acts: seq<Action>)
    requires |states| == |acts| + 1
  {
    forall i :: 0 <= i < |acts| ==> Ticks(states[i], acts[i])
  }

  /** No user write falls on a message between its snapshot and its mark. */
  ghost predicate OutsideWindow(s: State, a: Action) {
    a.Apply? && a.t in s.pending ==> forall m :: m in Unmarked(s.worker) ==> m.id != s.pending[a.t].id
  }

  ghost predicate QuietWindows(states: seq<State>, acts: seq<Action>)
    requires |states| == |acts| + 1
  {
    forall i :: 0 <= i < |acts| ==> OutsideWindow(states[i], acts[i])
  }

  // ---- The store as transitions of the core ----

  /** What a step does to the messages, the worker and the archive. */
  datatype CoreStep =
    | Unchanged
    | Wrote(m: Message)
    | Snapshotted(batch: seq<Message>)
    | Answered(added: map<PatchId, nat>, response: Option<seq<StoredPatch>>)
    | Marked(now: Timestamp)

  function CoreStepOf(s: State, a: Action): CoreStep
    requires Enabled(s, a)
  {
    match a
    case Commit(t) => if CommitMessage(s.store, s.creates[t].m).Ok? then Wrote(s.creates[t].m) else Unchanged
    case Apply(t, now) =>
      var p := s.pending[t];
      var r := Outcome(s.store, p, now);
      if r.Ok? then Wrote(r.value.messages[p.id]) else Unchanged
    case TakeBatch(batch) => Snapshotted(batch)
    case Answer(added, response) => Answered(added, response)
    case MarkNext(now) => Marked(now)
    case _ => Unchanged
  }

  ghost predicate CoreEnabled(c: Core, k: CoreStep) {
    match k
    case Unchanged => true
    case Wrote(m) => CanWrite(c, m)
    case Snapshotted(batch) => CanSnapshot(c, batch)
    case Answered(added, response) => CanUpload(c, added, response)
    case Marked(_) => CanMark(c)
  }

  function CoreNext(c: Core, k: CoreStep): Core
    requires CoreEnabled(c, k)
  {
    match k
    case Unchanged => c
    case Wrote(m) => Write(c, m)
    case Snapshotted(batch) => Snapshot(c, batch)
    case Answered(added, response) => Upload(c, added, response)
    case Marked(now) => Mark(c, now)
  }

  // ---- What every interleaving keeps, besides orders and archive agreement ----

  /** Requests in flight know stored messages, and drafts look like new messages. */
  ghost predicate InFlight(s: State) {
    && (forall t :: t in s.pending ==>
          s.pending[t].id in s.store.messages
          && Owns(s.store.messages[s.pending[t].id], s.pending[t].group, s.pending[t].sender))
    && (forall t :: t in s.creates ==>
          s.creates[t].m.syncStatus.SyncPending? && s.creates[t].m.updatedAt == s.creates[t].m.createdAt
          && s.creates[t].m.quiltPatchId.None?)
  }

  ghost predicate Indexed(s: State) {
    Keyed(s.store) && NonceIndexAgrees(s.store)
  }

  /** Every step is a transition of the core. */
  lemma StepIsCoreStep(s: State, a: Action)
    requires Enabled(s, a) && InFlight(s) && Keyed(s.store)
    ensures CoreEnabled(CoreOf(s), CoreStepOf(s, a))
    ensures CoreOf(Step(s, a)) == CoreNext(CoreOf(s), CoreStepOf(s, a))
  {
    match a
    case Apply(t, now) => assert s.store.messages[s.pending[t].id].id == s.pending[t].id;
    case _ =>
  }
}
