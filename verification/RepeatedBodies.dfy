/** When one signed request body can be stored a second time, as another message: an edit of the
    first gives its nonce free. */
module RepeatedBodies {
  import opened Wrappers
  import opened Messages
  import opened Membership
  import opened Stores
  import opened Auth
  import opened Handlers
  import opened Authorship
  import opened Archive
  import opened Relay
  import opened RelayInvariants
  import opened Deletions
  import Hex
  import Permissions

  // ---- Past the middleware again ----

  /** A body that was served once is served again exactly while its timestamp is in its lifetime
      and its sender still holds the permission; and it asks for the same message. */
  lemma ReadmittedIff(env: Env, members: Members, now: int, members': Members, now': int, http: Request)
    requires PostRequest(env, members, now, http).Ok? && ClaimOf(env, http).Ok?
    ensures var (ctx, r) := PostRequest(env, members, now, http).value;
            && (PostRequest(env, members', now', http).Ok? <==>
                  && Distance(now', ClaimOf(env, http).value.timestamp) <= env.ttl
                  && Holds(members', r.groupId, r.senderAddress, Permissions.MessagingSender))
            && (PostRequest(env, members', now', http).Ok? ==>
                  PostRequest(env, members', now', http) == PostRequest(env, members, now, http))
  {
  }

  lemma SameBodySameContent(env: Env, members: Members, now: int, members': Members, now': int, http: Request,
                            m: Message, m': Message)
    requires DraftOf(env, members, now, http, m) && DraftOf(env, members', now', http, m')
    requires ClaimOf(env, http).Ok?
    ensures m'.content == m.content && m'.groupId == m.groupId && m'.sender == m.sender
  {
    ReadmittedIff(env, members, now, members', now', http);
  }

  // ---- Past the store again ----

  predicate HasNonce(messages: map<Uuid, Message>, id: Uuid, nonce: Hex.Bytes) {
    id in messages && messages[id].content.nonce == nonce
  }

  /** At its commit a create is admitted exactly when its id is new and nobody holds its nonce. */
  lemma AdmittedIff(states: seq<State>, acts: seq<Action>, j: nat)
    requires Run(states, acts) && j < |acts| && acts[j].Commit?
    ensures var s, m := states[j], states[j].creates[acts[j].t].m;
            CommitMessage(s.store, m).Ok? <==>
              m.id !in s.store.messages && forall other :: !HasNonce(s.store.messages, other, m.content.nonce)
  {
    RunIsSound(states, acts, j);
    var s, m := states[j], states[j].creates[acts[j].t].m;
    NonceHeldIff(s.store, m.content.nonce);
    if NonceHeld(s.store, m.content.nonce, None) {
      var other :| other in s.store.messages && s.store.messages[other].content.nonce == m.content.nonce;
      assert HasNonce(s.store.messages, other, m.content.nonce);
    }
  }

  lemma CoreNextKeepsContent(c: Core, k: CoreStep, id: Uuid)
    requires CoreEnabled(c, k) && id in c.messages
    requires k.Wrote? && k.m.id == id ==> k.m.content == c.messages[id].content
    ensures id in CoreNext(c, k).messages && CoreNext(c, k).messages[id].content == c.messages[id].content
  {
    if k.Marked? {
      MarkEffect(c, k.now);
    }
  }

  lemma OnlyEditsChangeContent(s: State, a: Action, id: Uuid)
    requires Enabled(s, a) && InFlight(s) && Keyed(s.store) && id in s.store.messages && !Edits(s, a, id)
    ensures var k := CoreStepOf(s, a); k.Wrote? && k.m.id == id ==> k.m.content == s.store.messages[id].content
  {
    match a
    case Apply(t, now) => assert s.store.messages[s.pending[t].id].id == s.pending[t].id;
    case _ =>
  }

  /** A message's content stays until an edit of it is admitted. */
  lemma StepKeepsContent(s: State, a: Action, id: Uuid)
    requires Enabled(s, a) && InFlight(s) && Keyed(s.store) && id in s.store.messages && !Edits(s, a, id)
    ensures id in Step(s, a).store.messages
    ensures Step(s, a).store.messages[id].content == s.store.messages[id].content
  {
    OnlyEditsChangeContent(s, a, id);
    StepIsCoreStep(s, a);
    CoreNextKeepsContent(CoreOf(s), CoreStepOf(s, a), id);
    assert CoreOf(Step(s, a)).messages == Step(s, a).store.messages;
  }

  lemma UneditedStep(states: seq<State>, acts: seq<Action>, id: Uuid, k: nat)
    requires Run(states, acts) && k < |acts| && id in states[k].store.messages && !Edits(states[k], acts[k], id)
    ensures HasNonce(states[k + 1].store.messages, id, states[k].store.messages[id].content.nonce)
  {
    assert InFlight(states[k]) && Keyed(states[k].store) by { RunIsSound(states, acts, k); }
    assert states[k + 1] == Step(states[k], acts[k]);
    StepKeepsContent(states[k], acts[k], id);
  }

  lemma {:induction false} UneditedKeepsNonce(states: seq<State>, acts: seq<Action>, id: Uuid, nonce: Hex.Bytes,
                                              i: nat, j: nat)
    requires Run(states, acts) && i <= j <= |acts| && HasNonce(states[i].store.messages, id, nonce)
    requires forall k :: i <= k < j ==> !Edits(states[k], acts[k], id)
    ensures HasNonce(states[j].store.messages, id, nonce)
    decreases j
  {
    if i < j {
      UneditedKeepsNonce(states, acts, id, nonce, i, j - 1);
      UneditedStep(states, acts, id, j - 1);
    }
  }

  /** So a nonce can be committed again only after an edit of the message that had it. */
  lemma RepeatNeedsEdit(states: seq<State>, acts: seq<Action>, id: Uuid, i: nat, j: nat)
    requires Run(states, acts) && i <= j < |acts| && acts[j].Commit?
    requires HasNonce(states[i].store.messages, id, states[j].creates[acts[j].t].m.content.nonce)
    requires CommitMessage(states[j].store, states[j].creates[acts[j].t].m).Ok?
    ensures exists k :: i <= k < j && Edits(states[k], acts[k], id)
  {
    AdmittedIff(states, acts, j);
    if forall k :: i <= k < j ==> !Edits(states[k], acts[k], id) {
      UneditedKeepsNonce(states, acts, id, states[j].creates[acts[j].t].m.content.nonce, i, j);
    }
  }

  // ---- A run in which it happens ----

  /** Two messages made from one body, and an edit of the first to another nonce. */
  ghost predicate IsRepeat(a: Message, b: Message, edit: Content) {
    && a == WithOrder(NewMessage(a.id, a.groupId, a.sender, a.content, 1), 1)
    && b == WithOrder(NewMessage(b.id, a.groupId, a.sender, a.content, 3), 2)
    && a.id != b.id && edit.nonce != a.content.nonce
  }

  function EditOfFirst(a: Message, edit: Content): Pending {
    Edit(a.id, a.groupId, a.sender, edit)
  }

  /** Create, edit, create again. */
  function Script(a: Message, b: Message, edit: Content): seq<Action> {
    [ Draft(0, Unordered(a)), Reserve(0), Commit(0),
      Fetch(0, EditOfFirst(a, edit)), Apply(0, 2),
      Draft(0, Unordered(b)), Reserve(0), Commit(0) ]
  }

  function Resting(store: Store, clock: Timestamp, creates: map<Ticket, Creating>, pending: map<Ticket, Pending>): State
  {
    State(store, clock, creates, pending, Idle, map[], {}, store.messages, store.messages.Keys, {})
  }

  function Trace(a: Message, b: Message, edit: Content): seq<State> {
    var g, a' := a.groupId, WithContent(a, edit, 2);
    var one := Store(map[a.id := a], map[g := 1], {a.content.nonce});
    var edited := Store(map[a.id := a'], map[g := 1], {edit.nonce});
    var two := Store(map[a.id := a', b.id := b], map[g := 2], {edit.nonce, a.content.nonce});
    [ START,
      Resting(EMPTY_STORE, 1, map[0 := Drafted(Unordered(a))], map[]),
      Resting(Store(map[], map[g := 1], {}), 1, map[0 := Reserved(a)], map[]),
      Resting(one, 1, map[], map[]),
      Resting(one, 1, map[], map[0 := EditOfFirst(a, edit)]),
      Resting(edited, 2, map[], map[]),
      Resting(edited, 3, map[0 := Drafted(Unordered(b))], map[]),
      Resting(edited.(groupOrders := map[g := 2]), 3, map[0 := Reserved(b)], map[]),
      Resting(two, 3, map[], map[]) ]
  }

  lemma DraftStep(a: Message, b: Message, edit: Content, i: nat)
    requires IsRepeat(a, b, edit) && (i == 0 || i == 5)
    ensures IsStep(Trace(a, b, edit)[i], Script(a, b, edit)[i], Trace(a, b, edit)[i + 1])
  {
    var s, k := Trace(a, b, edit), Script(a, b, edit);
    assert Step(s[i], k[i]).creates == s[i + 1].creates;
  }

  lemma ReserveStep(a: Message, b: Message, edit: Content, i: nat)
    requires IsRepeat(a, b, edit) && (i == 1 || i == 6)
    ensures IsStep(Trace(a, b, edit)[i], Script(a, b, edit)[i], Trace(a, b, edit)[i + 1])
  {
    var s, k := Trace(a, b, edit), Script(a, b, edit);
    assert Step(s[i], k[i]).store == s[i + 1].store;
    assert Step(s[i], k[i]).creates == s[i + 1].creates;
  }

  lemma FirstCommit(a: Message, b: Message, edit: Content)
    requires IsRepeat(a, b, edit)
    ensures IsStep(Trace(a, b, edit)[2], Script(a, b, edit)[2], Trace(a, b, edit)[3])
  {
    var s, k := Trace(a, b, edit), Script(a, b, edit);
    assert s[2].creates - {0} == s[3].creates;
    assert Step(s[2], k[2]).store == s[3].store;
  }

  lemma SecondCommit(a: Message, b: Message, edit: Content)
    requires IsRepeat(a, b, edit)
    ensures IsStep(Trace(a, b, edit)[7], Script(a, b, edit)[7], Trace(a, b, edit)[8])
  {
    var s, k := Trace(a, b, edit), Script(a, b, edit);
    assert s[7].creates - {0} == s[8].creates;
    assert Step(s[7], k[7]).store == s[8].store;
  }

  lemma EditSteps(a: Message, b: Message, edit: Content, i: nat)
    requires IsRepeat(a, b, edit) && 3 <= i < 5
    ensures IsStep(Trace(a, b, edit)[i], Script(a, b, edit)[i], Trace(a, b, edit)[i + 1])
  {
    var s, k := Trace(a, b, edit), Script(a, b, edit);
    assert s[4].pending - {0} == map[];
    assert {a.content.nonce} - {a.content.nonce} + {edit.nonce} == {edit.nonce};
    assert Step(s[i], k[i]).store == s[i + 1].store;
  }

  lemma TraceIsRun(a: Message, b: Message, edit: Content)
    requires IsRepeat(a, b, edit)
    ensures Run(Trace(a, b, edit), Script(a, b, edit))
  {
    forall i | 0 <= i < 8
      ensures IsStep(Trace(a, b, edit)[i], Script(a, b, edit)[i], Trace(a, b, edit)[i + 1])
    {
      if i == 0 || i == 5 {
        DraftStep(a, b, edit, i);
      } else if i == 1 || i == 6 {
        ReserveStep(a, b, edit, i);
      } else if i == 2 {
        FirstCommit(a, b, edit);
      } else if i == 7 {
        SecondCommit(a, b, edit);
      } else {
        EditSteps(a, b, edit, i);
      }
    }
    StepsAreRun(Trace(a, b, edit), Script(a, b, edit));
  }

  lemma DraftIsServed(env: Env, members: Members, now: int, http: Request, t: Ticket, m: Message)
    requires DraftOf(env, members, now, http, m)
    ensures Served(env, Draft(t, m))
  {
  }

  lemma EditIsServed(env: Env, members: Members, now: int, http: Request, t: Ticket, p: Pending)
    requires EditOf(env, members, now, http, p)
    ensures Served(env, Fetch(t, p))
  {
    assert p == Edit(p.id, p.group, p.sender, p.content);
  }

  lemma OthersAreServed(env: Env, a: Action)
    requires !a.Draft? && !a.Fetch?
    ensures Served(env, a)
  {
  }

  /** The shape of the script: two drafts and one edit, and otherwise no requests. */
  predicate HasShape(acts: seq<Action>) {
    && |acts| == 8 && acts[0].Draft? && acts[5].Draft? && acts[3].Fetch? && acts[3].p.Edit?
    && forall i :: 0 <= i < 8 && i != 0 && i != 3 && i != 5 ==> !acts[i].Draft? && !acts[i].Fetch?
  }

  lemma ShapeIsServed(env: Env, acts: seq<Action>)
    requires HasShape(acts) && Served(env, acts[0]) && Served(env, acts[3]) && Served(env, acts[5])
    ensures ServedRun(env, acts)
  {
    forall i | 0 <= i < |acts|
      ensures Served(env, acts[i])
    {
      if i != 0 && i != 3 && i != 5 {
        OthersAreServed(env, acts[i]);
      }
    }
  }

  /** A script whose drafts both come from one body, and whose edit comes from some request, asks
      for nothing that was not served. */
  lemma ScriptIsServed(env: Env, acts: seq<Action>, http: Request,
                       members: Members, now: int, members': Members, now': int,
                       put: Request, members'': Members, now'': int)
    requires HasShape(acts)
    requires DraftOf(env, members, now, http, acts[0].m) && DraftOf(env, members', now', http, acts[5].m)
    requires EditOf(env, members'', now'', put, acts[3].p)
    ensures ServedRun(env, acts)
  {
    DraftIsServed(env, members, now, http, acts[0].t, acts[0].m);
    DraftIsServed(env, members', now', http, acts[5].t, acts[5].m);
    EditIsServed(env, members'', now'', put, acts[3].t, acts[3].p);
    ShapeIsServed(env, acts);
  }

  /** A run in which two messages are stored with the same content, one after the other. */
  lemma RepeatedInRun(a: Message, b: Message, edit: Content) returns (states: seq<State>, acts: seq<Action>)
    requires IsRepeat(a, b, edit)
    ensures Run(states, acts) && HasShape(acts)
    ensures acts[0].m == Unordered(a) && acts[5].m == Unordered(b) && acts[3].p == EditOfFirst(a, edit)
    ensures a.id in states[3].store.messages && states[3].store.messages[a.id] == a
    ensures var end := states[8].store.messages;
            && a.id in end && end[a.id].content == edit && b.id in end && end[b.id] == b && b.content == a.content
  {
    states, acts := Trace(a, b, edit), Script(a, b, edit);
    TraceIsRun(a, b, edit);
  }

  /** Whenever one body is served twice, and an edit of the first message to another nonce is
      served, there is a run in which both messages are stored with what the body asked for. */
  lemma SameBodyStoredTwice(env: Env, a: Message, b: Message, edit: Content, http: Request,
                            members: Members, now: int, members': Members, now': int,
                            put: Request, members'': Members, now'': int)
    returns (states: seq<State>, acts: seq<Action>)
    requires IsRepeat(a, b, edit)
    requires DraftOf(env, members, now, http, Unordered(a)) && DraftOf(env, members', now', http, Unordered(b))
    requires EditOf(env, members'', now'', put, EditOfFirst(a, edit))
    ensures Run(states, acts) && ServedRun(env, acts) && |acts| == 8
    ensures a.id in states[3].store.messages && states[3].store.messages[a.id] == a
    ensures var end := states[8].store.messages;
            && a.id in end && end[a.id].content == edit && b.id in end && end[b.id] == b && b.content == a.content
  {
    states, acts := RepeatedInRun(a, b, edit);
    ScriptIsServed(env, acts, http, members, now, members', now', put, members'', now'');
  }
}
