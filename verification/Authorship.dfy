/** Every message, wherever it is kept, was signed by its sender. */
module Authorship {
  import opened Wrappers
  import opened Messages
  import opened Membership
  import opened Stores
  import opened Auth
  import opened Requests
  import opened Handlers
  import opened Archive
  import opened Relay
  import opened RelayInvariants
  import opened Hex
  import Canonical
  import Permissions

  // ---- Which steps HTTP requests cause ----

  predicate DraftOf(env: Env, members: Members, now: int, http: Request, m: Message) {
    var post := PostRequest(env, members, now, http);
    post.Ok? && BuildMessage(env, post.value.0, post.value.1, m.id, m.createdAt) == Ok(m)
  }

  predicate EditOf(env: Env, members: Members, now: int, http: Request, p: Pending) {
    var put := PutRequest(env, members, now, http);
    && put.Ok? && p.Edit?
    && p.id == put.value.1.messageId
    && put.value.0.authorizedGroup == Some(p.group) && p.sender == put.value.0.senderAddress
    && DecodeContent(env, put.value.0, put.value.1.body) == Ok(p.content)
  }

  /** Creates come from served POST requests, edits from served PUT requests; at each the
      membership cache and the clock may be anything. */
  ghost predicate Served(env: Env, a: Action) {
    match a
    case Draft(_, m) => exists members, now, http :: DraftOf(env, members, now, http, m)
    case Fetch(_, Edit(id, group, sender, content)) =>
      exists members, now, http :: EditOf(env, members, now, http, Edit(id, group, sender, content))
    case _ => true
  }

  ghost predicate ServedRun(env: Env, acts: seq<Action>) {
    forall i :: 0 <= i < |acts| ==> Served(env, acts[i])
  }

  // ---- Authors ----

  ghost predicate Authored(env: Env, m: Message) {
    AuthoredBy(env, m.groupId, m.sender, m.content)
  }

  lemma DraftIsAuthored(env: Env, members: Members, now: int, http: Request, m: Message)
    requires DraftOf(env, members, now, http, m)
    ensures Authored(env, m)
    ensures Holds(members, m.groupId, m.sender, Permissions.MessagingSender)
  {
    var (ctx, r) := PostRequest(env, members, now, http).value;
    PostIsForCaller(env, members, now, http, ctx, r);
    DecodedIsAuthored(env, ctx, r, m.content);
  }

  lemma EditIsAuthored(env: Env, members: Members, now: int, http: Request, p: Pending)
    requires EditOf(env, members, now, http, p)
    ensures AuthoredBy(env, p.group, p.sender, p.content)
    ensures Holds(members, p.group, p.sender, Permissions.MessagingEditor)
  {
    var (ctx, r) := PutRequest(env, members, now, http).value;
    PutIsForCaller(env, members, now, http, ctx, r);
    DecodedIsAuthored(env, ctx, r.body, p.content);
  }

  ghost predicate DraftsAuthored(env: Env, creates: map<Ticket, Creating>) {
    forall t :: t in creates ==> Authored(env, creates[t].m)
  }

  ghost predicate EditsAuthored(env: Env, pending: map<Ticket, Pending>) {
    forall t :: t in pending && pending[t].Edit? ==>
      AuthoredBy(env, pending[t].group, pending[t].sender, pending[t].content)
  }

  ghost predicate RequestsAuthored(env: Env, s: State) {
    DraftsAuthored(env, s.creates) && EditsAuthored(env, s.pending)
  }

  ghost predicate CoreAuthored(env: Env, c: Core) {
    && (forall id {:trigger c.messages[id]} :: id in c.messages ==> Authored(env, c.messages[id]))
    && (!c.worker.Idle? ==> forall m :: m in c.worker.batch ==> Authored(env, m))
    && (forall p {:trigger c.archive[p]} :: p in c.archive ==> Authored(env, c.archive[p]))
  }

  lemma CoreNextAuthored(env: Env, c: Core, k: CoreStep)
    requires CoreAuthored(env, c) && CoreEnabled(c, k)
    requires k.Wrote? ==> Authored(env, k.m)
    ensures CoreAuthored(env, CoreNext(c, k))
  {
    match k
    case Answered(added, response) =>
      forall p | p in CoreNext(c, k).archive
        ensures Authored(env, CoreNext(c, k).archive[p])
      {
        if p in added {
          assert c.worker.batch[added[p]] in c.worker.batch;
        } else {
          assert CoreNext(c, k).archive[p] == c.archive[p];
        }
      }
    case Marked(now) =>
      MarkEffect(c, now);
      forall id | id in c.messages
        ensures Authored(env, CoreNext(c, k).messages[id])
      {
        assert Authored(env, c.messages[id]) && SameIdentity(CoreNext(c, k).messages[id], c.messages[id]);
      }
    case _ =>
  }

  lemma ServedIsAuthored(env: Env, a: Action)
    requires Served(env, a)
    ensures a.Draft? ==> Authored(env, a.m)
    ensures a.Fetch? && a.p.Edit? ==> AuthoredBy(env, a.p.group, a.p.sender, a.p.content)
  {
    if a.Draft? {
      var members, now, http :| DraftOf(env, members, now, http, a.m);
      DraftIsAuthored(env, members, now, http, a.m);
    } else if a.Fetch? && a.p.Edit? {
      var p := Edit(a.p.id, a.p.group, a.p.sender, a.p.content);
      var members, now, http :| EditOf(env, members, now, http, p);
      EditIsAuthored(env, members, now, http, p);
    }
  }

  lemma StepKeepsDrafts(env: Env, s: State, a: Action)
    requires Enabled(s, a) && Served(env, a) && DraftsAuthored(env, s.creates)
    ensures DraftsAuthored(env, Step(s, a).creates)
  {
    ServedIsAuthored(env, a);
    if a.Reserve? {
      assert Authored(env, s.creates[a.t].m);
    }
  }

  lemma StepKeepsEdits(env: Env, s: State, a: Action)
    requires Enabled(s, a) && Served(env, a) && EditsAuthored(env, s.pending)
    ensures EditsAuthored(env, Step(s, a).pending)
  {
    ServedIsAuthored(env, a);
  }

  /** The ownership check ties the editor's signature to the stored sender and group. */
  lemma WriteIsAuthored(env: Env, s: State, a: Action)
    requires Enabled(s, a) && InFlight(s) && Keyed(s.store)
    requires RequestsAuthored(env, s) && CoreAuthored(env, CoreOf(s))
    requires CoreStepOf(s, a).Wrote?
    ensures Authored(env, CoreStepOf(s, a).m)
  {
    if a.Apply? {
      var p := s.pending[a.t];
      assert Authored(env, CoreOf(s).messages[p.id]);
    }
  }

  lemma StepKeepsAuthors(env: Env, s: State, a: Action)
    requires Enabled(s, a) && Served(env, a) && InFlight(s) && Keyed(s.store)
    requires RequestsAuthored(env, s) && CoreAuthored(env, CoreOf(s))
    ensures RequestsAuthored(env, Step(s, a)) && CoreAuthored(env, CoreOf(Step(s, a)))
  {
    StepKeepsDrafts(env, s, a);
    StepKeepsEdits(env, s, a);
    StepIsCoreStep(s, a);
    if CoreStepOf(s, a).Wrote? {
      WriteIsAuthored(env, s, a);
    }
    CoreNextAuthored(env, CoreOf(s), CoreStepOf(s, a));
  }

  lemma {:induction false} RunIsAuthored(env: Env, states: seq<State>, acts: seq<Action>, i: nat)
    requires Run(states, acts) && ServedRun(env, acts) && i <= |acts|
    ensures RequestsAuthored(env, states[i]) && CoreAuthored(env, CoreOf(states[i]))
  {
    if i > 0 {
      RunIsAuthored(env, states, acts, i - 1);
      RunIsSound(states, acts, i - 1);
      StepKeepsAuthors(env, states[i - 1], acts[i - 1]);
      assert states[i - 1 + 1] == Step(states[i - 1], acts[i - 1]);
    }
  }

  /** In every interleaving, each stored message's sender is the address of the key stored with
      it, and the stored signature verifies under that key over the canonical string of the
      message's own group, some hex spelling of its bytes and nonce, and its key version. */
  lemma StoredMessagesAreAuthored(env: Env, states: seq<State>, acts: seq<Action>, i: nat, id: Uuid)
    requires Run(states, acts) && ServedRun(env, acts) && i <= |acts|
    requires id in states[i].store.messages
    ensures var m := states[i].store.messages[id]; AuthoredBy(env, m.groupId, m.sender, m.content)
  {
    RunIsAuthored(env, states, acts, i);
    assert Authored(env, CoreOf(states[i]).messages[id]);
  }

  /** The same holds of every copy in the archive, lost writes or not. */
  lemma ArchivedCopiesAreAuthored(env: Env, states: seq<State>, acts: seq<Action>, i: nat, p: PatchId)
    requires Run(states, acts) && ServedRun(env, acts) && i <= |acts|
    requires p in states[i].archive
    ensures var m := states[i].archive[p]; AuthoredBy(env, m.groupId, m.sender, m.content)
  {
    RunIsAuthored(env, states, acts, i);
    assert Authored(env, CoreOf(states[i]).archive[p]);
  }

  /** `text` and `nonce` are hex spellings of what the message holds. */
  predicate Spells(m: Message, text: string, nonce: string) {
    Decode(text) == Some(m.content.encryptedMsg) && Decode(nonce) == Some(m.content.nonce)
  }

  /** In every interleaving no two stored messages answer to the same signed string: a
      signature given for one message is never a signature for another. */
  lemma SignedStringsAreDistinct(env: Env, states: seq<State>, acts: seq<Action>, i: nat, a: Uuid, b: Uuid,
                                 text: string, nonce: string, text': string, nonce': string)
    requires Run(states, acts) && ServedRun(env, acts) && i <= |acts|
    requires a in states[i].store.messages && b in states[i].store.messages && a != b
    requires Spells(states[i].store.messages[a], text, nonce) && Spells(states[i].store.messages[b], text', nonce')
    ensures var m, m' := states[i].store.messages[a], states[i].store.messages[b];
            Canonical.MessageString(m.groupId, text, nonce, m.content.keyVersion)
            != Canonical.MessageString(m'.groupId, text', nonce', m'.content.keyVersion)
  {
    var m, m' := states[i].store.messages[a], states[i].store.messages[b];
    StoredMessagesAreAuthored(env, states, acts, i, a);
    StoredMessagesAreAuthored(env, states, acts, i, b);
    assert m.content.nonce != m'.content.nonce by { RunIsSound(states, acts, i); }
    if Canonical.MessageString(m.groupId, text, nonce, m.content.keyVersion)
       == Canonical.MessageString(m'.groupId, text', nonce', m'.content.keyVersion)
    {
      Canonical.MessageStringInjective(m.groupId, text, nonce, m.content.keyVersion,
                                       m'.groupId, text', nonce', m'.content.keyVersion);
      assert false;
    }
  }
}
