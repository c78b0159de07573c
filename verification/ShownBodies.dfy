/** What was posted is what readers are shown, in every run, until somebody edits it. */
module ShownBodies {
  import opened Wrappers
  import opened Messages
  import opened Membership
  import opened Stores
  import opened Auth
  import opened Requests
  import opened Handlers
  import opened Archive
  import opened Relay
  import opened RelayInvariants
  import opened Authorship
  import opened Deletions
  import opened Bodies

  /** The message is stored, with this content. */
  predicate HasContent(messages: map<Uuid, Message>, id: Uuid, content: Content) {
    id in messages && messages[id].content == content
  }

  lemma CoreNextKeepsContent(c: Core, k: CoreStep, id: Uuid, content: Content)
    requires CoreEnabled(c, k) && HasContent(c.messages, id, content)
    requires k.Wrote? && k.m.id == id ==> k.m.content == content
    ensures HasContent(CoreNext(c, k).messages, id, content)
  {
    if k.Marked? {
      MarkEffect(c, k.now);
    }
  }

  /** Only an edit of the message writes another content. */
  lemma WriteKeepsContent(s: State, a: Action, id: Uuid, content: Content)
    requires Enabled(s, a) && InFlight(s) && Keyed(s.store)
    requires HasContent(s.store.messages, id, content) && !Edits(s, a, id)
    ensures var k := CoreStepOf(s, a); k.Wrote? && k.m.id == id ==> k.m.content == content
  {
    match a
    case Apply(t, now) => assert s.store.messages[s.pending[t].id].id == s.pending[t].id;
    case _ =>
  }

  lemma StepKeepsContent(s: State, a: Action, id: Uuid, content: Content)
    requires Enabled(s, a) && InFlight(s) && Keyed(s.store)
    requires HasContent(s.store.messages, id, content) && !Edits(s, a, id)
    ensures HasContent(Step(s, a).store.messages, id, content)
  {
    WriteKeepsContent(s, a, id, content);
    StepIsCoreStep(s, a);
    CoreNextKeepsContent(CoreOf(s), CoreStepOf(s, a), id, content);
    assert CoreOf(Step(s, a)).messages == Step(s, a).store.messages;
  }

  ghost predicate NotEdited(states: seq<State>, acts: seq<Action>, id: Uuid, i: nat, j: nat)
    requires |states| == |acts| + 1 && i <= j <= |acts|
  {
    forall k :: i <= k < j ==> !Edits(states[k], acts[k], id)
  }

  /** Deletes, marks and writes to other messages leave a content as it is. */
  lemma {:induction false} ContentStays(states: seq<State>, acts: seq<Action>, id: Uuid, content: Content, i: nat,
                                      j: nat)
    requires Run(states, acts) && i <= j <= |acts|
    requires HasContent(states[i].store.messages, id, content) && NotEdited(states, acts, id, i, j)
    ensures HasContent(states[j].store.messages, id, content)
    decreases j
  {
    if i < j {
      ContentStays(states, acts, id, content, i, j - 1);
      RunIsSound(states, acts, j - 1);
      StepKeepsContent(states[j - 1], acts[j - 1], id, content);
      assert states[j - 1 + 1] == Step(states[j - 1], acts[j - 1]);
    }
  }

  /** The message is stored with what the request decodes to. */
  ghost predicate Carries(env: Env, ctx: AuthContext, r: CreateRequest, messages: map<Uuid, Message>, id: Uuid) {
    && id in messages && DecodeContent(env, ctx, r) == Ok(messages[id].content)
    && messages[id].groupId == r.groupId && messages[id].sender == r.senderAddress
  }

  /** From moment `i` to moment `j` of a run. */
  lemma StillShown(env: Env, members: Members, now: int, http: Request, body: JsonBody, ctx: AuthContext,
                   r: CreateRequest, states: seq<State>, acts: seq<Action>, id: Uuid, i: nat, j: nat,
                   reader: AuthContext, res: Result<GetResponse, ApiError>)
    requires Run(states, acts) && i <= j <= |acts| && NotEdited(states, acts, id, i, j)
    requires Authenticate(env, members, now, http) == Forward(ctx) && Says(body, r)
    requires Carries(env, ctx, r, states[i].store.messages, id)
    requires reader.authorizedGroup == body.groupId && Answers(states[j].store, reader, ById(id), res)
    ensures res.Ok? && res.value.Single? && res.value.message.messageId == id
    ensures ShowsJson(res.value.message, body) && ShowsKeyHeader(res.value.message, http)
  {
    var m := states[i].store.messages[id];
    ContentStays(states, acts, id, m.content, i, j);
    IdentityIsStable(states, acts, i, j);
    var m' := states[j].store.messages[id];
    assert SameIdentity(m, m') && m'.id == id by { RunIsSound(states, acts, j); }
    ContentIsShown(env, members, now, http, body, ctx, r, m');
  }

  /** The commit of a POST's message succeeds at moment `i`. */
  ghost predicate PostCommits(env: Env, members: Members, now: int, http: Request, s: State, a: Action, id: Uuid) {
    && a.Commit? && a.t in s.creates && s.creates[a.t].m.id == id
    && DraftOf(env, members, now, http, Unordered(s.creates[a.t].m))
    && CommitMessage(s.store, s.creates[a.t].m).Ok?
  }

  lemma Posted(env: Env, members: Members, now: int, http: Request, s: State, a: Action, id: Uuid)
    requires Enabled(s, a) && PostCommits(env, members, now, http, s, a, id)
    ensures PostRequest(env, members, now, http).Ok?
    ensures var (ctx, r) := PostRequest(env, members, now, http).value;
            Carries(env, ctx, r, Step(s, a).store.messages, id)
  {
  }

  /** In every interleaving: once the message of a POST is committed, and until an edit of it is
      admitted, whoever may read its group is shown every field of the posted JSON. */
  lemma PostedIsShown(env: Env, members: Members, now: int, http: Request, body: JsonBody,
                      states: seq<State>, acts: seq<Action>, id: Uuid, i: nat, j: nat,
                      reader: AuthContext, res: Result<GetResponse, ApiError>)
    requires Run(states, acts) && i < j <= |acts| && BodyIs(env, http, body)
    requires PostCommits(env, members, now, http, states[i], acts[i], id)
    requires NotEdited(states, acts, id, i + 1, j)
    requires reader.authorizedGroup == body.groupId && Answers(states[j].store, reader, ById(id), res)
    ensures res.Ok? && res.value.Single? && res.value.message.messageId == id
    ensures ShowsJson(res.value.message, body) && ShowsKeyHeader(res.value.message, http)
  {
    Posted(env, members, now, http, states[i], acts[i], id);
    var (ctx, r) := PostRequest(env, members, now, http).value;
    ParsedIff(body, r);
    StillShown(env, members, now, http, body, ctx, r, states, acts, id, i + 1, j, reader, res);
  }

  /** The write of a PUT's edit is admitted. */
  ghost predicate PutApplies(env: Env, members: Members, now: int, http: Request, s: State, a: Action) {
    && a.Apply? && a.t in s.pending && EditOf(env, members, now, http, s.pending[a.t])
    && Outcome(s.store, s.pending[a.t], a.now).Ok?
  }

  lemma Put(env: Env, members: Members, now: int, http: Request, s: State, a: Action)
    requires Enabled(s, a) && InFlight(s) && PutApplies(env, members, now, http, s, a)
    ensures PutRequest(env, members, now, http).Ok?
    ensures var (ctx, r) := PutRequest(env, members, now, http).value;
            Carries(env, ctx, r.body, Step(s, a).store.messages, r.messageId)
  {
    var (ctx, r) := PutRequest(env, members, now, http).value;
    PutIsForCaller(env, members, now, http, ctx, r);
    assert Owns(s.store.messages[s.pending[a.t].id], s.pending[a.t].group, s.pending[a.t].sender);
  }

  lemma PutSays(env: Env, members: Members, now: int, http: Request, body: JsonBody, ctx: AuthContext,
                r: UpdateRequest)
    requires BodyIs(env, http, body) && PutRequest(env, members, now, http) == Ok((ctx, r))
    ensures Authenticate(env, members, now, http) == Forward(ctx)
    ensures body.messageId == Some(r.messageId) && Says(body, r.body)
  {
    ParsedIff(body, r.body);
  }

  /** The same of a PUT, for the message that its JSON names, until the next edit of it. */
  lemma EditIsShown(env: Env, members: Members, now: int, http: Request, body: JsonBody,
                    states: seq<State>, acts: seq<Action>, id: Uuid, i: nat, j: nat,
                    reader: AuthContext, res: Result<GetResponse, ApiError>)
    requires Run(states, acts) && i < j <= |acts| && BodyIs(env, http, body) && body.messageId == Some(id)
    requires PutApplies(env, members, now, http, states[i], acts[i])
    requires NotEdited(states, acts, id, i + 1, j)
    requires reader.authorizedGroup == body.groupId && Answers(states[j].store, reader, ById(id), res)
    ensures res.Ok? && res.value.Single? && res.value.message.messageId == id
    ensures ShowsJson(res.value.message, body) && ShowsKeyHeader(res.value.message, http)
  {
    assert InFlight(states[i]) by { RunIsSound(states, acts, i); }
    assert states[i + 1] == Step(states[i], acts[i]);
    Put(env, members, now, http, states[i], acts[i]);
    var (ctx, r) := PutRequest(env, members, now, http).value;
    PutSays(env, members, now, http, body, ctx, r);
    StillShown(env, members, now, http, body, ctx, r.body, states, acts, id, i + 1, j, reader, res);
  }
}
