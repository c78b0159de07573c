/** The message handlers: requests admitted by the middleware, checked against the store and
    then written to it. */
module Handlers {
  import opened Wrappers
  import opened Messages
  import opened Membership
  import opened Stores
  import opened Storage
  import opened Auth
  import opened Requests
  import opened Paging
  import opened Relay
  import Decimal
  import Hex
  import Permissions

  // ---- From HTTP to a handler ----

  datatype Refusal = NotRouted | Denied(reason: Rejection) | BadBody

  function Admit(env: Env, members: Members, now: int, http: Request): Result<AuthContext, Refusal> {
    match Authenticate(env, members, now, http)
    case Bypass => Err(NotRouted)
    case Reject(e) => Err(Denied(e))
    case Forward(ctx) => Ok(ctx)
  }

  /** The handler parses the bytes that the middleware has read; no bytes are no JSON. */
  function JsonOf(env: Env, http: Request): Option<JsonBody> {
    if http.body.None? || http.body.value == [] then None else env.json(http.body.value)
  }

  function PostRequest(env: Env, members: Members, now: int, http: Request)
    : Result<(AuthContext, CreateRequest), Refusal>
  {
    if !http.verb.POST? then Err(NotRouted)
    else
      match Admit(env, members, now, http)
      case Err(e) => Err(e)
      case Ok(ctx) =>
        match JsonOf(env, http)
        case None => Err(BadBody)
        case Some(j) => match ParseCreate(j) case None => Err(BadBody) case Some(r) => Ok((ctx, r))
  }

  function PutRequest(env: Env, members: Members, now: int, http: Request)
    : Result<(AuthContext, UpdateRequest), Refusal>
  {
    if !http.verb.PUT? then Err(NotRouted)
    else
      match Admit(env, members, now, http)
      case Err(e) => Err(e)
      case Ok(ctx) =>
        match JsonOf(env, http)
        case None => Err(BadBody)
        case Some(j) => match ParseUpdate(j) case None => Err(BadBody) case Some(r) => Ok((ctx, r))
  }

  /** The context names the owner of the key, and a group in which the caller holds `required`. */
  ghost predicate Vouched(env: Env, members: Members, ctx: AuthContext, required: Permissions.Permission) {
    && |ctx.publicKey| == PublicKeyLength(ctx.scheme)
    && ctx.senderAddress == DeriveAddress(env, ctx.publicKey, ctx.scheme)
    && ctx.authorizedGroup.Some?
    && Holds(members, ctx.authorizedGroup.value, ctx.senderAddress, required)
  }

  /** Middleware and handler read the same body: what the handler stores is for the group and
      the sender that were authorized. */
  lemma PostIsForCaller(env: Env, members: Members, now: int, http: Request, ctx: AuthContext, r: CreateRequest)
    requires PostRequest(env, members, now, http) == Ok((ctx, r))
    ensures Vouched(env, members, ctx, Permissions.MessagingSender)
    ensures ctx.authorizedGroup == Some(r.groupId) && ctx.senderAddress == r.senderAddress
    ensures Decimal.InI64(r.keyVersion)
  {
    ForwardsIff(env, members, now, http, ctx);
  }

  lemma PutIsForCaller(env: Env, members: Members, now: int, http: Request, ctx: AuthContext, r: UpdateRequest)
    requires PutRequest(env, members, now, http) == Ok((ctx, r))
    ensures Vouched(env, members, ctx, Permissions.MessagingEditor)
    ensures ctx.authorizedGroup == Some(r.body.groupId) && ctx.senderAddress == r.body.senderAddress
    ensures Decimal.InI64(r.body.keyVersion)
  {
    ForwardsIff(env, members, now, http, ctx);
  }

  /** Who may read and who may delete. */
  lemma GetIsForReader(env: Env, members: Members, now: int, http: Request, ctx: AuthContext)
    requires http.verb.GET? && Admit(env, members, now, http) == Ok(ctx)
    ensures Vouched(env, members, ctx, Permissions.MessagingReader)
  {
    ForwardsIff(env, members, now, http, ctx);
  }

  lemma DeleteIsForDeleter(env: Env, members: Members, now: int, http: Request, ctx: AuthContext)
    requires http.verb.DELETE? && Admit(env, members, now, http) == Ok(ctx)
    ensures Vouched(env, members, ctx, Permissions.MessagingDeleter)
  {
    ForwardsIff(env, members, now, http, ctx);
  }

  // ---- What each handler does to the store ----

  /** The message, if it is in the caller's group. */
  function CheckGroup(s: Store, ctx: AuthContext, id: Uuid): Result<Message, ApiError> {
    if id !in s.messages then Err(NotFoundError(id))
    else if ctx.authorizedGroup != Some(s.messages[id].groupId) then Err(Forbidden)
    else Ok(s.messages[id])
  }

  /** The message, if it is in the caller's group and the caller sent it. */
  function CheckOwner(s: Store, ctx: AuthContext, id: Uuid): Result<Message, ApiError> {
    match CheckGroup(s, ctx, id)
    case Err(e) => Err(e)
    case Ok(m) => if m.sender != ctx.senderAddress then Err(Forbidden) else Ok(m)
  }

  function Lift(r: Result<Store, StorageError>): Result<Store, ApiError> {
    match r
    case Ok(s) => Ok(s)
    case Err(e) => Err(FromStorage(e))
  }

  function ServeCreate(env: Env, s: Store, ctx: AuthContext, r: CreateRequest, id: Uuid, now: Timestamp)
    : (Store, Result<Uuid, ApiError>)
  {
    match BuildMessage(env, ctx, r, id, now)
    case Err(e) => (s, Err(e))
    case Ok(m) =>
      var reserved := ReserveOrder(s, m.groupId);
      match CommitMessage(reserved, WithOrder(m, Counter(reserved, m.groupId)))
      case Err(e) => (reserved, Err(FromStorage(e)))
      case Ok(s') => (s', Ok(id))
  }

  function ServeUpdate(env: Env, s: Store, ctx: AuthContext, r: UpdateRequest, now: Timestamp)
    : Result<Store, ApiError>
  {
    match CheckOwner(s, ctx, r.messageId)
    case Err(e) => Err(e)
    case Ok(_) =>
      match DecodeContent(env, ctx, r.body)
      case Err(e) => Err(e)
      case Ok(content) => Lift(Stores.UpdateMessage(s, r.messageId, content, now))
  }

  function ServeDelete(s: Store, ctx: AuthContext, id: Uuid, now: Timestamp): Result<Store, ApiError> {
    match CheckOwner(s, ctx, id)
    case Err(e) => Err(e)
    case Ok(_) => Lift(Stores.DeleteMessage(s, id, now))
  }

  datatype GetQuery = GetQuery(
    messageId: Option<Uuid>, groupId: Option<string>, after: Option<int>, before: Option<int>, limit: Option<nat>)

  datatype GetResponse = Single(message: MessageResponse) | List(messages: seq<MessageResponse>, hasNext: bool)

  function Responses(ms: seq<Message>): seq<MessageResponse> {
    seq(|ms|, i requires 0 <= i < |ms| => ToResponse(ms[i]))
  }

  ghost predicate Answers(s: Store, ctx: AuthContext, q: GetQuery, res: Result<GetResponse, ApiError>) {
    match q.messageId
    case Some(id) =>
      (match CheckGroup(s, ctx, id)
       case Err(e) => res == Err(e)
       case Ok(m) => res == Ok(Single(ToResponse(m))))
    case None =>
      if q.groupId.None? then res == Err(BadRequest(QueryTarget))
      else if ctx.authorizedGroup != q.groupId then res == Err(Forbidden)
      else exists page :: IsAnswer(s, q.groupId.value, q.after, q.before, PageLimit(q.limit), page)
                          && res == Ok(List(Responses(page.messages), page.hasNext))
  }

  // ---- The handlers ----

  /** What handlers share; `notified` counts the messages sent to the sync worker's channel. */
  class AppState {
    const storage: InMemoryStorage
    var notified: nat

    constructor (storage: InMemoryStorage)
      ensures this.storage == storage && notified == 0
    {
      this.storage := storage;
      notified := 0;
    }
  }

  method CreateMessage(env: Env, state: AppState, ctx: AuthContext, r: CreateRequest, id: Uuid, now: Timestamp)
    returns (res: Result<Uuid, ApiError>)
    requires state.storage.Valid()
    modifies state, state.storage
    ensures state.storage.Valid() && fresh(state.storage.messages.Values - old(state.storage.messages.Values))
    ensures (state.storage.Contents, res) == ServeCreate(env, old(state.storage.Contents), ctx, r, id, now)
    ensures state.notified == old(state.notified) + if res.Ok? then 1 else 0
  {
    match DecodeContent(env, ctx, r) {
      case Err(e) => return Err(e);
      case Ok(content) =>
        var message := new StoredMessage(id, r.groupId, r.senderAddress, content, now);
        var created := state.storage.CreateMessage(message);
        match created {
          case Err(e) => return Err(FromStorage(e));
          case Ok(m') =>
            state.notified := state.notified + 1;
            return Ok(m'.id);
        }
    }
  }

  method GetMessages(state: AppState, ctx: AuthContext, q: GetQuery) returns (res: Result<GetResponse, ApiError>)
    requires state.storage.Valid()
    ensures Answers(state.storage.Contents, ctx, q, res)
  {
    if q.messageId.Some? {
      var found := state.storage.GetMessage(q.messageId.value);
      match found {
        case Err(e) => return Err(FromStorage(e));
        case Ok(m) =>
          if ctx.authorizedGroup != Some(m.groupId) {
            return Err(Forbidden);
          }
          return Ok(Single(ToResponse(m)));
      }
    }
    if q.groupId.None? {
      return Err(BadRequest(QueryTarget));
    }
    if ctx.authorizedGroup != q.groupId {
      return Err(Forbidden);
    }
    var limit := PageLimit(q.limit);
    var found := state.storage.GetMessagesByGroup(q.groupId.value, q.after, q.before, limit + 1);
    var page := ToPage(found, limit);
    assert IsAnswer(state.storage.Contents, q.groupId.value, q.after, q.before, limit, page);
    res := Ok(List(Responses(page.messages), page.hasNext));
  }

  method UpdateMessage(env: Env, state: AppState, ctx: AuthContext, r: UpdateRequest, now: Timestamp)
    returns (res: Result<(), ApiError>)
    requires state.storage.Valid()
    modifies state.storage, state.storage.messages.Values
    ensures state.storage.Valid()
    ensures match ServeUpdate(env, old(state.storage.Contents), ctx, r, now)
            case Ok(s') => state.storage.Contents == s' && res == Ok(())
            case Err(e) => state.storage.Contents == old(state.storage.Contents) && res == Err(e)
  {
    var existing := state.storage.GetMessage(r.messageId);
    if existing.Err? {
      return Err(FromStorage(existing.error));
    }
    if ctx.authorizedGroup != Some(existing.value.groupId) || existing.value.sender != ctx.senderAddress {
      return Err(Forbidden);
    }
    match DecodeContent(env, ctx, r.body) {
      case Err(e) => return Err(e);
      case Ok(content) =>
        var updated := state.storage.UpdateMessage(r.messageId, content, now);
        match updated {
          case Err(e) => return Err(FromStorage(e));
          case Ok(_) => return Ok(());
        }
    }
  }

  method DeleteMessage(state: AppState, ctx: AuthContext, id: Uuid, now: Timestamp) returns (res: Result<(), ApiError>)
    requires state.storage.Valid()
    modifies state.storage, state.storage.messages.Values
    ensures state.storage.Valid()
    ensures match ServeDelete(old(state.storage.Contents), ctx, id, now)
            case Ok(s') => state.storage.Contents == s' && res == Ok(())
            case Err(e) => state.storage.Contents == old(state.storage.Contents) && res == Err(e)
  {
    var existing := state.storage.GetMessage(id);
    if existing.Err? {
      return Err(FromStorage(existing.error));
    }
    if ctx.authorizedGroup != Some(existing.value.groupId) || existing.value.sender != ctx.senderAddress {
      return Err(Forbidden);
    }
    var deleted := state.storage.DeleteMessage(id, now);
    match deleted {
      case Err(e) => return Err(FromStorage(e));
      case Ok(_) => return Ok(());
    }
  }

  // ---- What callers can rely on ----

  ghost predicate NonceHeld(s: Store, nonce: Hex.Bytes, except: Option<Uuid>) {
    exists other :: other in s.messages && Some(other) != except && s.messages[other].content.nonce == nonce
  }

  /** When a create is served; a refused one leaves messages and nonces alone. */
  lemma CreateServedIff(env: Env, s: Store, ctx: AuthContext, r: CreateRequest, id: Uuid, now: Timestamp)
    requires Consistent(s)
    ensures var (s', res) := ServeCreate(env, s, ctx, r, id, now);
            && (res.Ok? <==> DecodeContent(env, ctx, r).Ok? && id !in s.messages
                             && !NonceHeld(s, DecodeContent(env, ctx, r).value.nonce, None))
            && (res.Err? ==> s'.messages == s.messages && s'.nonces == s.nonces)
  {
    if DecodeContent(env, ctx, r).Ok? {
      NonceHeldIff(s, DecodeContent(env, ctx, r).value.nonce);
    }
  }

  /** A served create adds one message, after every message of its group, and touches no other. */
  lemma CreateLandsLast(env: Env, s: Store, ctx: AuthContext, r: CreateRequest, id: Uuid, now: Timestamp)
    requires Consistent(s) && ServeCreate(env, s, ctx, r, id, now).1.Ok?
    ensures var s' := ServeCreate(env, s, ctx, r, id, now).0;
            && s'.messages.Keys == s.messages.Keys + {id} && (forall i :: i in s.messages ==>
                s'.messages[i] == s.messages[i])
            && s'.messages[id].content == DecodeContent(env, ctx, r).value
            && s'.messages[id].groupId == r.groupId && s'.messages[id].sender == r.senderAddress
            && s'.messages[id].syncStatus == SyncPending
            && forall i :: i in s.messages && s.messages[i].groupId == r.groupId ==>
                 OrderOf(s.messages[i]) < OrderOf(s'.messages[id])
  {
    ReserveKeepsConsistent(s, r.groupId);
  }

  lemma NonceHeldIff(s: Store, nonce: Hex.Bytes)
    requires NonceIndexAgrees(s)
    ensures nonce in s.nonces <==> NonceHeld(s, nonce, None)
  {
    assert nonce in s.nonces <==> nonce in StoredNonces(s);
  }

  /** An edit is served exactly to the message's own sender, in the message's group, with a
      signed body whose nonce no other message holds; and it changes that message's content
      and nothing else that identifies it. */
  lemma UpdateServedIff(env: Env, s: Store, ctx: AuthContext, r: UpdateRequest, now: Timestamp)
    requires Consistent(s)
    ensures ServeUpdate(env, s, ctx, r, now).Ok? <==>
              && r.messageId in s.messages
              && ctx.authorizedGroup == Some(s.messages[r.messageId].groupId)
              && ctx.senderAddress == s.messages[r.messageId].sender
              && DecodeContent(env, ctx, r.body).Ok?
              && !NonceHeld(s, DecodeContent(env, ctx, r.body).value.nonce, Some(r.messageId))
    ensures ServeUpdate(env, s, ctx, r, now).Ok? ==>
              var s' := ServeUpdate(env, s, ctx, r, now).value;
              && s'.messages.Keys == s.messages.Keys
              && (forall i :: i in s.messages && i != r.messageId ==> s'.messages[i] == s.messages[i])
              && SameIdentity(s'.messages[r.messageId], s.messages[r.messageId])
              && s'.messages[r.messageId].content == DecodeContent(env, ctx, r.body).value
              && s'.messages[r.messageId].syncStatus == UpdatePending
  {
    if r.messageId in s.messages && DecodeContent(env, ctx, r.body).Ok? {
      EditRefusedIff(s, r.messageId, DecodeContent(env, ctx, r.body).value, now);
    }
  }

  /** A delete is served exactly to the message's own sender, in the message's group; and it
      changes that message's status and time and nothing else in the store. */
  lemma DeleteServedIff(s: Store, ctx: AuthContext, id: Uuid, now: Timestamp)
    ensures ServeDelete(s, ctx, id, now).Ok? <==>
              && id in s.messages
              && ctx.authorizedGroup == Some(s.messages[id].groupId)
              && ctx.senderAddress == s.messages[id].sender
    ensures ServeDelete(s, ctx, id, now).Ok? ==>
              var s' := ServeDelete(s, ctx, id, now).value;
              && s'.messages.Keys == s.messages.Keys
              && (forall i :: i in s.messages && i != id ==> s'.messages[i] == s.messages[i])
              && s'.messages[id] == s.messages[id].(syncStatus := DeletePending, updatedAt := now)
              && s'.nonces == s.nonces && s'.groupOrders == s.groupOrders
  {
  }

  /** Whatever is shown is a stored message of the group the caller was authorized for. */
  lemma OnlyOwnGroupIsShown(s: Store, ctx: AuthContext, q: GetQuery, res: GetResponse, shown: MessageResponse)
    requires Keyed(s) && Answers(s, ctx, q, Ok(res))
    requires match res case Single(m) => shown == m case List(ms, _) => shown in ms
    ensures ctx.authorizedGroup == Some(shown.groupId)
    ensures shown.messageId in s.messages && shown == ToResponse(s.messages[shown.messageId])
  {
    if q.messageId.None? {
      var group, limit := q.groupId.value, PageLimit(q.limit);
      var page :|
        IsAnswer(s, group, q.after, q.before, limit, page) && res == List(Responses(page.messages), page.hasNext);
      AnswerMeans(s, group, q.after, q.before, limit, page);
      var i :| 0 <= i < |res.messages| && res.messages[i] == shown;
      assert page.messages[i] in page.messages;
    }
  }

  // ---- What a later GET of the message shows ----

  function ById(id: Uuid): GetQuery {
    GetQuery(Some(id), None, None, None, None)
  }

  /** The response shows the body's own fields, hex in lower case. */
  ghost predicate ShowsBody(resp: MessageResponse, r: CreateRequest) {
    && resp.encryptedText == Hex.Lower(r.encryptedText) && resp.nonce == Hex.Lower(r.nonce)
    && resp.signature == Hex.Lower(r.messageSignature) && resp.keyVersion == r.keyVersion
    && |resp.attachments| == |r.attachments|
    && forall i :: 0 <= i < |r.attachments| ==> resp.attachments[i] == LowerAttachment(r.attachments[i])
  }

  /** The response names the key that the caller presented. */
  predicate ShowsKey(resp: MessageResponse, ctx: AuthContext) {
    Hex.Decode(resp.publicKey) == Some(FlaggedKey(ctx.publicKey, ctx.scheme))
  }

  lemma ShownContent(env: Env, ctx: AuthContext, r: CreateRequest, m: Message)
    requires DecodeContent(env, ctx, r) == Ok(m.content)
    ensures ShowsBody(ToResponse(m), r) && ShowsKey(ToResponse(m), ctx)
  {
    ContentRoundTrip(env, ctx, r, m);
    Hex.DecodeAfterEncode(m.content.publicKey);
  }

  /** Created, then fetched: the body comes back, under the next order of its group, neither
      edited nor deleted. */
  lemma CreateThenGet(env: Env, s: Store, ctx: AuthContext, r: CreateRequest, id: Uuid, now: Timestamp,
                      reader: AuthContext,
                      res: Result<GetResponse, ApiError>)
    requires ServeCreate(env, s, ctx, r, id, now).1.Ok?
    requires Answers(ServeCreate(env, s, ctx, r, id, now).0, reader, ById(id), res)
    ensures if reader.authorizedGroup != Some(r.groupId) then res == Err(Forbidden)
            else
              && res.Ok? && res.value.Single?
              && var resp := res.value.message;
                 && ShowsBody(resp, r) && ShowsKey(resp, ctx)
                 && resp.messageId == id && resp.groupId == r.groupId && resp.senderAddress == r.senderAddress
                 && resp.order == Counter(s, r.groupId) + 1
                 && resp.createdAt == Seconds(now) && resp.updatedAt == Seconds(now)
                 && !resp.isEdited && !resp.isDeleted
                 && resp.syncStatus == SyncPending && resp.quiltPatchId.None?
  {
    ShownContent(env, ctx, r, ServeCreate(env, s, ctx, r, id, now).0.messages[id]);
  }

  /** Edited, then fetched: the new body is shown in the old place. */
  lemma UpdateThenGet(env: Env, s: Store, ctx: AuthContext, r: UpdateRequest, now: Timestamp, res: Result<GetResponse,
                      ApiError>)
    requires Keyed(s) && ServeUpdate(env, s, ctx, r, now).Ok?
    requires Answers(ServeUpdate(env, s, ctx, r, now).value, ctx, ById(r.messageId), res)
    ensures res.Ok? && res.value.Single?
    ensures var m, resp := s.messages[r.messageId], res.value.message;
            && ShowsBody(resp, r.body) && ShowsKey(resp, ctx)
            && resp.messageId == r.messageId && resp.groupId == m.groupId && resp.senderAddress == m.sender
            && resp.order == OrderOf(m) && resp.createdAt == Seconds(m.createdAt) && resp.updatedAt == Seconds(now)
            && resp.syncStatus == UpdatePending && !resp.isDeleted && resp.quiltPatchId == m.quiltPatchId
            && (resp.isEdited <==> now != m.createdAt)
  {
    assert s.messages[r.messageId].id == r.messageId;
    ShownContent(env, ctx, r.body, ServeUpdate(env, s, ctx, r, now).value.messages[r.messageId]);
  }

  /** Deleted, then fetched: only the status, the flags and the time differ from before. */
  lemma DeleteThenGet(s: Store, ctx: AuthContext, id: Uuid, now: Timestamp,
                      before: Result<GetResponse, ApiError>, after: Result<GetResponse, ApiError>)
    requires ServeDelete(s, ctx, id, now).Ok?
    requires Answers(s, ctx, ById(id), before)
    requires Answers(ServeDelete(s, ctx, id, now).value, ctx, ById(id), after)
    ensures before.Ok? && before.value.Single? && after.Ok? && after.value.Single?
    ensures after.value.message.isDeleted
    ensures after.value.message == before.value.message.(
              syncStatus := DeletePending, isDeleted := true, updatedAt := Seconds(now),
              isEdited := now != s.messages[id].createdAt)
  {
  }

  // ---- The same handlers, step by step ----

  /** The ownership check passes exactly when the request may go on to its write. */
  lemma CheckIsFetch(s: State, t: Ticket, ctx: AuthContext, id: Uuid)
    requires t !in s.pending
    ensures CheckOwner(s.store, ctx, id).Ok? <==>
            ctx.authorizedGroup.Some? && Enabled(s, Fetch(t, Removal(id, ctx.authorizedGroup.value, ctx.senderAddress)))
  {
  }

  /** A served edit alone is a fetch followed by an apply. */
  lemma UpdateIsFetchThenApply(env: Env, s: State, t: Ticket, ctx: AuthContext, r: UpdateRequest, now: Timestamp)
    requires t !in s.pending && ServeUpdate(env, s.store, ctx, r, now).Ok?
    ensures var p := Edit(r.messageId, s.store.messages[r.messageId].groupId, ctx.senderAddress,
                          DecodeContent(env, ctx, r.body).value);
            && Enabled(s, Fetch(t, p))
            && Enabled(Step(s, Fetch(t, p)), Apply(t, now))
            && Step(Step(s, Fetch(t, p)), Apply(t, now)).store == ServeUpdate(env, s.store, ctx, r, now).value
  {
  }

  /** So is a served delete. */
  lemma DeleteIsFetchThenApply(s: State, t: Ticket, ctx: AuthContext, id: Uuid, now: Timestamp)
    requires t !in s.pending && ServeDelete(s.store, ctx, id, now).Ok?
    ensures var p := Removal(id, s.store.messages[id].groupId, ctx.senderAddress);
            && Enabled(s, Fetch(t, p))
            && Enabled(Step(s, Fetch(t, p)), Apply(t, now))
            && Step(Step(s, Fetch(t, p)), Apply(t, now)).store == ServeDelete(s.store, ctx, id, now).value
  {
  }

  function ThreeSteps(s: State, t: Ticket, m: Message): State
    requires Enabled(s, Draft(t, m))
  {
    Step(Step(Step(s, Draft(t, m)), Reserve(t)), Commit(t))
  }

  /** A create alone is a draft, a reservation and a commit; a rejected one burns its order. */
  lemma CreateIsThreeSteps(env: Env, s: State, t: Ticket, ctx: AuthContext, r: CreateRequest, id: Uuid, now: Timestamp)
    requires t !in s.creates && BuildMessage(env, ctx, r, id, now).Ok?
    ensures var m := BuildMessage(env, ctx, r, id, now).value;
            Enabled(s, Draft(t, m)) && ThreeSteps(s, t, m).creates == s.creates
    ensures var after := ThreeSteps(s, t, BuildMessage(env, ctx, r, id, now).value);
            var (store, res) := ServeCreate(env, s.store, ctx, r, id, now);
            && after.store == store
            && after.burned == if res.Ok? then s.burned else s.burned + {Slot(r.groupId, Counter(store, r.groupId))}
  {
    assert ThreeSteps(s, t, BuildMessage(env, ctx, r, id, now).value).creates == s.creates;
  }
}
