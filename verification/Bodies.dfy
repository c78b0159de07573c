/** From the JSON of a request to what a later GET shows: every field of the body comes back. */
module Bodies {
  import opened Wrappers
  import opened Hex
  import opened Messages
  import opened Membership
  import opened Stores
  import opened Auth
  import opened Requests
  import opened Handlers

  // ---- What the body says ----

  /** The request is what the object says, with no attachments where none are given. */
  ghost predicate Says(j: JsonBody, r: CreateRequest) {
    && j.groupId == Some(r.groupId) && j.senderAddress == Some(r.senderAddress)
    && j.encryptedText == Some(r.encryptedText) && j.nonce == Some(r.nonce)
    && j.messageSignature == Some(r.messageSignature)
    && j.keyVersion == Some(r.keyVersion) && -0x8000_0000_0000_0000 <= r.keyVersion <= 0x7fff_ffff_ffff_ffff
    && (j.attachments == Given(r.attachments) || (j.attachments.Absent? && r.attachments == []))
  }

  ghost predicate BodyIs(env: Env, http: Request, j: JsonBody) {
    http.body.Some? && http.body.value != [] && env.json(http.body.value) == Some(j)
  }

  lemma ParsedIff(j: JsonBody, r: CreateRequest)
    ensures ParseCreate(j) == Some(r) <==> Says(j, r)
  {
  }

  /** A POST is a create exactly when it is forwarded and its body says so in full. */
  lemma PostIff(env: Env, members: Members, now: int, http: Request, ctx: AuthContext, r: CreateRequest)
    ensures PostRequest(env, members, now, http) == Ok((ctx, r)) <==>
              && http.verb.POST? && Authenticate(env, members, now, http) == Forward(ctx)
              && exists j :: BodyIs(env, http, j) && Says(j, r)
  {
    if JsonOf(env, http).Some? {
      var j := JsonOf(env, http).value;
      assert BodyIs(env, http, j);
      ParsedIff(j, r);
    }
    forall j | BodyIs(env, http, j)
      ensures JsonOf(env, http) == Some(j)
    {
    }
  }

  /** A PUT is an edit exactly when its body also names a message. */
  lemma PutIff(env: Env, members: Members, now: int, http: Request, ctx: AuthContext, r: UpdateRequest)
    ensures PutRequest(env, members, now, http) == Ok((ctx, r)) <==>
              && http.verb.PUT? && Authenticate(env, members, now, http) == Forward(ctx)
              && exists j :: BodyIs(env, http, j) && j.messageId == Some(r.messageId) && Says(j, r.body)
  {
    if JsonOf(env, http).Some? {
      var j := JsonOf(env, http).value;
      assert BodyIs(env, http, j);
      ParsedIff(j, r.body);
    }
    forall j | BodyIs(env, http, j)
      ensures JsonOf(env, http) == Some(j)
    {
    }
  }

  // ---- What is shown ----

  predicate ShowsAttachment(shown: AttachmentResponse, a: AttachmentRequest) {
    && shown.storageId == a.storageId && shown.nonce == Lower(a.nonce)
    && shown.encryptedMetadata == Lower(a.encryptedMetadata) && shown.metadataNonce == Lower(a.metadataNonce)
  }

  /** Every field of the object is shown: hex in lower case, attachments in number and order. */
  ghost predicate ShowsJson(resp: MessageResponse, j: JsonBody) {
    && j.groupId == Some(resp.groupId) && j.senderAddress == Some(resp.senderAddress)
    && j.encryptedText.Some? && resp.encryptedText == Lower(j.encryptedText.value)
    && j.nonce.Some? && resp.nonce == Lower(j.nonce.value)
    && j.messageSignature.Some? && resp.signature == Lower(j.messageSignature.value)
    && j.keyVersion == Some(resp.keyVersion)
    && (j.attachments.Absent? ==> resp.attachments == [])
    && (j.attachments.Given? ==>
          && |resp.attachments| == |j.attachments.items|
          && forall i :: 0 <= i < |resp.attachments| ==> ShowsAttachment(resp.attachments[i], j.attachments.items[i]))
  }

  /** The key as it was presented: its header, in lower case. */
  predicate ShowsKeyHeader(resp: MessageResponse, http: Request) {
    "x-public-key" in http.headers && resp.publicKey == Lower(http.headers["x-public-key"])
  }

  lemma SaidIsShown(j: JsonBody, r: CreateRequest, resp: MessageResponse)
    requires Says(j, r) && ShowsBody(resp, r) && resp.groupId == r.groupId && resp.senderAddress == r.senderAddress
    ensures ShowsJson(resp, j)
  {
    forall i | 0 <= i < |r.attachments|
      ensures ShowsAttachment(resp.attachments[i], r.attachments[i])
    {
    }
  }

  /** The content made of a forwarded body, shown in whatever message holds it. */
  lemma ContentIsShown(env: Env, members: Members, now: int, http: Request, j: JsonBody, ctx: AuthContext,
                       r: CreateRequest, m: Message)
    requires Authenticate(env, members, now, http) == Forward(ctx) && Says(j, r)
    requires DecodeContent(env, ctx, r) == Ok(m.content)
    requires m.groupId == r.groupId && m.sender == r.senderAddress
    ensures ShowsJson(ToResponse(m), j) && ShowsKeyHeader(ToResponse(m), http)
  {
    ShownContent(env, ctx, r, m);
    SaidIsShown(j, r, ToResponse(m));
    ForwardsIff(env, members, now, http, ctx);
    EncodeAfterDecode(http.headers["x-public-key"]);
  }

  /** Posted, then fetched: the JSON of the body comes back, field by field. */
  lemma PostThenGet(env: Env, members: Members, now: int, http: Request, j: JsonBody,
                    s: Store, id: Uuid, at: Timestamp, reader: AuthContext, res: Result<GetResponse, ApiError>)
    requires BodyIs(env, http, j) && PostRequest(env, members, now, http).Ok?
    requires var (ctx, r) := PostRequest(env, members, now, http).value;
             var (s', created) := ServeCreate(env, s, ctx, r, id, at);
             created.Ok? && Answers(s', reader, ById(id), res)
    ensures if reader.authorizedGroup != j.groupId then res == Err(Forbidden)
            else
              && res.Ok? && res.value.Single? && res.value.message.messageId == id
              && ShowsJson(res.value.message, j) && ShowsKeyHeader(res.value.message, http)
  {
    var (ctx, r) := PostRequest(env, members, now, http).value;
    ParsedIff(j, r);
    var s' := ServeCreate(env, s, ctx, r, id, at).0;
    ContentIsShown(env, members, now, http, j, ctx, r, s'.messages[id]);
  }

  /** Edited, then fetched: the message that the body names shows the body, and no other message
      has changed. */
  lemma PutThenGet(env: Env, members: Members, now: int, http: Request, j: JsonBody,
                   s: Store, at: Timestamp, reader: AuthContext, res: Result<GetResponse, ApiError>)
    requires Consistent(s) && BodyIs(env, http, j) && PutRequest(env, members, now, http).Ok?
    requires j.messageId.Some?
    requires var (ctx, r) := PutRequest(env, members, now, http).value;
             ServeUpdate(env, s, ctx, r, at).Ok?
             && Answers(ServeUpdate(env, s, ctx, r, at).value, reader, ById(j.messageId.value), res)
    ensures var (ctx, r) := PutRequest(env, members, now, http).value;
            var s' := ServeUpdate(env, s, ctx, r, at).value;
            && s'.messages.Keys == s.messages.Keys
            && forall i :: i in s.messages && Some(i) != j.messageId ==> s'.messages[i] == s.messages[i]
    ensures if reader.authorizedGroup != j.groupId then res == Err(Forbidden)
            else
              && res.Ok? && res.value.Single? && Some(res.value.message.messageId) == j.messageId
              && ShowsJson(res.value.message, j) && ShowsKeyHeader(res.value.message, http)
  {
    var (ctx, r) := PutRequest(env, members, now, http).value;
    assert r.messageId == j.messageId.value;
    ParsedIff(j, r.body);
    UpdateServedIff(env, s, ctx, r, at);
    var m := ServeUpdate(env, s, ctx, r, at).value.messages[r.messageId];
    assert s.messages[r.messageId].id == r.messageId;
    PutIsForCaller(env, members, now, http, ctx, r);
    ContentIsShown(env, members, now, http, j, ctx, r.body, m);
  }
}
