/** Which answer each handler gives: every refusal with its exact condition. */
module Outcomes {
  import opened Wrappers
  import opened Hex
  import opened Messages
  import opened Stores
  import opened Auth
  import opened Requests
  import opened Acceptance
  import opened Handlers

  ghost predicate Accepted(env: Env, ctx: AuthContext, r: CreateRequest) {
    && IsHexText(r.encryptedText) && IsNonceText(r.nonce) && SignatureFits(env, ctx, r) && AllFit(r.attachments)
  }

  /** A stored message, other than `except`, has the nonce that the text spells. */
  ghost predicate NonceTaken(s: Store, nonce: string, except: Option<Uuid>) {
    exists other :: other in s.messages && Some(other) != except && SpellsOut(nonce, s.messages[other].content.nonce)
  }

  lemma NonceTakenIff(env: Env, s: Store, ctx: AuthContext, r: CreateRequest, except: Option<Uuid>)
    requires DecodeContent(env, ctx, r).Ok?
    ensures NonceTaken(s, r.nonce, except) <==> NonceHeld(s, DecodeContent(env, ctx, r).value.nonce, except)
  {
    var nonce := DecodeContent(env, ctx, r).value.nonce;
    forall other | other in s.messages
      ensures SpellsOut(r.nonce, s.messages[other].content.nonce) <==> s.messages[other].content.nonce == nonce
    {
      DecodeIff(r.nonce, s.messages[other].content.nonce);
    }
  }

  lemma AcceptedOrBadField(env: Env, ctx: AuthContext, r: CreateRequest)
    ensures DecodeContent(env, ctx, r).Ok? <==> Accepted(env, ctx, r)
    ensures DecodeContent(env, ctx, r).Err? ==> DecodeContent(env, ctx, r).error.BadRequest?
  {
    AcceptedIff(env, ctx, r);
  }

  /** A create conflicts by its id, or else by its nonce; the body's own group, and no other, uses up
      a number exactly when the body was accepted. */
  lemma CreateOutcome(env: Env, s: Store, ctx: AuthContext, r: CreateRequest, id: Uuid, now: Timestamp)
    requires Consistent(s)
    ensures var (s', res) := ServeCreate(env, s, ctx, r, id, now);
            && (if !Accepted(env, ctx, r) then res.Err? && res.error.BadRequest?
                else if id in s.messages then res == Err(Conflict(DuplicateId(id)))
                else if NonceTaken(s, r.nonce, None) then res == Err(Conflict(DuplicateNonce))
                else res == Ok(id))
            && forall g :: Counter(s', g) == Counter(s, g) + if g == r.groupId && Accepted(env, ctx, r) then 1 else 0
  {
    AcceptedOrBadField(env, ctx, r);
    if DecodeContent(env, ctx, r).Ok? {
      NonceTakenIff(env, s, ctx, r, None);
      NonceHeldIff(s, DecodeContent(env, ctx, r).value.nonce);
    }
  }

  predicate Owned(s: Store, ctx: AuthContext, id: Uuid) {
    && id in s.messages && ctx.authorizedGroup == Some(s.messages[id].groupId)
    && ctx.senderAddress == s.messages[id].sender
  }

  lemma OwnedPasses(s: Store, ctx: AuthContext, id: Uuid)
    ensures CheckOwner(s, ctx, id) == if id !in s.messages then Err(NotFoundError(id))
                                      else if !Owned(s, ctx, id) then Err(Forbidden)
                                      else Ok(s.messages[id])
  {
  }

  lemma EditOutcome(env: Env, s: Store, ctx: AuthContext, r: UpdateRequest, content: Content, now: Timestamp)
    requires NonceIndexAgrees(s) && r.messageId in s.messages && DecodeContent(env, ctx, r.body) == Ok(content)
    ensures var res := Lift(Stores.UpdateMessage(s, r.messageId, content, now));
            if NonceTaken(s, r.body.nonce, Some(r.messageId)) then res == Err(Conflict(DuplicateNonce)) else res.Ok?
  {
    NonceTakenIff(env, s, ctx, r.body, Some(r.messageId));
    EditRefusedIff(s, r.messageId, content, now);
  }

  /** An edit is checked for its message, its owner, its body and its nonce, in this order. */
  lemma UpdateOutcome(env: Env, s: Store, ctx: AuthContext, r: UpdateRequest, now: Timestamp)
    requires Consistent(s)
    ensures var res := ServeUpdate(env, s, ctx, r, now);
            if r.messageId !in s.messages then res == Err(NotFoundError(r.messageId))
            else if !Owned(s, ctx, r.messageId) then res == Err(Forbidden)
            else if !Accepted(env, ctx, r.body) then res.Err? && res.error.BadRequest?
            else if NonceTaken(s, r.body.nonce, Some(r.messageId)) then res == Err(Conflict(DuplicateNonce))
            else res.Ok?
  {
    OwnedPasses(s, ctx, r.messageId);
    AcceptedOrBadField(env, ctx, r.body);
    if r.messageId in s.messages && DecodeContent(env, ctx, r.body).Ok? {
      EditOutcome(env, s, ctx, r, DecodeContent(env, ctx, r.body).value, now);
    }
  }

  lemma DeleteOutcome(s: Store, ctx: AuthContext, id: Uuid, now: Timestamp)
    ensures var res := ServeDelete(s, ctx, id, now);
            if id !in s.messages then res == Err(NotFoundError(id))
            else if !Owned(s, ctx, id) then res == Err(Forbidden)
            else res.Ok?
  {
  }

  /** A query names a message or a group; the message counts if both are named. */
  lemma GetOutcome(s: Store, ctx: AuthContext, q: GetQuery, res: Result<GetResponse, ApiError>)
    requires Answers(s, ctx, q, res)
    ensures if q.messageId.Some? then
              var id := q.messageId.value;
              if id !in s.messages then res == Err(NotFoundError(id))
              else if ctx.authorizedGroup != Some(s.messages[id].groupId) then res == Err(Forbidden)
              else res == Ok(Single(ToResponse(s.messages[id])))
            else if q.groupId.None? then res == Err(BadRequest(QueryTarget))
            else if ctx.authorizedGroup != q.groupId then res == Err(Forbidden)
            else res.Ok? && res.value.List?
  {
  }
}
