/** Request bodies: hex fields decoded, lengths and the per-message signature checked. */
module Requests {
  import opened Wrappers
  import opened Hex
  import opened Messages
  import opened Stores
  import opened Auth
  import Canonical
  import Decimal

  datatype BadField = EncryptedText | NonceField | MessageSignature | AttachmentField | QueryTarget

  datatype ApiError =
    | BadRequest(field: BadField)
    | Forbidden
    | NotFoundError(id: Uuid)
    | Conflict(error: StorageError)

  function FromStorage(e: StorageError): ApiError {
    match e
    case NotFound(id) => NotFoundError(id)
    case other => Conflict(other)
  }

  datatype CreateRequest = CreateRequest(
    groupId: string, encryptedText: string, nonce: string, keyVersion: int, senderAddress: string,
    messageSignature: string, attachments: seq<AttachmentRequest>)

  datatype UpdateRequest = UpdateRequest(messageId: Uuid, body: CreateRequest)

  /** Every field but the attachments is required; `key_version` is an i64. */
  function ParseCreate(j: JsonBody): Option<CreateRequest> {
    if j.groupId.None? || j.encryptedText.None? || j.nonce.None? || j.keyVersion.None? || j.senderAddress.None?
       || j.messageSignature.None? || !Decimal.InI64(j.keyVersion.value) || j.attachments.IllTyped? then None
    else Some(CreateRequest(j.groupId.value, j.encryptedText.value, j.nonce.value, j.keyVersion.value,
                            j.senderAddress.value, j.messageSignature.value,
                            if j.attachments.Given? then j.attachments.items else []))
  }

  function ParseUpdate(j: JsonBody): Option<UpdateRequest> {
    if j.messageId.None? then None
    else
      match ParseCreate(j)
      case None => None
      case Some(r) => Some(UpdateRequest(j.messageId.value, r))
  }

  function DecodeNonce(hex: string): Option<Bytes> {
    match Decode(hex)
    case None => None
    case Some(b) => if |b| == 12 then Some(b) else None
  }

  function TryIntoAttachment(a: AttachmentRequest): Option<Attachment> {
    match DecodeNonce(a.nonce)
    case None => None
    case Some(nonce) =>
      match Decode(a.encryptedMetadata)
      case None => None
      case Some(metadata) =>
        match DecodeNonce(a.metadataNonce)
        case None => None
        case Some(metadataNonce) => Some(Attachment(a.storageId, nonce, metadata, metadataNonce))
  }

  /** All or nothing. */
  function DecodeAttachments(requests: seq<AttachmentRequest>): Option<seq<Attachment>> {
    if requests == [] then Some([])
    else
      match TryIntoAttachment(requests[0])
      case None => None
      case Some(a) =>
        match DecodeAttachments(requests[1..])
        case None => None
        case Some(rest) => Some([a] + rest)
  }

  function VerifyMessageSignature(env: Env, ctx: AuthContext, r: CreateRequest): Option<Bytes> {
    match Decode(r.messageSignature)
    case None => None
    case Some(signature) =>
      var canonical := Canonical.MessageString(r.groupId, r.encryptedText, r.nonce, r.keyVersion);
      if |signature| == 64 && VerifySignature(env, env.utf8(canonical), signature, ctx.publicKey, ctx.scheme).None?
      then Some(signature) else None
  }

  /** What create and update have in common: everything that ends up in the message. */
  function DecodeContent(env: Env, ctx: AuthContext, r: CreateRequest): Result<Content, ApiError> {
    match Decode(r.encryptedText)
    case None => Err(BadRequest(EncryptedText))
    case Some(encrypted) =>
      match DecodeNonce(r.nonce)
      case None => Err(BadRequest(NonceField))
      case Some(nonce) =>
        match VerifyMessageSignature(env, ctx, r)
        case None => Err(BadRequest(MessageSignature))
        case Some(signature) =>
          match DecodeAttachments(r.attachments)
          case None => Err(BadRequest(AttachmentField))
          case Some(attachments) =>
            Ok(Content(encrypted, nonce, r.keyVersion, attachments, signature, FlaggedKey(ctx.publicKey, ctx.scheme)))
  }

  function BuildMessage(env: Env, ctx: AuthContext, r: CreateRequest, id: Uuid, now: Timestamp)
    : Result<Message, ApiError>
  {
    match DecodeContent(env, ctx, r)
    case Err(e) => Err(e)
    case Ok(content) => Ok(NewMessage(id, r.groupId, r.senderAddress, content, now))
  }

  // ---- Responses ----

  datatype AttachmentResponse = AttachmentResponse(
    storageId: string, nonce: string, encryptedMetadata: string, metadataNonce: string)

  function AttachmentToResponse(a: Attachment): AttachmentResponse {
    AttachmentResponse(a.storageId, Encode(a.nonce), Encode(a.encryptedMetadata), Encode(a.metadataNonce))
  }

  function AttachmentsToResponse(as_: seq<Attachment>): seq<AttachmentResponse> {
    seq(|as_|, i requires 0 <= i < |as_| => AttachmentToResponse(as_[i]))
  }

  datatype MessageResponse = MessageResponse(
    messageId: Uuid, groupId: string, order: int, encryptedText: string, nonce: string, keyVersion: int,
    senderAddress: string, createdAt: int, updatedAt: int, attachments: seq<AttachmentResponse>,
    isEdited: bool, isDeleted: bool, syncStatus: SyncStatus, quiltPatchId: Option<PatchId>,
    signature: string, publicKey: string)

  function ToResponse(m: Message): MessageResponse {
    MessageResponse(
      m.id, m.groupId, OrderOf(m), Encode(m.content.encryptedMsg), Encode(m.content.nonce), m.content.keyVersion,
      m.sender, Seconds(m.createdAt), Seconds(m.updatedAt), AttachmentsToResponse(m.content.attachments),
      m.updatedAt != m.createdAt, m.syncStatus.DeletePending? || m.syncStatus.Deleted?,
      m.syncStatus, m.quiltPatchId, Encode(m.content.signature), Encode(m.content.publicKey))
  }

  // ---- Round trips ----

  function LowerAttachment(a: AttachmentRequest): AttachmentResponse {
    AttachmentResponse(a.storageId, Lower(a.nonce), Lower(a.encryptedMetadata), Lower(a.metadataNonce))
  }

  lemma AttachmentRoundTrip(a: AttachmentRequest)
    requires TryIntoAttachment(a).Some?
    ensures AttachmentToResponse(TryIntoAttachment(a).value) == LowerAttachment(a)
    ensures |TryIntoAttachment(a).value.nonce| == 12 == |TryIntoAttachment(a).value.metadataNonce|
  {
    EncodeAfterDecode(a.nonce);
    EncodeAfterDecode(a.encryptedMetadata);
    EncodeAfterDecode(a.metadataNonce);
  }

  lemma {:induction false} AttachmentsRoundTrip(requests: seq<AttachmentRequest>)
    requires DecodeAttachments(requests).Some?
    ensures |DecodeAttachments(requests).value| == |requests|
    ensures forall i :: 0 <= i < |requests| ==>
              AttachmentToResponse(DecodeAttachments(requests).value[i]) == LowerAttachment(requests[i])
    decreases |requests|
  {
    if requests != [] {
      AttachmentRoundTrip(requests[0]);
      AttachmentsRoundTrip(requests[1..]);
    }
  }

  /** For every accepted body the response repeats the request's hex fields in lower case, with
      the attachments in their order, and the stored nonce is 12 bytes. */
  lemma ContentRoundTrip(env: Env, ctx: AuthContext, r: CreateRequest, m: Message)
    requires DecodeContent(env, ctx, r) == Ok(m.content)
    ensures var resp := ToResponse(m);
            && resp.encryptedText == Lower(r.encryptedText)
            && resp.nonce == Lower(r.nonce) && |m.content.nonce| == 12
            && resp.signature == Lower(r.messageSignature)
            && resp.keyVersion == r.keyVersion
            && |resp.attachments| == |r.attachments|
            && forall i :: 0 <= i < |r.attachments| ==> resp.attachments[i] == LowerAttachment(r.attachments[i])
  {
    EncodeAfterDecode(r.encryptedText);
    EncodeAfterDecode(r.nonce);
    EncodeAfterDecode(r.messageSignature);
    AttachmentsRoundTrip(r.attachments);
  }

  /** Times are shown in whole seconds, rounded down. */
  lemma ShownTimes(m: Message)
    ensures var resp := ToResponse(m);
            && resp.createdAt * 1_000_000_000 <= m.createdAt < (resp.createdAt + 1) * 1_000_000_000
            && resp.updatedAt * 1_000_000_000 <= m.updatedAt < (resp.updatedAt + 1) * 1_000_000_000
  {
  }

  // ---- Authorship ----

  /** The content was signed, by the key stored with it, for this group; and the sender is the
      address of that key. */
  ghost predicate AuthoredBy(env: Env, group: string, sender: string, content: Content) {
    exists publicKey, scheme, text, nonce ::
      && content.publicKey == FlaggedKey(publicKey, scheme) && |publicKey| == PublicKeyLength(scheme)
      && sender == DeriveAddress(env, publicKey, scheme)
      && Decode(text) == Some(content.encryptedMsg) && Decode(nonce) == Some(content.nonce)
      && |content.nonce| == 12 && |content.signature| == 64 && Decimal.InI64(content.keyVersion)
      && env.verify(env.utf8(Canonical.MessageString(group, text, nonce, content.keyVersion)),
                    content.signature, publicKey, scheme)
  }

  lemma DecodedIsAuthored(env: Env, ctx: AuthContext, r: CreateRequest, content: Content)
    requires DecodeContent(env, ctx, r) == Ok(content) && Decimal.InI64(r.keyVersion)
    requires |ctx.publicKey| == PublicKeyLength(ctx.scheme)
    requires ctx.senderAddress == DeriveAddress(env, ctx.publicKey, ctx.scheme)
    ensures AuthoredBy(env, r.groupId, ctx.senderAddress, content)
  {
    assert content.publicKey == FlaggedKey(ctx.publicKey, ctx.scheme);
    assert Decode(r.encryptedText) == Some(content.encryptedMsg) && Decode(r.nonce) == Some(content.nonce);
  }

  /** The stored key is one key of one scheme, so the stored content names its signer. */
  lemma FlaggedKeyInjective(k: Bytes, s: Scheme, k': Bytes, s': Scheme)
    requires FlaggedKey(k, s) == FlaggedKey(k', s')
    ensures k == k' && s == s'
  {
    assert FlaggedKey(k, s)[1..] == k && FlaggedKey(k', s')[1..] == k';
    assert FlaggedKey(k, s)[0] == FlaggedKey(k', s')[0];
  }
}
