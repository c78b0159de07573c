/** Request authentication: a decision that yields the context handlers rely on. */
module Auth {
  import opened Wrappers
  import opened Hex
  import opened Messages
  import opened Permissions
  import opened Membership
  import opened MembershipHistory
  import Decimal
  import Canonical

  datatype Scheme = Ed25519 | Secp256k1 | Secp256r1

  function Flag(s: Scheme): Byte {
    match s
    case Ed25519 => 0
    case Secp256k1 => 1
    case Secp256r1 => 2
  }

  function FromFlag(flag: Byte): Option<Scheme> {
    if flag == 0 then Some(Ed25519)
    else if flag == 1 then Some(Secp256k1)
    else if flag == 2 then Some(Secp256r1)
    else None
  }

  function PublicKeyLength(s: Scheme): nat {
    if s.Ed25519? then 32 else 33
  }

  datatype AttachmentRequest = AttachmentRequest(
    storageId: string, nonce: string, encryptedMetadata: string, metadataNonce: string)

  /** A list that may be left out, but not be anything else. */
  datatype OptionalList<T> = Absent | IllTyped | Given(items: seq<T>)

  /** A parsed JSON object; a missing or ill-typed field is `None`, a number any integer. */
  datatype JsonBody = JsonBody(
    groupId: Option<string>,
    senderAddress: Option<string>,
    timestamp: Option<int>,
    messageId: Option<Uuid>,
    encryptedText: Option<string>,
    nonce: Option<string>,
    keyVersion: Option<int>,
    messageSignature: Option<string>,
    attachments: OptionalList<AttachmentRequest>)

  /** Libraries the relayer calls: signature verification over message, signature, key and
      scheme; Blake2b-256; UTF-8; JSON. The request lifetime comes from configuration. */
  datatype Env = Env(
    verify: (Bytes, Bytes, Bytes, Scheme) -> bool,
    blake2b: Bytes -> Bytes,
    utf8: string -> Bytes,
    json: Bytes -> Option<JsonBody>,
    ttl: int)

  datatype Method = GET | POST | PUT | DELETE | OtherMethod

  /** `headers` holds the trimmed text of each readable header; `body` is `None` when reading
      it fails. */
  datatype Request = Request(verb: Method, headers: map<string, string>, body: Option<Bytes>)

  datatype AuthContext = AuthContext(
    senderAddress: string,
    publicKey: Bytes,
    scheme: Scheme,
    authorizedGroup: Option<string>)

  datatype Rejection =
    | MissingSignature | MissingPublicKey | InvalidPublicKeyFormat | InvalidSignatureFormat
    | BodyReadError | InvalidBody
    | MissingSenderAddress | MissingTimestamp | MissingGroupId | InvalidTimestamp
    | RequestExpired | SignatureVerificationFailed | AddressMismatch | NotGroupMember

  function StatusCode(r: Rejection): int {
    match r
    case BodyReadError => 400
    case InvalidBody => 400
    case InvalidTimestamp => 400
    case NotGroupMember => 403
    case _ => 401
  }

  datatype Decision = Bypass | Forward(ctx: AuthContext) | Reject(reason: Rejection)

  function RequiredPermission(m: Method): Option<Permission> {
    match m
    case GET => Some(MessagingReader)
    case POST => Some(MessagingSender)
    case PUT => Some(MessagingEditor)
    case DELETE => Some(MessagingDeleter)
    case OtherMethod => None
  }

  function Header(req: Request, name: string): Option<string> {
    if name in req.headers then Some(req.headers[name]) else None
  }

  function VerifySignature(env: Env, message: Bytes, signature: Bytes, publicKey: Bytes, scheme: Scheme)
    : Option<Rejection>
  {
    if |signature| != 64 then Some(InvalidSignatureFormat)
    else if |publicKey| != PublicKeyLength(scheme) then Some(InvalidPublicKeyFormat)
    else if !env.verify(message, signature, publicKey, scheme) then Some(SignatureVerificationFailed)
    else None
  }

  /** The flag byte and the key, as stored with a message and as hashed into an address. */
  function FlaggedKey(publicKey: Bytes, scheme: Scheme): Bytes {
    [Flag(scheme)] + publicKey
  }

  function DeriveAddress(env: Env, publicKey: Bytes, scheme: Scheme): string {
    "0x" + Encode(env.blake2b(FlaggedKey(publicKey, scheme)))
  }

  /** Who claims to be asking for which group, when, and the bytes they signed. */
  datatype Claim = Claim(group: string, sender: string, timestamp: int, message: Bytes)

  function BodyClaim(env: Env, body: Bytes): Result<Claim, Rejection> {
    match env.json(body)
    case None => Err(InvalidBody)
    case Some(j) =>
      if j.groupId.None? || j.senderAddress.None? || j.timestamp.None? || !Decimal.InI64(j.timestamp.value)
      then Err(InvalidBody)
      else Ok(Claim(j.groupId.value, j.senderAddress.value, j.timestamp.value, body))
  }

  function HeaderClaim(env: Env, req: Request): Result<Claim, Rejection> {
    match Header(req, "x-sender-address")
    case None => Err(MissingSenderAddress)
    case Some(sender) =>
      match Header(req, "x-timestamp")
      case None => Err(MissingTimestamp)
      case Some(text) =>
        match Header(req, "x-group-id")
        case None => Err(MissingGroupId)
        case Some(group) =>
          match Decimal.ParseI64(text)
          case None => Err(InvalidTimestamp)
          case Some(t) => Ok(Claim(group, sender, t, env.utf8(Canonical.RequestString(t, sender, group))))
  }

  function Distance(a: int, b: int): nat {
    if a < b then b - a else a - b
  }

  function CheckClaim(env: Env, members: Members, now: int, required: Permission, claim: Claim,
                      signature: Bytes, publicKey: Bytes, scheme: Scheme): Decision
  {
    if Distance(now, claim.timestamp) > env.ttl then Reject(RequestExpired)
    else
      match VerifySignature(env, claim.message, signature, publicKey, scheme)
      case Some(e) => Reject(e)
      case None =>
        if claim.sender != DeriveAddress(env, publicKey, scheme) then Reject(AddressMismatch)
        else if !Holds(members, claim.group, claim.sender, required) then Reject(NotGroupMember)
        else Forward(AuthContext(claim.sender, publicKey, scheme, Some(claim.group)))
  }

  function DecodeKey(hex: string): Result<(Bytes, Scheme), Rejection> {
    match Decode(hex)
    case None => Err(InvalidPublicKeyFormat)
    case Some(flagged) =>
      if flagged == [] then Err(InvalidPublicKeyFormat)
      else
        match FromFlag(flagged[0])
        case None => Err(InvalidPublicKeyFormat)
        case Some(scheme) =>
          if |flagged[1..]| != PublicKeyLength(scheme) then Err(InvalidPublicKeyFormat)
          else Ok((flagged[1..], scheme))
  }

  function ClaimOf(env: Env, req: Request): Result<Claim, Rejection> {
    match req.body
    case None => Err(BodyReadError)
    case Some(body) => if body != [] then BodyClaim(env, body) else HeaderClaim(env, req)
  }

  function Authenticate(env: Env, members: Members, now: int, req: Request): Decision {
    match RequiredPermission(req.verb)
    case None => Bypass
    case Some(required) =>
      match Header(req, "x-signature")
      case None => Reject(MissingSignature)
      case Some(signatureHex) =>
        match Header(req, "x-public-key")
        case None => Reject(MissingPublicKey)
        case Some(keyHex) =>
          match DecodeKey(keyHex)
          case Err(e) => Reject(e)
          case Ok((publicKey, scheme)) =>
            match Decode(signatureHex)
            case None => Reject(InvalidSignatureFormat)
            case Some(signature) =>
              match ClaimOf(env, req)
              case Err(e) => Reject(e)
              case Ok(claim) => CheckClaim(env, members, now, required, claim, signature, publicKey, scheme)
  }

  // ---- What a forwarded request proves ----

  /** The key's owner signed the claim, recently. */
  ghost predicate Signed(env: Env, now: int, claim: Claim, signature: Bytes, ctx: AuthContext) {
    && |signature| == 64 && |ctx.publicKey| == PublicKeyLength(ctx.scheme)
    && env.verify(claim.message, signature, ctx.publicKey, ctx.scheme)
    && claim.sender == ctx.senderAddress == DeriveAddress(env, ctx.publicKey, ctx.scheme)
    && claim.timestamp - env.ttl <= now <= claim.timestamp + env.ttl
    && ctx.authorizedGroup == Some(claim.group)
  }

  /** And holds the permission. */
  ghost predicate Genuine(env: Env, members: Members, now: int, required: Permission, claim: Claim, signature: Bytes,
                          ctx: AuthContext)
  {
    && Signed(env, now, claim, signature, ctx)
    && Holds(members, claim.group, claim.sender, required)
  }

  /** A public key header means one key of one scheme, and spells its flag and bytes in hex. */
  lemma DecodeKeyIff(hex: string, publicKey: Bytes, scheme: Scheme)
    ensures DecodeKey(hex) == Ok((publicKey, scheme))
            <==> Decode(hex) == Some(FlaggedKey(publicKey, scheme)) && |publicKey| == PublicKeyLength(scheme)
  {
    if DecodeKey(hex) == Ok((publicKey, scheme)) {
      var flagged := Decode(hex).value;
      assert flagged == [flagged[0]] + flagged[1..];
    }
    if Decode(hex) == Some(FlaggedKey(publicKey, scheme)) {
      assert FlaggedKey(publicKey, scheme)[1..] == publicKey;
    }
  }

  /** Middleware forwards a request with a context exactly when its two headers decode and the
      context's key signed the request's claim, in time, for a permission held. */
  lemma ForwardsIff(env: Env, members: Members, now: int, req: Request, ctx: AuthContext)
    ensures Authenticate(env, members, now, req) == Forward(ctx) <==>
              && RequiredPermission(req.verb).Some?
              && Header(req, "x-signature").Some? && Decode(Header(req, "x-signature").value).Some?
              && Header(req, "x-public-key").Some?
              && Decode(Header(req, "x-public-key").value) == Some(FlaggedKey(ctx.publicKey, ctx.scheme))
              && ClaimOf(env, req).Ok?
              && Genuine(env, members, now, RequiredPermission(req.verb).value, ClaimOf(env, req).value,
                         Decode(Header(req, "x-signature").value).value, ctx)
  {
    if Header(req, "x-public-key").Some? {
      DecodeKeyIff(Header(req, "x-public-key").value, ctx.publicKey, ctx.scheme);
    }
  }

  /** A refusal with 403 means one thing: all is genuine but the permission. */
  lemma ForbiddenIff(env: Env, members: Members, now: int, req: Request)
    ensures Authenticate(env, members, now, req).Reject?
            && StatusCode(Authenticate(env, members, now, req).reason) == 403 <==>
              exists ctx :: GenuineButForPermission(env, members, now, req, ctx)
  {
    var d := Authenticate(env, members, now, req);
    if d == Reject(NotGroupMember) {
      var (publicKey, scheme) := DecodeKey(Header(req, "x-public-key").value).value;
      var claim := ClaimOf(env, req).value;
      DecodeKeyIff(Header(req, "x-public-key").value, publicKey, scheme);
      var ctx := AuthContext(claim.sender, publicKey, scheme, Some(claim.group));
      assert GenuineButForPermission(env, members, now, req, ctx);
    }
    forall ctx | GenuineButForPermission(env, members, now, req, ctx)
      ensures d == Reject(NotGroupMember)
    {
      DecodeKeyIff(Header(req, "x-public-key").value, ctx.publicKey, ctx.scheme);
    }
  }

  /** The middleware would forward `ctx` if its sender held the permission, which it does not. */
  ghost predicate GenuineButForPermission(env: Env, members: Members, now: int, req: Request, ctx: AuthContext) {
    && RequiredPermission(req.verb).Some?
    && Header(req, "x-signature").Some? && Decode(Header(req, "x-signature").value).Some?
    && Header(req, "x-public-key").Some?
    && Decode(Header(req, "x-public-key").value) == Some(FlaggedKey(ctx.publicKey, ctx.scheme))
    && ClaimOf(env, req).Ok?
    && var claim := ClaimOf(env, req).value;
       && Signed(env, now, claim, Decode(Header(req, "x-signature").value).value, ctx)
       && !Holds(members, claim.group, claim.sender, RequiredPermission(req.verb).value)
  }

  /** With a cache fed by chain events, only those pass whom the history of events gives the
      permission the method needs. */
  lemma ForwardedByHistory(env: Env, es: seq<GroupsEvent>, now: int, req: Request)
    requires Authenticate(env, ApplyEvents(map[], es), now, req).Forward?
    ensures var ctx := Authenticate(env, ApplyEvents(map[], es), now, req).ctx;
            && ctx.authorizedGroup.Some? && RequiredPermission(req.verb).Some?
            && HeldByHistory(es, ctx.authorizedGroup.value, ctx.senderAddress, RequiredPermission(req.verb).value)
  {
    var ctx := Authenticate(env, ApplyEvents(map[], es), now, req).ctx;
    HasPermissionIff(es, ctx.authorizedGroup.value, ctx.senderAddress, RequiredPermission(req.verb).value);
  }

  lemma DerivedIsAddress(env: Env, publicKey: Bytes, scheme: Scheme)
    ensures Canonical.IsAddress(DeriveAddress(env, publicKey, scheme))
  {
    var h := env.blake2b(FlaggedKey(publicKey, scheme));
    DecodeAfterEncode(h);
    assert DeriveAddress(env, publicKey, scheme)[2..] == Encode(h);
    assert DeriveAddress(env, publicKey, scheme)[..2] == "0x";
  }

  lemma ParsedInRange(text: string)
    requires Decimal.ParseI64(text).Some?
    ensures Decimal.InI64(Decimal.ParseI64(text).value)
  {
  }

  lemma BodylessClaim(env: Env, members: Members, now: int, req: Request)
    requires req.body == Some([]) && Authenticate(env, members, now, req).Forward?
    ensures ClaimOf(env, req).Ok?
    ensures var c := ClaimOf(env, req).value;
            && Decimal.InI64(c.timestamp) && Canonical.IsAddress(c.sender)
            && c.message == env.utf8(Canonical.RequestString(c.timestamp, c.sender, c.group))
  {
    var ctx := Authenticate(env, members, now, req).ctx;
    DerivedIsAddress(env, ctx.publicKey, ctx.scheme);
    ParsedInRange(Header(req, "x-timestamp").value);
  }

  /** What a client signs for a request without a body means one request: two that are both
      forwarded and sign the same bytes name the same time, sender and group. */
  lemma BodylessSignsOneClaim(env: Env, members: Members, now: int, req: Request, members': Members, now': int,
                              req': Request)
    requires forall s, t :: env.utf8(s) == env.utf8(t) ==> s == t
    requires req.body == Some([]) && req'.body == Some([])
    requires Authenticate(env, members, now, req).Forward? && Authenticate(env, members', now', req').Forward?
    requires ClaimOf(env, req).Ok? && ClaimOf(env, req').Ok?
    requires ClaimOf(env, req).value.message == ClaimOf(env, req').value.message
    ensures ClaimOf(env, req) == ClaimOf(env, req')
  {
    BodylessClaim(env, members, now, req);
    BodylessClaim(env, members', now', req');
    var c, c' := ClaimOf(env, req).value, ClaimOf(env, req').value;
    Canonical.RequestStringInjective(c.timestamp, c.sender, c.group, c'.timestamp, c'.sender, c'.group);
  }
}
