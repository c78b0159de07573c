/** What the middleware lets through, spelled out: verbs, headers, flag bytes and signed bytes. */
module Admission {
  import opened Wrappers
  import opened Hex
  import opened Permissions
  import opened Membership
  import opened Auth
  import Decimal

  /** The permission that each verb asks for. */
  predicate Asks(verb: Method, required: Permission) {
    || (verb.GET? && required == MessagingReader)
    || (verb.POST? && required == MessagingSender)
    || (verb.PUT? && required == MessagingEditor)
    || (verb.DELETE? && required == MessagingDeleter)
  }

  /** A flag byte and a key of its scheme's length, in hex. */
  predicate SpellsKey(text: string, publicKey: Bytes, scheme: Scheme) {
    || (scheme.Ed25519? && |publicKey| == 32 && Decode(text) == Some([0] + publicKey))
    || (scheme.Secp256k1? && |publicKey| == 33 && Decode(text) == Some([1] + publicKey))
    || (scheme.Secp256r1? && |publicKey| == 33 && Decode(text) == Some([2] + publicKey))
  }

  lemma KeyHeaderIff(text: string, publicKey: Bytes, scheme: Scheme)
    ensures DecodeKey(text) == Ok((publicKey, scheme)) <==> SpellsKey(text, publicKey, scheme)
  {
    DecodeKeyIff(text, publicKey, scheme);
  }

  /** The address of a key: "0x" and the hash of the bytes that its header spells. */
  predicate IsAddressOf(env: Env, address: string, keyText: string) {
    Decode(keyText).Some? && address == "0x" + Encode(env.blake2b(Decode(keyText).value))
  }

  /** Two headers carry a signature of 64 bytes and a key; the key verifies the signature of
      `message`, and the caller is the key's address. */
  predicate SignedBy(env: Env, req: Request, message: Bytes, ctx: AuthContext) {
    && "x-signature" in req.headers && "x-public-key" in req.headers
    && Decode(req.headers["x-signature"]).Some? && |Decode(req.headers["x-signature"]).value| == 64
    && SpellsKey(req.headers["x-public-key"], ctx.publicKey, ctx.scheme)
    && env.verify(message, Decode(req.headers["x-signature"]).value, ctx.publicKey, ctx.scheme)
    && IsAddressOf(env, ctx.senderAddress, req.headers["x-public-key"])
  }

  predicate Timely(now: int, timestamp: int, ttl: int) {
    timestamp - ttl <= now <= timestamp + ttl
  }

  /** The decision on a request whose claim is known. */
  lemma ClaimForwardedIff(env: Env, members: Members, now: int, req: Request, required: Permission, claim: Claim,
                          ctx: AuthContext)
    requires Asks(req.verb, required) && ClaimOf(env, req) == Ok(claim)
    ensures Authenticate(env, members, now, req) == Forward(ctx) <==>
              && SignedBy(env, req, claim.message, ctx) && Timely(now, claim.timestamp, env.ttl)
              && ctx.senderAddress == claim.sender && ctx.authorizedGroup == Some(claim.group)
              && Holds(members, claim.group, claim.sender, required)
  {
    ForwardsIff(env, members, now, req, ctx);
    if Header(req, "x-public-key").Some? {
      KeyHeaderIff(req.headers["x-public-key"], ctx.publicKey, ctx.scheme);
      DecodeKeyIff(req.headers["x-public-key"], ctx.publicKey, ctx.scheme);
    }
  }

  /** Only other verbs pass unseen. */
  lemma BypassIff(env: Env, members: Members, now: int, req: Request)
    ensures Authenticate(env, members, now, req) == Bypass <==> req.verb.OtherMethod?
  {
  }

  /** A request with a body is forwarded exactly when the body names group, sender and time, and
      the sender signed the body's bytes, in time, and holds the permission of the verb. */
  lemma BodyForwardedIff(env: Env, members: Members, now: int, req: Request, required: Permission, body: Bytes,
                         ctx: AuthContext)
    requires Asks(req.verb, required) && req.body == Some(body) && body != []
    ensures Authenticate(env, members, now, req) == Forward(ctx) <==>
              && env.json(body).Some?
              && var j := env.json(body).value;
                 && j.groupId.Some? && ctx.authorizedGroup == j.groupId
                 && j.senderAddress == Some(ctx.senderAddress)
                 && j.timestamp.Some? && Decimal.InI64(j.timestamp.value) && Timely(now, j.timestamp.value, env.ttl)
                 && SignedBy(env, req, body, ctx)
                 && Holds(members, j.groupId.value, ctx.senderAddress, required)
  {
    match ClaimOf(env, req)
    case Ok(claim) => ClaimForwardedIff(env, members, now, req, required, claim, ctx);
    case Err(_) => ForwardsIff(env, members, now, req, ctx);
  }

  /** A request without a body is forwarded exactly when its headers name group, sender and time,
      and the sender signed the three, in time, and holds the permission of the verb. */
  lemma BodylessForwardedIff(env: Env, members: Members, now: int, req: Request, required: Permission,
                             ctx: AuthContext)
    requires Asks(req.verb, required) && req.body == Some([])
    ensures Authenticate(env, members, now, req) == Forward(ctx) <==>
              && "x-sender-address" in req.headers && "x-timestamp" in req.headers && "x-group-id" in req.headers
              && Decimal.ParseI64(req.headers["x-timestamp"]).Some?
              && var sender, group := req.headers["x-sender-address"], req.headers["x-group-id"];
                 var timestamp := Decimal.ParseI64(req.headers["x-timestamp"]).value;
                 && ctx.senderAddress == sender && ctx.authorizedGroup == Some(group)
                 && Timely(now, timestamp, env.ttl)
                 && SignedBy(env, req, env.utf8(Decimal.Format(timestamp) + ":" + sender + ":" + group), ctx)
                 && Holds(members, group, sender, required)
  {
    match ClaimOf(env, req)
    case Ok(claim) => ClaimForwardedIff(env, members, now, req, required, claim, ctx);
    case Err(_) => ForwardsIff(env, members, now, req, ctx);
  }

  /** A reader who signs a GET in time gets through. */
  lemma SignedGetIsForwarded(env: Env, members: Members, now: int, req: Request, timestamp: int, ctx: AuthContext,
                             group: string)
    requires req.verb.GET? && req.body == Some([])
    requires {"x-sender-address", "x-timestamp", "x-group-id"} <= req.headers.Keys
    requires req.headers["x-sender-address"] == ctx.senderAddress && req.headers["x-group-id"] == group
    requires Decimal.InI64(timestamp) && req.headers["x-timestamp"] == Decimal.Format(timestamp)
    requires timestamp - env.ttl <= now <= timestamp + env.ttl
    requires SignedBy(env, req, env.utf8(Decimal.Format(timestamp) + ":" + ctx.senderAddress + ":" + group), ctx)
    requires Holds(members, group, ctx.senderAddress, MessagingReader)
    ensures Authenticate(env, members, now, req) == Forward(ctx.(authorizedGroup := Some(group)))
  {
    Decimal.ParseFormat(timestamp);
    BodylessForwardedIff(env, members, now, req, MessagingReader, ctx.(authorizedGroup := Some(group)));
  }

  /** Both headers are there and can be read. */
  ghost predicate HeadersRead(req: Request) {
    && "x-signature" in req.headers && "x-public-key" in req.headers
    && Decode(req.headers["x-signature"]).Some?
    && SpellsSomeKey(req.headers["x-public-key"])
  }

  ghost predicate SpellsSomeKey(text: string) {
    exists publicKey: Bytes, scheme: Scheme :: SpellsKey(text, publicKey, scheme)
  }

  lemma SomeKeyIff(text: string)
    ensures SpellsSomeKey(text) <==> DecodeKey(text).Ok?
  {
    if DecodeKey(text).Ok? {
      KeyHeaderIff(text, DecodeKey(text).value.0, DecodeKey(text).value.1);
    }
    forall publicKey, scheme | SpellsKey(text, publicKey, scheme)
      ensures DecodeKey(text).Ok?
    {
      KeyHeaderIff(text, publicKey, scheme);
    }
  }

  /** A request whose body cannot be read, or does not name its claim, or without a body a
      timestamp that is not a number. */
  predicate Malformed(env: Env, req: Request) {
    || req.body.None?
    || (req.body.value != []
        && (env.json(req.body.value).None? || env.json(req.body.value).value.groupId.None?
            || env.json(req.body.value).value.senderAddress.None? || env.json(req.body.value).value.timestamp.None?
            || !Decimal.InI64(env.json(req.body.value).value.timestamp.value)))
    || (req.body.value == [] && {"x-sender-address", "x-timestamp", "x-group-id"} <= req.headers.Keys
        && Decimal.ParseI64(req.headers["x-timestamp"]).None?)
  }

  lemma HeadersReadIff(req: Request)
    ensures HeadersRead(req) <==> Header(req, "x-signature").Some? && Decode(Header(req, "x-signature").value).Some?
                                  && Header(req, "x-public-key").Some?
                                  && DecodeKey(Header(req, "x-public-key").value).Ok?
  {
    if Header(req, "x-public-key").Some? {
      SomeKeyIff(req.headers["x-public-key"]);
    }
  }

  lemma ClaimMalformedIff(env: Env, req: Request)
    ensures ClaimOf(env, req).Err? && StatusCode(ClaimOf(env, req).error) == 400 <==> Malformed(env, req)
    ensures ClaimOf(env, req).Err? ==> StatusCode(ClaimOf(env, req).error) in {400, 401}
  {
  }

  lemma CheckIsNever400(env: Env, members: Members, now: int, required: Permission, claim: Claim, signature: Bytes,
                        publicKey: Bytes, scheme: Scheme)
    ensures var d := CheckClaim(env, members, now, required, claim, signature, publicKey, scheme);
            d.Reject? ==> StatusCode(d.reason) in {401, 403}
  {
  }

  /** Status 400 means exactly a malformed request under readable headers; no refusal has another
      status than 400, 401 or 403. */
  lemma MalformedIff(env: Env, members: Members, now: int, req: Request)
    requires !req.verb.OtherMethod?
    ensures var d := Authenticate(env, members, now, req);
            && (d.Reject? && StatusCode(d.reason) == 400 <==> HeadersRead(req) && Malformed(env, req))
            && (d.Reject? ==> StatusCode(d.reason) in {400, 401, 403})
  {
    HeadersReadIff(req);
    ClaimMalformedIff(env, req);
    if HeadersRead(req) && ClaimOf(env, req).Ok? {
      var (publicKey, scheme) := DecodeKey(Header(req, "x-public-key").value).value;
      CheckIsNever400(env, members, now, RequiredPermission(req.verb).value, ClaimOf(env, req).value,
                      Decode(Header(req, "x-signature").value).value, publicKey, scheme);
    }
  }

  /** Before a claim is known: signature, key and body are looked at in this order, and for a request
      without a body its three headers. */
  lemma RefusedBeforeClaim(env: Env, members: Members, now: int, req: Request)
    requires !req.verb.OtherMethod?
    requires !HeadersRead(req) || ClaimOf(env, req).Err?
    ensures Authenticate(env, members, now, req) ==
            Reject(if "x-signature" !in req.headers then MissingSignature
                   else if "x-public-key" !in req.headers then MissingPublicKey
                   else if !SpellsSomeKey(req.headers["x-public-key"]) then InvalidPublicKeyFormat
                   else if !IsHexText(req.headers["x-signature"]) then InvalidSignatureFormat
                   else if req.body.None? then BodyReadError
                   else if req.body.value != [] then InvalidBody
                   else if "x-sender-address" !in req.headers then MissingSenderAddress
                   else if "x-timestamp" !in req.headers then MissingTimestamp
                   else if "x-group-id" !in req.headers then MissingGroupId
                   else InvalidTimestamp)
  {
    HeadersReadIff(req);
    if "x-signature" in req.headers && "x-public-key" in req.headers {
      HexTextIff(req.headers["x-signature"]);
      SomeKeyIff(req.headers["x-public-key"]);
    }
  }

  /** With a claim: its age, the signature, the address and the permission, in this order. */
  lemma RefusedForClaim(env: Env, members: Members, now: int, req: Request, required: Permission, claim: Claim,
                        publicKey: Bytes, scheme: Scheme)
    requires Asks(req.verb, required) && ClaimOf(env, req) == Ok(claim)
    requires "x-signature" in req.headers && Decode(req.headers["x-signature"]).Some?
    requires "x-public-key" in req.headers && SpellsKey(req.headers["x-public-key"], publicKey, scheme)
    ensures var signature := Decode(req.headers["x-signature"]).value;
            Authenticate(env, members, now, req) ==
            if !Timely(now, claim.timestamp, env.ttl) then Reject(RequestExpired)
            else if |signature| != 64 then Reject(InvalidSignatureFormat)
            else if !env.verify(claim.message, signature, publicKey, scheme) then Reject(SignatureVerificationFailed)
            else if !IsAddressOf(env, claim.sender, req.headers["x-public-key"]) then Reject(AddressMismatch)
            else if !Holds(members, claim.group, claim.sender, required) then Reject(NotGroupMember)
            else Forward(AuthContext(claim.sender, publicKey, scheme, Some(claim.group)))
  {
    KeyHeaderIff(req.headers["x-public-key"], publicKey, scheme);
    DecodeKeyIff(req.headers["x-public-key"], publicKey, scheme);
  }
}
