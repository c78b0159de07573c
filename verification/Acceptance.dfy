/** Which message bodies are accepted, field by field, and which field a refusal names. */
module Acceptance {
  import opened Wrappers
  import opened Hex
  import opened Messages
  import opened Auth
  import opened Requests
  import Decimal

  /** 12 bytes in hex. */
  predicate IsNonceText(s: string) {
    |s| == 24 && IsHexText(s)
  }

  predicate AttachmentFits(a: AttachmentRequest) {
    IsNonceText(a.nonce) && IsHexText(a.encryptedMetadata) && IsNonceText(a.metadataNonce)
  }

  /** 64 bytes in hex, which the caller's key verifies over group, text, nonce and version. */
  predicate SignatureFits(env: Env, ctx: AuthContext, r: CreateRequest) {
    && |r.messageSignature| == 128 && Decode(r.messageSignature).Some?
    && |ctx.publicKey| == (if ctx.scheme.Ed25519? then 32 else 33)
    && env.verify(env.utf8(r.groupId + ":" + r.encryptedText + ":" + r.nonce + ":" + Decimal.Format(r.keyVersion)),
                  Decode(r.messageSignature).value, ctx.publicKey, ctx.scheme)
  }

  lemma NonceTextIff(s: string)
    ensures DecodeNonce(s).Some? <==> IsNonceText(s)
  {
    HexTextIff(s);
  }

  lemma AttachmentFitsIff(a: AttachmentRequest)
    ensures TryIntoAttachment(a).Some? <==> AttachmentFits(a)
  {
    NonceTextIff(a.nonce);
    HexTextIff(a.encryptedMetadata);
    NonceTextIff(a.metadataNonce);
  }

  ghost predicate AllFit(requests: seq<AttachmentRequest>) {
    forall i :: 0 <= i < |requests| ==> AttachmentFits(requests[i])
  }

  lemma {:induction false} AllFitIff(requests: seq<AttachmentRequest>)
    ensures DecodeAttachments(requests).Some? <==> AllFit(requests)
  {
    if requests != [] {
      AttachmentFitsIff(requests[0]);
      AllFitIff(requests[1..]);
      assert AllFit(requests) <==> AttachmentFits(requests[0]) && AllFit(requests[1..]) by {
        assert forall i :: 1 <= i < |requests| ==> requests[i] == requests[1..][i - 1];
      }
    }
  }

  lemma SignatureFitsIff(env: Env, ctx: AuthContext, r: CreateRequest)
    ensures VerifyMessageSignature(env, ctx, r).Some? <==> SignatureFits(env, ctx, r)
  {
    HexTextIff(r.messageSignature);
  }

  /** A body is accepted exactly when each field fits; a refusal names the first that does not. */
  lemma AcceptedIff(env: Env, ctx: AuthContext, r: CreateRequest)
    ensures DecodeContent(env, ctx, r).Ok? <==>
              IsHexText(r.encryptedText) && IsNonceText(r.nonce) && SignatureFits(env, ctx, r) && AllFit(r.attachments)
    ensures DecodeContent(env, ctx, r) == Err(BadRequest(EncryptedText)) <==> !IsHexText(r.encryptedText)
    ensures DecodeContent(env, ctx, r) == Err(BadRequest(NonceField)) <==>
              IsHexText(r.encryptedText) && !IsNonceText(r.nonce)
    ensures DecodeContent(env, ctx, r) == Err(BadRequest(MessageSignature)) <==>
              IsHexText(r.encryptedText) && IsNonceText(r.nonce) && !SignatureFits(env, ctx, r)
    ensures DecodeContent(env, ctx, r) == Err(BadRequest(AttachmentField)) <==>
              IsHexText(r.encryptedText) && IsNonceText(r.nonce) && SignatureFits(env, ctx, r) && !AllFit(r.attachments)
  {
    HexTextIff(r.encryptedText);
    NonceTextIff(r.nonce);
    SignatureFitsIff(env, ctx, r);
    AllFitIff(r.attachments);
  }

  lemma {:induction false} DecodedAt(requests: seq<AttachmentRequest>, i: nat)
    requires DecodeAttachments(requests).Some? && i < |requests|
    ensures |DecodeAttachments(requests).value| == |requests|
    ensures TryIntoAttachment(requests[i]) == Some(DecodeAttachments(requests).value[i])
    decreases |requests|
  {
    AttachmentsRoundTrip(requests);
    if i > 0 {
      DecodedAt(requests[1..], i - 1);
    }
  }

  ghost predicate SpelledBy(a: AttachmentRequest, b: Attachment) {
    && b.storageId == a.storageId && SpellsOut(a.nonce, b.nonce)
    && SpellsOut(a.encryptedMetadata, b.encryptedMetadata) && SpellsOut(a.metadataNonce, b.metadataNonce)
  }

  /** What is stored is what the accepted texts spell, and the key is the caller's. */
  lemma AcceptedIsSpelled(env: Env, ctx: AuthContext, r: CreateRequest, content: Content)
    requires DecodeContent(env, ctx, r) == Ok(content)
    ensures SpellsOut(r.encryptedText, content.encryptedMsg) && SpellsOut(r.nonce, content.nonce)
    ensures SpellsOut(r.messageSignature, content.signature) && content.keyVersion == r.keyVersion
    ensures content.publicKey == [match ctx.scheme case Ed25519 => 0 case Secp256k1 => 1 case Secp256r1 => 2]
                                 + ctx.publicKey
    ensures |content.attachments| == |r.attachments|
    ensures forall i :: 0 <= i < |r.attachments| ==> SpelledBy(r.attachments[i], content.attachments[i])
  {
    DecodeIff(r.encryptedText, content.encryptedMsg);
    DecodeIff(r.nonce, content.nonce);
    DecodeIff(r.messageSignature, content.signature);
    AttachmentsRoundTrip(r.attachments);
    forall i | 0 <= i < |r.attachments|
      ensures SpelledBy(r.attachments[i], content.attachments[i])
    {
      var a, b := r.attachments[i], content.attachments[i];
      DecodedAt(r.attachments, i);
      DecodeIff(a.nonce, b.nonce);
      DecodeIff(a.encryptedMetadata, b.encryptedMetadata);
      DecodeIff(a.metadataNonce, b.metadataNonce);
    }
  }
}
