/** The statements the payload builders of `crypto_protocol.rs`, the anchor leaves and the proof checkpoints put
    into canonical framing. */
module Payloads {
  import opened Wrappers
  import opened Text
  import opened CanonicalFields

  datatype Receipt = Receipt(
    receiptId: string, actionHash: string, agentId: string, ringKeyImageHex: string,
    policyVersion: string, ajwtJti: string, popJkt: string, status: string, signature: string,
    createdAt: int, tenantId: string, ringId: string, configDigest: string)

  datatype Payload =
    | CallV2(agentId: string, tenantId: string, audience: string, httpMethod: string, targetUri: string,
             contentType: string, bodySha256: string, configDigest: string, timestampMs: string, nonce: string)
    | CallV3(agentId: string, tenantId: string, audience: string, httpMethod: string, targetUri: string,
             contentType: string, bodySha256: string, configDigest: string, mandateDigest: string,
             runId: string, timestampMs: string, expiresAtMs: string, nonce: string)
    | DeploymentLicence(licenceId: string, licensee: string, tenantId: string, maxAgents: string,
                        issuedAtMs: string, expiresAtMs: string)
    | OwnerMandate(tenantId: string, humanKeyImage: string, agentPublicKeyHex: string,
                   popPublicKeyB64u: string, intentJson: string, ttlSecs: string)
    | PartnerRegistration(tenantId: string, publicKeyHex: string, keyImageHex: string, firstName: string,
                          lastName: string, email: string, dateOfBirth: string, nationality: string,
                          commitment: string, authPublicKeyB64u: string)
    | UserAuthChallenge(challengeId: string, tenantId: string, keyImageHex: string, nonce: string,
                        expiresAt: int)
    | AuditHeadLeaf(tenantId: string, auditSeq: int, entryHash: string)
    | ReceiptLeaf(receipt: Receipt)
    | ZkCheckpoint(tenantId: string, circuit: string, actionAnchorId: string, merkleRoot: string, treeSize: int)

  function Domain(p: Payload): string
  {
    match p
    case CallV2(_, _, _, _, _, _, _, _, _, _) => "sauron.call.v2"
    case CallV3(_, _, _, _, _, _, _, _, _, _, _, _, _) => "sauron.call.v3"
    case DeploymentLicence(_, _, _, _, _, _) => "sauron.deployment-licence.v1"
    case OwnerMandate(_, _, _, _, _, _) => "sauron.owner-mandate.v1"
    case PartnerRegistration(_, _, _, _, _, _, _, _, _, _) => "sauron.partner-registration.v2"
    case UserAuthChallenge(_, _, _, _, _) => "sauron.user-auth-challenge.v1"
    case AuditHeadLeaf(_, _, _) => "sauron.audit-head-leaf.v1"
    case ReceiptLeaf(_) => "sauron.action-anchor-leaf.v2"
    case ZkCheckpoint(_, _, _, _, _) => "sauron.zk-checkpoint.v2"
  }

  function Fields(p: Payload): seq<Field>
  {
    match p
    case CallV2(agentId, tenantId, audience, httpMethod, targetUri, contentType, body, config, ts, nonce) =>
      [("version", "2"), ("agent_id", agentId), ("tenant_id", tenantId), ("audience", audience),
       ("method", httpMethod), ("target_uri", targetUri), ("content_type", contentType),
       ("body_sha256", body), ("config_digest", config), ("timestamp_ms", ts), ("nonce", nonce)]
    case CallV3(agentId, tenantId, audience, httpMethod, targetUri, contentType, body, config, mandate, runId, ts, exp, nonce) =>
      [("version", "3"), ("agent_id", agentId), ("tenant_id", tenantId), ("audience", audience),
       ("method", httpMethod), ("target_uri", targetUri), ("content_type", contentType),
       ("body_sha256", body), ("config_digest", config), ("mandate_digest", mandate), ("run_id", runId),
       ("timestamp_ms", ts), ("expires_at_ms", exp), ("nonce", nonce)]
    case DeploymentLicence(licenceId, licensee, tenantId, maxAgents, issued, expires) =>
      [("licence_id", licenceId), ("licensee", licensee), ("tenant_id", tenantId), ("max_agents", maxAgents),
       ("issued_at_ms", issued), ("expires_at_ms", expires)]
    case OwnerMandate(tenantId, human, agentKey, popKey, intent, ttl) =>
      [("tenant_id", tenantId), ("human_key_image", human), ("agent_public_key_hex", agentKey),
       ("pop_public_key_b64u", popKey), ("intent_json", intent), ("ttl_secs", ttl)]
    case PartnerRegistration(tenantId, publicKey, keyImage, first, last, email, birth, nationality, commitment, authKey) =>
      [("tenant_id", tenantId), ("public_key_hex", publicKey), ("key_image_hex", keyImage),
       ("first_name", first), ("last_name", last), ("email", email), ("date_of_birth", birth),
       ("nationality", nationality), ("commitment", commitment), ("auth_public_key_b64u", authKey)]
    case UserAuthChallenge(challengeId, tenantId, keyImage, nonce, expiresAt) =>
      [("challenge_id", challengeId), ("tenant_id", tenantId), ("key_image_hex", keyImage),
       ("nonce", nonce), ("expires_at", Decimal(expiresAt))]
    case AuditHeadLeaf(tenantId, auditSeq, entryHash) =>
      [("tenant_id", tenantId), ("audit_seq", Decimal(auditSeq)), ("audit_entry_hash", entryHash)]
    case ReceiptLeaf(r) =>
      [("tenant_id", r.tenantId), ("receipt_id", r.receiptId), ("action_hash", r.actionHash),
       ("agent_id", r.agentId), ("ring_key_image_hex", r.ringKeyImageHex),
       ("policy_version", r.policyVersion), ("ajwt_jti", r.ajwtJti), ("pop_jkt", r.popJkt),
       ("status", r.status), ("signature", r.signature), ("created_at", Decimal(r.createdAt)),
       ("ring_id", r.ringId), ("config_digest", r.configDigest)]
    case ZkCheckpoint(tenantId, circuit, anchorId, root, size) =>
      [("tenant_id", tenantId), ("circuit", circuit), ("action_anchor_id", anchorId),
       ("merkle_root", root), ("tree_size", Decimal(size))]
  }

  /** The integers among the fields are 64-bit. */
  predicate NumbersFit(p: Payload)
  {
    match p
    case UserAuthChallenge(_, _, _, _, expiresAt) => IsI64(expiresAt)
    case AuditHeadLeaf(_, auditSeq, _) => IsI64(auditSeq)
    case ReceiptLeaf(r) => IsI64(r.createdAt)
    case ZkCheckpoint(_, _, _, _, size) => IsI64(size)
    case _ => true
  }

  /** Everything framed is shorter than 2^32 bytes: what the encoder insists on. */
  ghost predicate InRange(p: Payload)
  {
    NumbersFit(p) && Encodable(Domain(p), Fields(p))
  }

  ghost function Bytes(p: Payload): seq<Byte>
    requires InRange(p)
  {
    Encoding(Domain(p), Fields(p))
  }

  /** The payload builders: each is one call of the encoder with its own domain and fields. */
  method Build(p: Payload) returns (out: seq<Byte>)
    requires InRange(p)
    ensures out == Bytes(p)
    ensures Unframe(out) == Some(ItemBytes(Items(Domain(p), Fields(p))))
  {
    out := Encode(Domain(p), Fields(p));
    ItemsFit(Domain(p), Fields(p));
    UnframeOfFrames(ItemBytes(Items(Domain(p), Fields(p))));
  }

  lemma DomainsDiffer(p: Payload, q: Payload)
    requires Domain(p) == Domain(q)
    ensures (p.CallV2? <==> q.CallV2?) && (p.CallV3? <==> q.CallV3?)
    ensures (p.DeploymentLicence? <==> q.DeploymentLicence?) && (p.OwnerMandate? <==> q.OwnerMandate?)
    ensures (p.PartnerRegistration? <==> q.PartnerRegistration?) && (p.UserAuthChallenge? <==> q.UserAuthChallenge?)
    ensures (p.AuditHeadLeaf? <==> q.AuditHeadLeaf?) && (p.ReceiptLeaf? <==> q.ReceiptLeaf?)
    ensures p.ZkCheckpoint? <==> q.ZkCheckpoint?
  {
  }

  /** No two statements share their bytes: payloads of different kinds never coincide, and
      within a kind every field is determined. In particular an audit-head leaf is never a
      receipt leaf. */
  lemma PayloadInjective(p: Payload, q: Payload)
    requires InRange(p) && InRange(q) && Bytes(p) == Bytes(q)
    ensures p == q
  {
    EncodingInjective(Domain(p), Fields(p), Domain(q), Fields(q));
    DomainsDiffer(p, q);
    SameFields(p, q);
  }

  lemma SameFields(p: Payload, q: Payload)
    requires NumbersFit(p) && NumbersFit(q)
    requires Domain(p) == Domain(q) && Fields(p) == Fields(q)
    ensures p == q
  {
    DomainsDiffer(p, q);
    var f, g := Fields(p), Fields(q);
    assert forall i :: 0 <= i < |f| ==> f[i].1 == g[i].1;
    if Numbered(p) {
      SameNumbered(p, q);
    }
  }

  /** The kinds that print an integer. */
  predicate Numbered(p: Payload)
  {
    p.UserAuthChallenge? || p.AuditHeadLeaf? || p.ReceiptLeaf? || p.ZkCheckpoint?
  }

  lemma SameNumbered(p: Payload, q: Payload)
    requires Numbered(p) && NumbersFit(p) && NumbersFit(q)
    requires Domain(p) == Domain(q) && Fields(p) == Fields(q)
    ensures p == q
  {
    DomainsDiffer(p, q);
    var f, g := Fields(p), Fields(q);
    assert forall i :: 0 <= i < |f| ==> f[i].1 == g[i].1;
    match p {
      case UserAuthChallenge(_, _, _, _, _) => DecimalInjective(p.expiresAt, q.expiresAt);
      case AuditHeadLeaf(_, _, _) => DecimalInjective(p.auditSeq, q.auditSeq);
      case ReceiptLeaf(r) => DecimalInjective(r.createdAt, q.receipt.createdAt);
      case ZkCheckpoint(_, _, _, _, _) => DecimalInjective(p.treeSize, q.treeSize);
    }
  }
}
