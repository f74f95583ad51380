/** Signed relay commands: their canonical bytes, the requests that carry them, and the
    receiver's check of an outer envelope. */
module Capability {
  import opened Bytes
  import opened Framing

  const PROTOCOL_DOMAIN := Ascii("secure-messenger-lab/phase0/v1")

  type QueueId = b: Blob | |b| == 32 witness seq(32, _ => 0)
  type MessageId = b: Blob | |b| == 16 witness seq(16, _ => 0)
  type Nonce = b: Blob | |b| == 16 witness seq(16, _ => 0)
  type Digest = b: Blob | |b| == 32 witness seq(32, _ => 0)
  type PublicKey = b: Blob | |b| == 32 witness seq(32, _ => 0)
  type Signature = b: Blob | |b| == 64 witness seq(64, _ => 0)

  /** The foreign primitives, as arbitrary functions: SHA-256, the point check made when a
      stored key is parsed, and Ed25519 verification of (key, message, signature). */
  datatype Primitives = Primitives(
    digest: Blob -> Digest,
    keyParses: Blob -> bool,
    verify: (Blob, Blob, Blob) -> bool)

  /** The same, with signatures read as attesting statements rather than bytes. */
  datatype Crypto = Crypto(
    digest: Blob -> Digest,
    keyParses: Blob -> bool,
    attests: (Blob, Statement, Blob) -> bool)

  function Over(p: Primitives): Crypto {
    Crypto(p.digest, p.keyParses,
           (key: Blob, s: Statement, signature: Blob) => p.verify(key, SigningBytes(s), signature))
  }

  /** What a signature says. One constructor per action, holding every signed part. */
  datatype Statement =
    | RegisterStatement(queueId: QueueId, sendKey: PublicKey, receiveKey: PublicKey,
                        manageKey: PublicKey, nonce: Nonce, validUntil: U64)
    | SendStatement(queueId: QueueId, messageId: MessageId, packetHash: Digest, expiresAt: U64)
    | FetchStatement(queueId: QueueId, nonce: Nonce, validUntil: U64)
    | AckStatement(queueId: QueueId, messageId: MessageId, packetHash: Digest, validUntil: U64)
    | DeleteStatement(queueId: QueueId, nonce: Nonce, validUntil: U64)
    | PeerPreKeyStatement(signingIdentity: PublicKey, curveIdentity: PublicKey,
                          oneTimeKey: PublicKey, validUntil: U64)

  function Action(s: Statement): Blob {
    match s
    case RegisterStatement(_, _, _, _, _, _) => Ascii("register")
    case SendStatement(_, _, _, _) => Ascii("send")
    case FetchStatement(_, _, _) => Ascii("fetch")
    case AckStatement(_, _, _, _) => Ascii("ack")
    case DeleteStatement(_, _, _) => Ascii("delete-mailbox")
    case PeerPreKeyStatement(_, _, _, _) => Ascii("peer-prekey")
  }

  function Parts(s: Statement): seq<Blob> {
    match s
    case RegisterStatement(q, sk, rk, mk, n, until) => [q, sk, rk, mk, n, BigEndian(until, 8)]
    case SendStatement(q, m, hash, expires) => [q, m, hash, BigEndian(expires, 8)]
    case FetchStatement(q, n, until) => [q, n, BigEndian(until, 8)]
    case AckStatement(q, m, hash, until) => [q, m, hash, BigEndian(until, 8)]
    case DeleteStatement(q, n, until) => [q, n, BigEndian(until, 8)]
    case PeerPreKeyStatement(s, c, k, until) => [s, c, k, BigEndian(until, 8)]
  }

  function CanonicalBytes(action: Blob, parts: seq<Blob>): Blob {
    Frames(8, [PROTOCOL_DOMAIN, action] + parts)
  }

  function SigningBytes(s: Statement): Blob {
    CanonicalBytes(Action(s), Parts(s))
  }

  /** `canonical`: the domain, the action, then each part, every one length-prefixed. */
  method Canonical(action: Blob, parts: seq<Blob>) returns (encoded: Blob)
    ensures encoded == CanonicalBytes(action, parts)
  {
    encoded := [];
    encoded := AppendPart(encoded, PROTOCOL_DOMAIN);
    encoded := AppendPart(encoded, action);
    ghost var all := [PROTOCOL_DOMAIN, action] + parts;
    assert encoded == Frames(8, all[..2]) by {
      assert all[..2] == [PROTOCOL_DOMAIN] + [action];
      FramesAppend(8, [], PROTOCOL_DOMAIN);
      assert [] + [PROTOCOL_DOMAIN] == [PROTOCOL_DOMAIN];
      FramesAppend(8, [PROTOCOL_DOMAIN], action);
    }
    for i := 0 to |parts|
      invariant encoded == Frames(8, all[..i + 2])
    {
      encoded := AppendPart(encoded, parts[i]);
      assert all[..i + 3] == all[..i + 2] + [parts[i]];
      FramesAppend(8, all[..i + 2], parts[i]);
    }
    assert all[..|parts| + 2] == all;
  }

  method AppendPart(target: Blob, part: Blob) returns (extended: Blob)
    ensures extended == target + Frame(8, part)
  {
    PowersOf256();
    var length := if |part| <= U64_MAX then |part| else U64_MAX;
    extended := target + BigEndian(length, 8);
    extended := extended + part;
  }

  /** The decoder: it recovers the action and every part of a canonical encoding. */
  function DecodeCanonical(encoded: Blob): Option<(Blob, seq<Blob>)> {
    match Unframe(8, encoded)
    case None => None
    case Some(all) =>
      if |all| >= 2 && all[0] == PROTOCOL_DOMAIN then Some((all[1], all[2..])) else None
  }

  lemma DecodeUndoesCanonical(action: Blob, parts: seq<Blob>)
    requires Fits(8, [action] + parts)
    ensures DecodeCanonical(CanonicalBytes(action, parts)) == Some((action, parts))
  {
    var all := [PROTOCOL_DOMAIN, action] + parts;
    PowersOf256();
    forall i | 0 <= i < |all| ensures |all[i]| < Pow256(8) {
      if i > 0 { assert all[i] == ([action] + parts)[i - 1]; }
    }
    UnframeUndoesFrames(8, all);
    assert all[2..] == parts;
  }

  /** No byte string is the signing bytes of two statements: neither of two different
      actions, nor of one action with any signed field changed. */
  lemma SigningBytesInjective(a: Statement, b: Statement)
    requires SigningBytes(a) == SigningBytes(b)
    ensures a == b
  {
    StatementDecodes(a);
    StatementDecodes(b);
    assert |Action(a)| == |Action(b)|;
    var x, y := Parts(a), Parts(b);
    assert x[|x| - 1] == y[|x| - 1];
    U64BytesInjective(LastField(a), LastField(b));
    assert x[0] == y[0] && x[1] == y[1] && x[|x| - 2] == y[|x| - 2];
    if a.RegisterStatement? {
      assert x[2] == y[2] && x[3] == y[3];
    }
  }

  function LastField(s: Statement): U64 {
    if s.SendStatement? then s.expiresAt else s.validUntil
  }

  lemma StatementDecodes(s: Statement)
    ensures DecodeCanonical(SigningBytes(s)) == Some((Action(s), Parts(s)))
  {
    PowersOf256();
    DecodeUndoesCanonical(Action(s), Parts(s));
  }

  /** No one forges: a message that verifies under the key with this signature is the signing
      bytes of a statement the key has signed. */
  ghost predicate OnlySigned(p: Primitives, key: Blob, signature: Blob, signed: set<Statement>) {
    forall message: Blob :: p.verify(key, message, signature) ==>
      exists s :: s in signed && SigningBytes(s) == message
  }

  /** A signature that verifies for a statement was made for that very statement: not for another
      action, and not with any other field. */
  lemma AttestedWasSigned(p: Primitives, key: Blob, s: Statement, signature: Blob, signed: set<Statement>)
    requires Over(p).attests(key, s, signature) && OnlySigned(p, key, signature, signed)
    ensures s in signed
  {
    assert p.verify(key, SigningBytes(s), signature);
    var t :| t in signed && SigningBytes(t) == SigningBytes(s);
    SigningBytesInjective(t, s);
  }

  // ---- Requests ----

  datatype MailboxRegistration = MailboxRegistration(
    queueId: QueueId, sendKey: PublicKey, receiveKey: PublicKey, manageKey: PublicKey,
    nonce: Nonce, validUntil: U64, signature: Signature)

  datatype SendRequest = SendRequest(
    queueId: QueueId, messageId: MessageId, packet: Blob, expiresAt: U64, signature: Signature)

  datatype FetchRequest = FetchRequest(
    queueId: QueueId, nonce: Nonce, validUntil: U64, signature: Signature)

  datatype AckRequest = AckRequest(
    queueId: QueueId, messageId: MessageId, packetHash: Digest, validUntil: U64,
    signature: Signature)

  datatype DeleteMailboxRequest = DeleteMailboxRequest(
    queueId: QueueId, nonce: Nonce, validUntil: U64, signature: Signature)

  function RegistrationStatement(r: MailboxRegistration): Statement {
    RegisterStatement(r.queueId, r.sendKey, r.receiveKey, r.manageKey, r.nonce, r.validUntil)
  }

  function SendStatementOf(c: Crypto, r: SendRequest): Statement {
    SendStatement(r.queueId, r.messageId, c.digest(r.packet), r.expiresAt)
  }

  function FetchStatementOf(r: FetchRequest): Statement {
    FetchStatement(r.queueId, r.nonce, r.validUntil)
  }

  function AckStatementOf(r: AckRequest): Statement {
    AckStatement(r.queueId, r.messageId, r.packetHash, r.validUntil)
  }

  function DeleteStatementOf(r: DeleteMailboxRequest): Statement {
    DeleteStatement(r.queueId, r.nonce, r.validUntil)
  }

  // ---- Envelopes and the receive capability ----

  datatype StoredEnvelope = StoredEnvelope(
    queueId: QueueId, messageId: MessageId, packet: Blob, expiresAt: U64,
    senderSignature: Signature)

  datatype VerifiedEnvelope = VerifiedEnvelope(
    queueId: QueueId, messageId: MessageId, packet: Blob, expiresAt: U64)

  /** `signingKey` stands for the receive key pair by its public half. */
  datatype ReceiveCapability = ReceiveCapability(
    queueId: QueueId, signingKey: PublicKey, sendVerificationKey: PublicKey)

  /** `verify_envelope`; every failure is the one error `Unauthorized`. */
  function VerifyEnvelope(c: Crypto, cap: ReceiveCapability, envelope: StoredEnvelope, now: U64)
    : Option<VerifiedEnvelope>
  {
    if envelope.queueId != cap.queueId || envelope.expiresAt <= now then None
    else if !c.attests(cap.sendVerificationKey,
                       SendStatement(envelope.queueId, envelope.messageId,
                                     c.digest(envelope.packet), envelope.expiresAt),
                       envelope.senderSignature) then None
    else Some(VerifiedEnvelope(envelope.queueId, envelope.messageId, envelope.packet,
                               envelope.expiresAt))
  }

  /** An envelope is accepted exactly when it is for this queue, in time, and its sender signature
      verifies over its own fields; and what is handed on is what was checked. */
  lemma EnvelopeVerifiesExactly(c: Crypto, cap: ReceiveCapability, e: StoredEnvelope, now: U64)
    ensures VerifyEnvelope(c, cap, e, now).Some? <==>
            && e.queueId == cap.queueId && now < e.expiresAt
            && c.attests(cap.sendVerificationKey,
                         SendStatement(e.queueId, e.messageId, c.digest(e.packet), e.expiresAt),
                         e.senderSignature)
    ensures VerifyEnvelope(c, cap, e, now).Some? ==>
            VerifyEnvelope(c, cap, e, now).value == VerifiedEnvelope(cap.queueId, e.messageId, e.packet, e.expiresAt)
  {
  }

  /** An accepted envelope was sent: the mailbox's send key signed exactly this queue, message id,
      packet digest and expiry, as a send. */
  lemma VerifiedEnvelopeWasSent(p: Primitives, cap: ReceiveCapability, e: StoredEnvelope, now: U64,
                                signed: set<Statement>)
    requires VerifyEnvelope(Over(p), cap, e, now).Some?
    requires OnlySigned(p, cap.sendVerificationKey, e.senderSignature, signed)
    ensures var v := VerifyEnvelope(Over(p), cap, e, now).value;
            && SendStatement(cap.queueId, v.messageId, p.digest(v.packet), v.expiresAt) in signed
            && now < v.expiresAt
  {
    EnvelopeVerifiesExactly(Over(p), cap, e, now);
    AttestedWasSigned(p, cap.sendVerificationKey,
                      SendStatement(cap.queueId, e.messageId, p.digest(e.packet), e.expiresAt),
                      e.senderSignature, signed);
  }
}
