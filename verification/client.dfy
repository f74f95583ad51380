/** The receiving and sending client. Account and session are pickles; the Olm library is a
    record of arbitrary functions. */
module Client {
  import opened Bytes
  import opened LabErrors
  import opened Capability

  const PAYLOAD_VERSION := 1
  const CONTACT_BUNDLE_MAX_VALIDITY_SECONDS: U64 := 300

  type ConversationId = b: Blob | |b| == 16 witness seq(16, _ => 0)
  type Pickle = Blob

  datatype PlainMessage = PlainMessage(
    version: int, conversationId: ConversationId, messageId: MessageId, sentAt: U64, body: string)

  datatype OpenedMessage = OpenedMessage(message: PlainMessage, envelope: VerifiedEnvelope)

  datatype OlmMessage = PreKey(bytes: Blob) | Normal(bytes: Blob)
  datatype Inbound = Inbound(account: Pickle, session: Pickle, plaintext: Blob)
  datatype Decrypted = Decrypted(session: Pickle, plaintext: Blob)

  /** The Olm library and the JSON codec. Operations that take `&mut` return the new pickle. */
  datatype Olm = Olm(
    parsePacket: Blob -> Option<OlmMessage>,
    createInbound: (Pickle, PublicKey, Blob) -> Option<Inbound>,
    createOutbound: (Pickle, PublicKey, PublicKey) -> Option<Pickle>,
    decrypt: (Pickle, OlmMessage) -> Option<Decrypted>,
    encrypt: (Pickle, Blob) -> (Pickle, Option<OlmMessage>),
    encodePacket: OlmMessage -> Option<Blob>,
    generateOneTimeKey: Pickle -> Pickle,
    oneTimeKey: Pickle -> Option<PublicKey>,
    markPublished: Pickle -> Pickle,
    signingKey: Pickle -> PublicKey,
    curveKey: Pickle -> PublicKey,
    sign: (Pickle, Blob) -> Signature,
    parsePlain: Blob -> Option<PlainMessage>,
    encodePlain: PlainMessage -> Option<Blob>)

  // ---- Contact bundles ----

  datatype PeerPreKey = PeerPreKey(
    signingIdentity: PublicKey, curveIdentity: PublicKey, oneTimeKey: PublicKey, validUntil: U64,
    signature: Signature)

  datatype VerifiedPeerPreKey = VerifiedPeerPreKey(
    signingIdentity: PublicKey, curveIdentity: PublicKey, oneTimeKey: PublicKey, validUntil: U64)

  /** `PeerPreKey::verify`; every failure is `PeerVerificationFailed`. */
  function VerifyBundle(c: Crypto, bundle: PeerPreKey, pinned: PublicKey, now: U64)
    : Result<VerifiedPeerPreKey>
  {
    if bundle.signingIdentity != pinned || bundle.validUntil <= now
       || bundle.validUntil > SaturatingAdd(now, CONTACT_BUNDLE_MAX_VALIDITY_SECONDS)
    then Err(PeerVerificationFailed)
    else if !c.attests(pinned,
                       PeerPreKeyStatement(bundle.signingIdentity, bundle.curveIdentity,
                                           bundle.oneTimeKey, bundle.validUntil),
                       bundle.signature)
    then Err(PeerVerificationFailed)
    else Ok(VerifiedPeerPreKey(bundle.signingIdentity, bundle.curveIdentity, bundle.oneTimeKey,
                               bundle.validUntil))
  }

  /** A verified bundle is one that the pinned identity itself signed as a contact bundle: a
      signature made for any other purpose, or over any other field, is not accepted. `signed`
      are the statements whose bytes the pinned key has signed. */
  lemma VerifiedBundleWasSigned(p: Primitives, bundle: PeerPreKey, pinned: PublicKey, now: U64, signed: set<Statement>)
    requires VerifyBundle(Over(p), bundle, pinned, now).Ok?
    requires OnlySigned(p, pinned, bundle.signature, signed)
    ensures var v := VerifyBundle(Over(p), bundle, pinned, now).value;
            && PeerPreKeyStatement(pinned, v.curveIdentity, v.oneTimeKey, v.validUntil) in signed
            && v.signingIdentity == pinned
            && now < v.validUntil <= now + CONTACT_BUNDLE_MAX_VALIDITY_SECONDS
  {
    AttestedWasSigned(p, pinned,
                      PeerPreKeyStatement(pinned, bundle.curveIdentity, bundle.oneTimeKey, bundle.validUntil),
                      bundle.signature, signed);
  }

  // ---- Calls on a client, as functions of its state ----

  datatype State = State(
    account: Pickle, session: Option<Pickle>, conversationId: ConversationId,
    displayed: set<MessageId>)

  datatype Call =
    | StartOutbound(peer: VerifiedPeerPreKey, now: U64)
    | OpenInitial(envelope: VerifiedEnvelope, sender: VerifiedPeerPreKey, now: U64)
    | Open(envelope: VerifiedEnvelope, now: U64)
    | Seal(messageId: MessageId, body: string, sentAt: U64)
    | PrekeyBundle(validUntil: U64)

  datatype Outcome =
    | CallFailed(error: LabError)
    | Started
    | Opened(result: OpenedMessage)
    | Sealed(packet: Blob)
    | Bundled(bundle: PeerPreKey)

  function ValidatePlaintext(olm: Olm, s: State, plaintext: Blob, outer: MessageId)
    : Result<PlainMessage>
  {
    match olm.parsePlain(plaintext)
    case None => Err(InvalidPayload)
    case Some(message) =>
      if message.version != PAYLOAD_VERSION then Err(InvalidPayload)
      else if message.conversationId != s.conversationId then Err(WrongConversation)
      else if message.messageId != outer then Err(MessageIdMismatch)
      else if message.messageId in s.displayed then Err(DuplicateMessage)
      else Ok(message)
  }

  function Start(olm: Olm, s: State, peer: VerifiedPeerPreKey, now: U64): (State, Outcome) {
    if s.session.Some? then (s, CallFailed(SessionAlreadyExists))
    else if peer.validUntil <= now then (s, CallFailed(PeerVerificationFailed))
    else
      match olm.createOutbound(s.account, peer.curveIdentity, peer.oneTimeKey)
      case None => (s, CallFailed(CryptoFailed))
      case Some(session) => (s.(session := Some(session)), Started)
  }

  function OpenFirst(olm: Olm, s: State, envelope: VerifiedEnvelope, sender: VerifiedPeerPreKey, now: U64)
    : (State, Outcome)
  {
    if s.session.Some? then (s, CallFailed(SessionAlreadyExists))
    else if envelope.expiresAt <= now then (s, CallFailed(Unauthorized))
    else
      match olm.parsePacket(envelope.packet)
      case None => (s, CallFailed(Encoding))
      case Some(Normal(_)) => (s, CallFailed(ExpectedPreKey))
      case Some(PreKey(preKey)) =>
        match olm.createInbound(s.account, sender.curveIdentity, preKey)
        case None => (s, CallFailed(CryptoFailed))
        case Some(inbound) =>
          match ValidatePlaintext(olm, s, inbound.plaintext, envelope.messageId)
          case Err(e) => (s, CallFailed(e))
          case Ok(message) =>
            (State(inbound.account, Some(inbound.session), s.conversationId,
                   s.displayed + {message.messageId}),
             Opened(OpenedMessage(message, envelope)))
  }

  function OpenNext(olm: Olm, s: State, envelope: VerifiedEnvelope, now: U64): (State, Outcome) {
    if envelope.expiresAt <= now then (s, CallFailed(Unauthorized))
    else
      match olm.parsePacket(envelope.packet)
      case None => (s, CallFailed(Encoding))
      case Some(olmMessage) =>
        if s.session.None? then (s, CallFailed(MissingSession))
        else
          match olm.decrypt(s.session.value, olmMessage)
          case None => (s, CallFailed(CryptoFailed))
          case Some(decrypted) =>
            match ValidatePlaintext(olm, s, decrypted.plaintext, envelope.messageId)
            case Err(e) => (s, CallFailed(e))
            case Ok(message) =>
              (s.(session := Some(decrypted.session), displayed := s.displayed + {message.messageId}),
               Opened(OpenedMessage(message, envelope)))
  }

  /** A failing `seal` may already have advanced the sending ratchet. */
  function SealBody(olm: Olm, s: State, id: MessageId, body: string, sentAt: U64): (State, Outcome) {
    match olm.encodePlain(PlainMessage(PAYLOAD_VERSION, s.conversationId, id, sentAt, body))
    case None => (s, CallFailed(Encoding))
    case Some(encoded) =>
      if s.session.None? then (s, CallFailed(MissingSession))
      else
        var (session, encrypted) := olm.encrypt(s.session.value, encoded);
        (s.(session := Some(session)),
         if encrypted.None? then CallFailed(CryptoFailed)
         else if olm.encodePacket(encrypted.value).None? then CallFailed(Encoding)
         else Sealed(olm.encodePacket(encrypted.value).value))
  }

  /** `prekey_bundle`; when it fails, the account has already generated a key. */
  function Bundle(olm: Olm, s: State, validUntil: U64): (State, Outcome) {
    var account := olm.generateOneTimeKey(s.account);
    match olm.oneTimeKey(account)
    case None => (s.(account := account), CallFailed(CryptoFailed))
    case Some(key) =>
      var signing, curve := olm.signingKey(account), olm.curveKey(account);
      var signature := olm.sign(account, SigningBytes(PeerPreKeyStatement(signing, curve, key, validUntil)));
      (s.(account := olm.markPublished(account)), Bundled(PeerPreKey(signing, curve, key, validUntil, signature)))
  }

  function Apply(olm: Olm, s: State, call: Call): (State, Outcome) {
    match call
    case StartOutbound(peer, now) => Start(olm, s, peer, now)
    case OpenInitial(envelope, sender, now) => OpenFirst(olm, s, envelope, sender, now)
    case Open(envelope, now) => OpenNext(olm, s, envelope, now)
    case Seal(id, body, sentAt) => SealBody(olm, s, id, body, sentAt)
    case PrekeyBundle(until) => Bundle(olm, s, until)
  }

  // ---- The client object ----

  class OlmClient {
    var account: Pickle
    var session: Option<Pickle>
    const conversationId: ConversationId
    var displayedMessages: set<MessageId>

    function View(): State
      reads this
    {
      State(account, session, conversationId, displayedMessages)
    }

    constructor (account: Pickle, conversationId: ConversationId)
      ensures View() == State(account, None, conversationId, {})
    {
      this.account, this.conversationId := account, conversationId;
      session, displayedMessages := None, {};
    }

    method StartOutboundSession(olm: Olm, peer: VerifiedPeerPreKey, now: U64) returns (failure: Option<LabError>)
      modifies this
      ensures failure.Some? ==> View() == old(View())
      ensures (View(), if failure.Some? then CallFailed(failure.value) else Started)
              == Apply(olm, old(View()), StartOutbound(peer, now))
    {
      if session.Some? {
        return Some(SessionAlreadyExists);
      }
      if peer.validUntil <= now {
        return Some(PeerVerificationFailed);
      }
      var created := olm.createOutbound(account, peer.curveIdentity, peer.oneTimeKey);
      if created.None? {
        return Some(CryptoFailed);
      }
      session := created;
      return None;
    }

    method Validate(olm: Olm, plaintext: Blob, outer: MessageId) returns (r: Result<PlainMessage>)
      ensures r == ValidatePlaintext(olm, View(), plaintext, outer)
    {
      var parsed := olm.parsePlain(plaintext);
      if parsed.None? || parsed.value.version != PAYLOAD_VERSION {
        return Err(InvalidPayload);
      }
      var message := parsed.value;
      if message.conversationId != conversationId {
        return Err(WrongConversation);
      }
      if message.messageId != outer {
        return Err(MessageIdMismatch);
      }
      if message.messageId in displayedMessages {
        return Err(DuplicateMessage);
      }
      return Ok(message);
    }

    /** Account, session and displayed set are staged: they change together, and only after the
        last check. */
    method OpenInitialMessage(olm: Olm, envelope: VerifiedEnvelope, sender: VerifiedPeerPreKey, now: U64)
      returns (r: Result<OpenedMessage>)
      modifies this
      ensures r.Err? ==> View() == old(View())
      ensures (View(), match r case Ok(o) => Opened(o) case Err(e) => CallFailed(e))
              == Apply(olm, old(View()), OpenInitial(envelope, sender, now))
    {
      if session.Some? {
        return Err(SessionAlreadyExists);
      }
      if envelope.expiresAt <= now {
        return Err(Unauthorized);
      }
      var olmMessage := olm.parsePacket(envelope.packet);
      if olmMessage.None? {
        return Err(Encoding);
      }
      if !olmMessage.value.PreKey? {
        return Err(ExpectedPreKey);
      }
      var inbound := olm.createInbound(account, sender.curveIdentity, olmMessage.value.bytes);
      if inbound.None? {
        return Err(CryptoFailed);
      }
      var plaintext := Validate(olm, inbound.value.plaintext, envelope.messageId);
      if plaintext.Err? {
        return Err(plaintext.error);
      }
      account := inbound.value.account;
      session := Some(inbound.value.session);
      displayedMessages := displayedMessages + {plaintext.value.messageId};
      return Ok(OpenedMessage(plaintext.value, envelope));
    }

    method SealMessage(olm: Olm, id: MessageId, body: string, sentAt: U64) returns (r: Result<Blob>)
      modifies this
      ensures (View(), match r case Ok(packet) => Sealed(packet) case Err(e) => CallFailed(e))
              == Apply(olm, old(View()), Seal(id, body, sentAt))
      ensures account == old(account) && displayedMessages == old(displayedMessages)
    {
      var encoded := olm.encodePlain(PlainMessage(PAYLOAD_VERSION, conversationId, id, sentAt, body));
      if encoded.None? {
        return Err(Encoding);
      }
      if session.None? {
        return Err(MissingSession);
      }
      var (ratchet, encrypted) := olm.encrypt(session.value, encoded.value);
      session := Some(ratchet);
      if encrypted.None? {
        return Err(CryptoFailed);
      }
      var packet := olm.encodePacket(encrypted.value);
      if packet.None? {
        return Err(Encoding);
      }
      return Ok(packet.value);
    }

    method MakeBundle(olm: Olm, validUntil: U64) returns (r: Result<PeerPreKey>)
      modifies this
      ensures (View(), match r case Ok(bundle) => Bundled(bundle) case Err(e) => CallFailed(e))
              == Apply(olm, old(View()), PrekeyBundle(validUntil))
      ensures session == old(session) && displayedMessages == old(displayedMessages)
    {
      account := olm.generateOneTimeKey(account);
      var key := olm.oneTimeKey(account);
      if key.None? {
        return Err(CryptoFailed);
      }
      var signing, curve := olm.signingKey(account), olm.curveKey(account);
      var message := Canonical(Ascii("peer-prekey"), [signing, curve, key.value, BigEndian(validUntil, 8)]);
      var signature := olm.sign(account, message);
      account := olm.markPublished(account);
      return Ok(PeerPreKey(signing, curve, key.value, validUntil, signature));
    }

    method OpenMessage(olm: Olm, envelope: VerifiedEnvelope, now: U64) returns (r: Result<OpenedMessage>)
      modifies this
      ensures r.Err? ==> View() == old(View())
      ensures (View(), match r case Ok(o) => Opened(o) case Err(e) => CallFailed(e))
              == Apply(olm, old(View()), Open(envelope, now))
    {
      if envelope.expiresAt <= now {
        return Err(Unauthorized);
      }
      var olmMessage := olm.parsePacket(envelope.packet);
      if olmMessage.None? {
        return Err(Encoding);
      }
      if session.None? {
        return Err(MissingSession);
      }
      var decrypted := olm.decrypt(session.value, olmMessage.value);
      if decrypted.None? {
        return Err(CryptoFailed);
      }
      var message := Validate(olm, decrypted.value.plaintext, envelope.messageId);
      if message.Err? {
        return Err(message.error);
      }
      session := Some(decrypted.value.session);
      displayedMessages := displayedMessages + {message.value.messageId};
      return Ok(OpenedMessage(message.value, envelope));
    }
  }

  // ---- Any sequence of calls ----

  ghost function After(olm: Olm, s: State, calls: seq<Call>, n: nat): State
    requires n <= |calls|
  {
    if n == 0 then s else Apply(olm, After(olm, s, calls, n - 1), calls[n - 1]).0
  }

  ghost function OutcomeAt(olm: Olm, s: State, calls: seq<Call>, n: nat): Outcome
    requires n < |calls|
  {
    Apply(olm, After(olm, s, calls, n), calls[n]).1
  }

  lemma {:induction false} DisplayedGrows(olm: Olm, s: State, calls: seq<Call>, i: nat, j: nat)
    requires i <= j <= |calls|
    ensures After(olm, s, calls, i).displayed <= After(olm, s, calls, j).displayed
    ensures After(olm, s, calls, i).session.Some? ==> After(olm, s, calls, j).session.Some?
  {
    if i == j {
    } else {
      DisplayedGrows(olm, s, calls, i, j - 1);
    }
  }

  /** The plaintext that Olm makes of an envelope's packet, for a first message or on the session,
      with the account and the session that go with it. */
  ghost function Decoded(olm: Olm, s: State, call: Call): Option<Inbound>
    requires call.Open? || call.OpenInitial?
  {
    match olm.parsePacket(call.envelope.packet)
    case None => None
    case Some(packet) =>
      if call.OpenInitial? then
        if packet.PreKey? then olm.createInbound(s.account, call.sender.curveIdentity, packet.bytes) else None
      else if s.session.None? then None
      else
        match olm.decrypt(s.session.value, packet)
        case None => None
        case Some(d) => Some(Inbound(s.account, d.session, d.plaintext))
  }

  /** The message is one for this client: version 1, of its conversation, under the envelope's own
      message id, and not displayed before. */
  ghost predicate Acceptable(s: State, envelope: VerifiedEnvelope, m: PlainMessage) {
    && m.version == 1 && m.conversationId == s.conversationId
    && m.messageId == envelope.messageId && m.messageId !in s.displayed
  }

  /** A message is opened exactly when the envelope is in time, a first message finds no session,
      and Olm and the codec yield an acceptable message from the envelope's own packet. That
      message is the result, and account, session and displayed set move on together. */
  lemma OpensExactly(olm: Olm, s: State, call: Call)
    requires call.Open? || call.OpenInitial?
    ensures Apply(olm, s, call).1.Opened? <==>
            && call.now < call.envelope.expiresAt
            && (call.OpenInitial? ==> s.session.None?)
            && Decoded(olm, s, call).Some?
            && var parsed := olm.parsePlain(Decoded(olm, s, call).value.plaintext);
               parsed.Some? && Acceptable(s, call.envelope, parsed.value)
    ensures Apply(olm, s, call).1.Opened? ==>
            var inbound := Decoded(olm, s, call).value;
            var message := olm.parsePlain(inbound.plaintext).value;
            && Apply(olm, s, call).1.result == OpenedMessage(message, call.envelope)
            && Apply(olm, s, call).0 == State(inbound.account, Some(inbound.session), s.conversationId,
                                              s.displayed + {message.messageId})
    ensures !Apply(olm, s, call).1.Opened? ==> Apply(olm, s, call).0 == s
  {
  }

  /** What a decoded message is refused for: the first of its bindings that fails. */
  lemma RefusedForItsBinding(olm: Olm, s: State, call: Call)
    requires call.Open? || call.OpenInitial?
    requires call.now < call.envelope.expiresAt && (call.OpenInitial? ==> s.session.None?)
    requires Decoded(olm, s, call).Some?
    ensures var parsed, outcome := olm.parsePlain(Decoded(olm, s, call).value.plaintext), Apply(olm, s, call).1;
            && (parsed.None? || parsed.value.version != 1 ==> outcome == CallFailed(InvalidPayload))
            && (parsed.Some? && parsed.value.version == 1 && !Acceptable(s, call.envelope, parsed.value) ==>
                  outcome == CallFailed(
                    if parsed.value.conversationId != s.conversationId then WrongConversation
                    else if parsed.value.messageId != call.envelope.messageId then MessageIdMismatch
                    else DuplicateMessage))
  {
  }

  /** Why a message was not even decoded. */
  lemma RefusedUndecoded(olm: Olm, s: State, call: Call)
    requires call.Open? || call.OpenInitial?
    requires || (call.OpenInitial? && s.session.Some?)
             || call.envelope.expiresAt <= call.now
             || Decoded(olm, s, call).None?
    ensures var packet := olm.parsePacket(call.envelope.packet);
            Apply(olm, s, call).1 == CallFailed(
              if call.OpenInitial? && s.session.Some? then SessionAlreadyExists
              else if call.envelope.expiresAt <= call.now then Unauthorized
              else if packet.None? then Encoding
              else if call.OpenInitial? && packet.value.Normal? then ExpectedPreKey
              else if call.Open? && s.session.None? then MissingSession
              else CryptoFailed)
  {
  }

  /** What a successful open says of any call. */
  lemma OpenedMeans(olm: Olm, s: State, call: Call)
    requires Apply(olm, s, call).1.Opened?
    ensures call.Open? || call.OpenInitial?
    ensures var result, next := Apply(olm, s, call).1.result, Apply(olm, s, call).0;
            && result.envelope == call.envelope
            && call.now < call.envelope.expiresAt
            && Acceptable(s, call.envelope, result.message)
            && Decoded(olm, s, call).Some?
            && olm.parsePlain(Decoded(olm, s, call).value.plaintext) == Some(result.message)
            && result.message.messageId in next.displayed
            && next.session.Some?
  {
    OpensExactly(olm, s, call);
  }

  lemma {:induction false} ConversationKept(olm: Olm, s: State, calls: seq<Call>, n: nat)
    requires n <= |calls|
    ensures After(olm, s, calls, n).conversationId == s.conversationId
  {
    if n == 0 {
    } else {
      ConversationKept(olm, s, calls, n - 1);
    }
  }

  /** Whatever a client opens, over any sequence of calls, is a version 1 message of the one
      conversation it was made for. */
  lemma OnlyOwnConversationOpens(olm: Olm, s: State, calls: seq<Call>, n: nat)
    requires n < |calls| && OutcomeAt(olm, s, calls, n).Opened?
    ensures OutcomeAt(olm, s, calls, n).result.message.conversationId == s.conversationId
    ensures OutcomeAt(olm, s, calls, n).result.message.version == 1
  {
    ConversationKept(olm, s, calls, n);
    OpenedMeans(olm, After(olm, s, calls, n), calls[n]);
  }

  /** However calls are interleaved, no message id is opened twice. */
  lemma OpenedAtMostOnce(olm: Olm, s: State, calls: seq<Call>, i: nat, j: nat)
    requires i < j < |calls|
    requires OutcomeAt(olm, s, calls, i).Opened? && OutcomeAt(olm, s, calls, j).Opened?
    ensures OutcomeAt(olm, s, calls, i).result.message.messageId
            != OutcomeAt(olm, s, calls, j).result.message.messageId
  {
    OpenedMeans(olm, After(olm, s, calls, i), calls[i]);
    OpenedMeans(olm, After(olm, s, calls, j), calls[j]);
    DisplayedGrows(olm, s, calls, i + 1, j);
  }

  /** The call gave the client its session. */
  ghost predicate Establishes(call: Call, outcome: Outcome) {
    outcome.Started? || (call.OpenInitial? && outcome.Opened?)
  }

  /** A session is established at most once and never lost. */
  lemma {:induction false} SessionEstablishedAtMostOnce(olm: Olm, s: State, calls: seq<Call>, i: nat, j: nat)
    requires i < j < |calls|
    requires Establishes(calls[i], OutcomeAt(olm, s, calls, i))
    ensures !Establishes(calls[j], OutcomeAt(olm, s, calls, j))
    ensures After(olm, s, calls, j).session.Some?
  {
    DisplayedGrows(olm, s, calls, i + 1, j);
  }

  // ---- Round trips ----

  /** A session starts exactly when there is none, the bundle is in time, and Olm accepts the
      bundle's identity key and one-time key, in those roles. */
  lemma StartsExactly(olm: Olm, s: State, peer: VerifiedPeerPreKey, now: U64)
    ensures var session := olm.createOutbound(s.account, peer.curveIdentity, peer.oneTimeKey);
            Apply(olm, s, StartOutbound(peer, now)) ==
            if s.session.Some? then (s, CallFailed(SessionAlreadyExists))
            else if peer.validUntil <= now then (s, CallFailed(PeerVerificationFailed))
            else if session.None? then (s, CallFailed(CryptoFailed))
            else (State(s.account, session, s.conversationId, s.displayed), Started)
  {
  }

  /** A session is only ever started with keys that the pinned identity signed together as a
      contact bundle still in its window. */
  lemma SessionKeysWereSigned(p: Primitives, olm: Olm, s: State, bundle: PeerPreKey, pinned: PublicKey,
                              checkedAt: U64, now: U64, signed: set<Statement>)
    requires VerifyBundle(Over(p), bundle, pinned, checkedAt).Ok?
    requires OnlySigned(p, pinned, bundle.signature, signed)
    requires Apply(olm, s, StartOutbound(VerifyBundle(Over(p), bundle, pinned, checkedAt).value, now)).1.Started?
    ensures exists curve, oneTime, until ::
              && PeerPreKeyStatement(pinned, curve, oneTime, until) in signed && now < until
              && Apply(olm, s, StartOutbound(VerifyBundle(Over(p), bundle, pinned, checkedAt).value, now)).0.session
                 == olm.createOutbound(s.account, curve, oneTime)
  {
    VerifiedBundleWasSigned(p, bundle, pinned, checkedAt, signed);
    StartsExactly(olm, s, VerifyBundle(Over(p), bundle, pinned, checkedAt).value, now);
  }

  /** A bundle verifies exactly when it names the pinned identity, is in its window of 300 seconds
      and carries that identity's signature over all its fields. */
  lemma BundleVerifiesExactly(c: Crypto, b: PeerPreKey, pinned: PublicKey, now: U64)
    ensures VerifyBundle(c, b, pinned, now) ==
            if b.signingIdentity == pinned && now < b.validUntil <= now + 300
               && c.attests(pinned, PeerPreKeyStatement(pinned, b.curveIdentity, b.oneTimeKey, b.validUntil),
                            b.signature)
            then Ok(VerifiedPeerPreKey(pinned, b.curveIdentity, b.oneTimeKey, b.validUntil))
            else Err(PeerVerificationFailed)
  {
  }

  /** The bundle a client hands out passes the check of anyone who pinned its identity, exactly
      while it is in its window, and yields the one-time key just generated. */
  lemma BundleRoundTrip(p: Primitives, olm: Olm, s: State, validUntil: U64, now: U64)
    requires forall a: Pickle, m: Blob :: p.verify(olm.signingKey(a), m, olm.sign(a, m))
    requires Apply(olm, s, PrekeyBundle(validUntil)).1.Bundled?
    ensures var account := olm.generateOneTimeKey(s.account);
            var bundle := Apply(olm, s, PrekeyBundle(validUntil)).1.bundle;
            && VerifyBundle(Over(p), bundle, olm.signingKey(account), now) ==
               (if now < validUntil <= now + 300
                then Ok(VerifiedPeerPreKey(olm.signingKey(account), olm.curveKey(account),
                                           olm.oneTimeKey(account).value, validUntil))
                else Err(PeerVerificationFailed))
            && Apply(olm, s, PrekeyBundle(validUntil)).0 == s.(account := olm.markPublished(account))
  {
    var account := olm.generateOneTimeKey(s.account);
    var bundle := Apply(olm, s, PrekeyBundle(validUntil)).1.bundle;
    BundleVerifiesExactly(Over(p), bundle, olm.signingKey(account), now);
  }

  /** The codecs undo themselves. */
  ghost predicate Faithful(olm: Olm) {
    && (forall m: PlainMessage :: olm.encodePlain(m).Some? ==> olm.parsePlain(olm.encodePlain(m).value) == Some(m))
    && (forall m: OlmMessage :: olm.encodePacket(m).Some? ==> olm.parsePacket(olm.encodePacket(m).value) == Some(m))
  }

  /** Sealing needs a session and moves it on, even when it fails after encrypting; it touches
      nothing else. */
  lemma SealMovesTheSession(olm: Olm, s: State, id: MessageId, body: string, sentAt: U64)
    ensures var plain := olm.encodePlain(PlainMessage(1, s.conversationId, id, sentAt, body));
            Apply(olm, s, Seal(id, body, sentAt)).0 ==
            if plain.None? || s.session.None? then s
            else s.(session := Some(olm.encrypt(s.session.value, plain.value).0))
    ensures var plain, outcome := olm.encodePlain(PlainMessage(1, s.conversationId, id, sentAt, body)),
                                  Apply(olm, s, Seal(id, body, sentAt)).1;
            if plain.None? then outcome == CallFailed(Encoding)
            else if s.session.None? then outcome == CallFailed(MissingSession)
            else
              var encrypted := olm.encrypt(s.session.value, plain.value).1;
              if encrypted.None? then outcome == CallFailed(CryptoFailed)
              else if olm.encodePacket(encrypted.value).None? then outcome == CallFailed(Encoding)
              else outcome.Sealed?
  {
  }

  /** Making a bundle fails exactly when no one-time key was generated, and then the account has
      changed all the same. */
  lemma BundleFailsExactly(olm: Olm, s: State, validUntil: U64)
    ensures var account := olm.generateOneTimeKey(s.account);
            if olm.oneTimeKey(account).None?
            then Apply(olm, s, PrekeyBundle(validUntil)) == (s.(account := account), CallFailed(CryptoFailed))
            else Apply(olm, s, PrekeyBundle(validUntil)).1.Bundled?
  {
  }

  /** What one client seals the other opens: if the receiver's session decrypts the sender's
      ciphertext, the receiver gets exactly the body, the time and the message id, provided it is
      in the same conversation and has not displayed that id -- and otherwise it does not. */
  lemma OpenUndoesSeal(olm: Olm, sender: State, receiver: State, id: MessageId, body: string, sentAt: U64,
                       queueId: QueueId, expiresAt: U64, now: U64, next: Pickle)
    requires Faithful(olm) && receiver.session.Some? && sender.session.Some? && now < expiresAt
    requires Apply(olm, sender, Seal(id, body, sentAt)).1.Sealed?
    requires var plain := olm.encodePlain(PlainMessage(1, sender.conversationId, id, sentAt, body));
             plain.Some? ==>
               var ciphertext := olm.encrypt(sender.session.value, plain.value).1;
               ciphertext.Some? ==>
                 olm.decrypt(receiver.session.value, ciphertext.value) == Some(Decrypted(next, plain.value))
    ensures var envelope :=
              VerifiedEnvelope(queueId, id, Apply(olm, sender, Seal(id, body, sentAt)).1.packet, expiresAt);
            Apply(olm, receiver, Open(envelope, now)).1 ==
            if receiver.conversationId != sender.conversationId then CallFailed(WrongConversation)
            else if id in receiver.displayed then CallFailed(DuplicateMessage)
            else Opened(OpenedMessage(PlainMessage(1, sender.conversationId, id, sentAt, body), envelope))
  {
  }
}
