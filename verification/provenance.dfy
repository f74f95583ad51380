/** End to end: why the relay deleted a ciphertext.

    The world is one relay, any number of clients, and everyone else. Any client may use any
    receive capability and acknowledge what another one opened. Anyone may submit any request to
    the relay at any time. Receive keys sign only through `ReceiveCapability`, that
    is, fetches, and acknowledgements of messages that were opened. */
module Provenance {
  import opened Bytes
  import opened Capability
  import opened Schema
  import opened Commands
  import Client

  datatype World = World(
    db: Tables,
    clients: map<nat, Client.State>,
    received: seq<Client.OpenedMessage>,
    signed: set<(Blob, Statement)>)

  datatype Action =
    | Submit(cmd: Command, now: U64)
    | NewClient(id: nat, account: Client.Pickle, conversationId: Client.ConversationId)
    | ClientCall(id: nat, call: Client.Call)
    /** A client verifies an envelope, then opens it, as a first message or on its session. */
    | Receive(id: nat, cap: ReceiveCapability, envelope: StoredEnvelope, checkedAt: U64,
              sender: Option<Client.VerifiedPeerPreKey>, openedAt: U64)
    /** `SendCapability::authorize`. */
    | SignSend(key: PublicKey, queueId: QueueId, messageId: MessageId, packet: Blob, expiresAt: U64)
    /** `authorize_fetch`. */
    | SignFetch(cap: ReceiveCapability, nonce: Nonce, validUntil: U64)
    /** `authorize_ack`: it signs for the capability's queue, not the envelope's. */
    | SignAck(cap: ReceiveCapability, message: Client.OpenedMessage, validUntil: U64)

  /** The call a receiver makes once the outer envelope has been verified. */
  function OpeningCall(envelope: VerifiedEnvelope, a: Action): Client.Call
    requires a.Receive?
  {
    match a.sender
    case Some(sender) => Client.OpenInitial(envelope, sender, a.openedAt)
    case None => Client.Open(envelope, a.openedAt)
  }

  /** What a receiver's attempt yields: a message, if the envelope verifies and opens. */
  function Reception(p: Primitives, olm: Client.Olm, w: World, a: Action): Option<Client.OpenedMessage>
    requires a.Receive?
  {
    if a.id !in w.clients then None
    else
      match VerifyEnvelope(Over(p), a.cap, a.envelope, a.checkedAt)
      case None => None
      case Some(verified) =>
        var outcome := Client.Apply(olm, w.clients[a.id], OpeningCall(verified, a)).1;
        if outcome.Opened? then Some(outcome.result) else None
  }

  ghost predicate Yields(p: Primitives, olm: Client.Olm, w: World, a: Action, m: Client.OpenedMessage) {
    a.Receive? && Reception(p, olm, w, a) == Some(m)
  }

  function AckStatementFor(p: Primitives, cap: ReceiveCapability, m: Client.OpenedMessage, until: U64): Statement {
    AckStatement(cap.queueId, m.envelope.messageId, p.digest(m.envelope.packet), until)
  }

  function Act(p: Primitives, olm: Client.Olm, w: World, a: Action): World {
    match a
    case Submit(cmd, now) => w.(db := Next(Over(p), w.db, cmd, now))
    case NewClient(id, account, conversation) =>
      if id in w.clients then w
      else w.(clients := w.clients[id := Client.State(account, None, conversation, {})])
    case ClientCall(id, call) =>
      if id !in w.clients then w
      else w.(clients := w.clients[id := Client.Apply(olm, w.clients[id], call).0])
    case Receive(id, cap, envelope, checkedAt, _, _) =>
      if id !in w.clients then w
      else
        (match VerifyEnvelope(Over(p), cap, envelope, checkedAt)
         case None => w
         case Some(verified) =>
           var (client, outcome) := Client.Apply(olm, w.clients[id], OpeningCall(verified, a));
           w.(clients := w.clients[id := client],
              received := if outcome.Opened? then w.received + [outcome.result] else w.received))
    case SignSend(key, q, id, packet, expires) =>
      w.(signed := w.signed + {(key, SendStatement(q, id, p.digest(packet), expires))})
    case SignFetch(cap, nonce, until) =>
      w.(signed := w.signed + {(cap.signingKey, FetchStatement(cap.queueId, nonce, until))})
    case SignAck(cap, m, until) =>
      w.(signed := w.signed + {(cap.signingKey, AckStatementFor(p, cap, m, until))})
  }

  /** Some statement with these signing bytes was signed with the key. */
  ghost predicate WasSigned(w: World, key: Blob, bytes: Blob) {
    exists s: Statement :: (key, s) in w.signed && SigningBytes(s) == bytes
  }

  /** The outer statement that an envelope's signature is checked against. */
  function Outer(p: Primitives, e: StoredEnvelope): Statement {
    SendStatement(e.queueId, e.messageId, p.digest(e.packet), e.expiresAt)
  }

  /** Only opened messages can be acknowledged, by their type; and no one forges a signature of an
      honest key: an acknowledgement or an envelope that verifies carries bytes it signed. */
  ghost predicate Permitted(p: Primitives, honest: set<Blob>, w: World, a: Action) {
    && (a.SignAck? ==> a.message in w.received)
    && (a.Submit? && a.cmd.Acknowledge? ==>
          forall key :: key in honest && p.verify(key, SigningBytes(AckStatementOf(a.cmd.ack)), a.cmd.ack.signature)
                        ==> WasSigned(w, key, SigningBytes(AckStatementOf(a.cmd.ack))))
    && (a.Receive? ==>
          forall key :: key in honest && p.verify(key, SigningBytes(Outer(p, a.envelope)), a.envelope.senderSignature)
                        ==> WasSigned(w, key, SigningBytes(Outer(p, a.envelope))))
  }

  /** Step `n` of a run: a permitted action leads from one world to the next. */
  ghost predicate Linked(p: Primitives, olm: Client.Olm, honest: set<Blob>, ws: seq<World>,
                         actions: seq<Action>, n: nat)
    requires n < |actions| < |ws|
  {
    ws[n + 1] == Act(p, olm, ws[n], actions[n]) && Permitted(p, honest, ws[n], actions[n])
  }

  /** A run of any length, from a world in which nothing has been received or signed. */
  ghost predicate Run(p: Primitives, olm: Client.Olm, honest: set<Blob>, ws: seq<World>, actions: seq<Action>) {
    && |ws| == |actions| + 1
    && ws[0].received == [] && ws[0].signed == {}
    && forall n: nat :: n < |actions| ==> Linked(p, olm, honest, ws, actions, n)
  }

  /** Each message is acknowledged with the capability of the queue it came through. */
  ghost predicate OwnQueue(a: Action) {
    a.SignAck? ==> a.cap.queueId == a.message.envelope.queueId
  }

  ghost predicate OwnQueues(actions: seq<Action>) {
    forall i :: 0 <= i < |actions| ==> OwnQueue(actions[i])
  }

  /** Nothing has been signed but sends, fetches, and acknowledgements of received messages. */
  ghost predicate AcksOnlyReceived(p: Primitives, w: World, own: bool) {
    forall key, s :: (key, s) in w.signed ==>
      s.SendStatement? || s.FetchStatement? || (s.AckStatement? && exists m :: Backs(p, w, s, m, own))
  }

  ghost predicate Backs(p: Primitives, w: World, s: Statement, m: Client.OpenedMessage, own: bool) {
    && s.AckStatement? && m in w.received
    && s.messageId == m.envelope.messageId && s.packetHash == p.digest(m.envelope.packet)
    && (own ==> s.queueId == m.envelope.queueId)
  }

  lemma ReceivedGrows(p: Primitives, olm: Client.Olm, w: World, a: Action)
    ensures forall m :: m in w.received ==> m in Act(p, olm, w, a).received
  {
  }

  lemma AcksOnlyReceivedNext(p: Primitives, olm: Client.Olm, w: World, a: Action, own: bool)
    requires AcksOnlyReceived(p, w, own) && (a.SignAck? ==> a.message in w.received)
    requires own ==> OwnQueue(a)
    ensures AcksOnlyReceived(p, Act(p, olm, w, a), own)
  {
    var next := Act(p, olm, w, a);
    ReceivedGrows(p, olm, w, a);
    forall key, s | (key, s) in next.signed
      ensures s.SendStatement? || s.FetchStatement? || (s.AckStatement? && exists m :: Backs(p, next, s, m, own))
    {
      if (key, s) in w.signed {
        if s.AckStatement? {
          var m :| Backs(p, w, s, m, own);
          assert Backs(p, next, s, m, own);
        }
      } else if a.SignAck? {
        assert Backs(p, next, s, a.message, own);
      }
    }
  }

  lemma {:induction false} AcksOnlyReceivedAlways(p: Primitives, olm: Client.Olm, honest: set<Blob>,
                                                  ws: seq<World>, actions: seq<Action>, n: nat, own: bool)
    requires Run(p, olm, honest, ws, actions) && n < |ws| && (own ==> OwnQueues(actions))
    ensures AcksOnlyReceived(p, ws[n], own)
  {
    if n == 0 {
    } else {
      AcksOnlyReceivedAlways(p, olm, honest, ws, actions, n - 1, own);
      assert Linked(p, olm, honest, ws, actions, n - 1);
      AcksOnlyReceivedNext(p, olm, ws[n - 1], actions[n - 1], own);
    }
  }

  lemma NewlyReceived(p: Primitives, olm: Client.Olm, w: World, a: Action, m: Client.OpenedMessage)
    requires m in Act(p, olm, w, a).received && m !in w.received
    ensures Yields(p, olm, w, a, m)
  {
  }

  /** A received message was yielded by an earlier reception. */
  lemma {:induction false} ReceivedEarlier(p: Primitives, olm: Client.Olm, honest: set<Blob>, ws: seq<World>,
                                           actions: seq<Action>, n: nat, m: Client.OpenedMessage)
    returns (k: nat)
    requires Run(p, olm, honest, ws, actions) && n < |ws| && m in ws[n].received
    ensures k < n && Yields(p, olm, ws[k], actions[k], m)
  {
    if n == 0 {
      assert false;
    } else if m in ws[n - 1].received {
      k := ReceivedEarlier(p, olm, honest, ws, actions, n - 1, m);
    } else {
      k := n - 1;
      assert Linked(p, olm, honest, ws, actions, k);
      NewlyReceived(p, olm, ws[k], actions[k], m);
    }
  }

  /** A send statement that a key has signed was signed by an earlier send. */
  lemma {:induction false} SignedEarlier(p: Primitives, olm: Client.Olm, honest: set<Blob>, ws: seq<World>,
                                         actions: seq<Action>, n: nat, key: Blob, s: Statement)
    returns (j: nat)
    requires Run(p, olm, honest, ws, actions) && n < |ws| && (key, s) in ws[n].signed && s.SendStatement?
    ensures j < n && actions[j].SignSend? && actions[j].key == key
    ensures s == SendStatement(actions[j].queueId, actions[j].messageId, p.digest(actions[j].packet),
                               actions[j].expiresAt)
  {
    if n == 0 {
      assert false;
    } else if (key, s) in ws[n - 1].signed {
      j := SignedEarlier(p, olm, honest, ws, actions, n - 1, key, s);
    } else {
      j := n - 1;
      assert Linked(p, olm, honest, ws, actions, j);
    }
  }

  /** The envelope of action `k` was sent by action `j`: signed with the send key the receiver
      holds, for this queue, message id and expiry, and with this packet's digest. */
  ghost predicate SentBy(p: Primitives, actions: seq<Action>, j: nat, k: nat)
    requires j < k < |actions| && actions[k].Receive?
  {
    && actions[j].SignSend?
    && actions[j].key == actions[k].cap.sendVerificationKey
    && actions[j].queueId == actions[k].envelope.queueId == actions[k].cap.queueId
    && actions[j].messageId == actions[k].envelope.messageId
    && actions[j].expiresAt == actions[k].envelope.expiresAt
    && p.digest(actions[j].packet) == p.digest(actions[k].envelope.packet)
  }

  /** Nothing is opened that was not sent: a received envelope was signed by an earlier send with
      the mailbox's send key, if that key is honest. */
  lemma ReceptionFollowsSending(p: Primitives, olm: Client.Olm, honest: set<Blob>, ws: seq<World>,
                                actions: seq<Action>, k: nat)
    returns (j: nat)
    requires Run(p, olm, honest, ws, actions) && k < |actions| && actions[k].Receive?
    requires Reception(p, olm, ws[k], actions[k]).Some? && actions[k].cap.sendVerificationKey in honest
    ensures j < k && SentBy(p, actions, j, k)
  {
    var a := actions[k];
    var s := Outer(p, a.envelope);
    EnvelopeVerifiesExactly(Over(p), a.cap, a.envelope, a.checkedAt);
    assert Linked(p, olm, honest, ws, actions, k);
    assert WasSigned(ws[k], a.cap.sendVerificationKey, SigningBytes(s));
    var t: Statement :| (a.cap.sendVerificationKey, t) in ws[k].signed && SigningBytes(t) == SigningBytes(s);
    SigningBytesInjective(t, s);
    j := SignedEarlier(p, olm, honest, ws, actions, k, a.cap.sendVerificationKey, s);
  }

  /** What a `Deleted` reply says of the row that went. */
  lemma DeletedMeans(c: Crypto, db: Tables, r: AckRequest, now: U64)
    requires ReplyTo(c, db, Acknowledge(r), now) == Acked(Deleted)
    ensures r.queueId in db.mailboxes
    ensures c.attests(db.mailboxes[r.queueId].receiveKey,
                      AckStatement(r.queueId, r.messageId, r.packetHash, r.validUntil), r.signature)
    ensures var row := Find(Unexpired(db.messages, now), MessageKey(r.queueId, r.messageId));
            row.Some? && c.digest(row.value.ciphertext) == r.packetHash
  {
  }

  /** Every deletion by acknowledgement follows a successful open: if the relay answers
      `Deleted` for a mailbox with an honest receive key, then earlier in the run some client
      verified and opened an envelope with that message id whose packet is the deleted
      ciphertext -- or the two are a collision of the digest. The message was one of that
      client's own conversation. The envelope came through the same queue if messages are only
      acknowledged with the capability of their own queue, and it was sent by the holder of the
      send key it was checked with, if that key is honest. */
  lemma DeletionFollowsOpening(p: Primitives, olm: Client.Olm, honest: set<Blob>, ws: seq<World>,
                               actions: seq<Action>, n: nat, r: AckRequest, now: U64)
    returns (k: nat)
    requires Run(p, olm, honest, ws, actions) && n < |actions|
    requires actions[n] == Submit(Acknowledge(r), now)
    requires ReplyTo(Over(p), ws[n].db, Acknowledge(r), now) == Acked(Deleted)
    requires r.queueId in ws[n].db.mailboxes ==> ws[n].db.mailboxes[r.queueId].receiveKey in honest
    ensures k < n && actions[k].Receive? && actions[k].envelope.messageId == r.messageId
    ensures Reception(p, olm, ws[k], actions[k]).Some?
    ensures var row := Find(Unexpired(ws[n].db.messages, now), MessageKey(r.queueId, r.messageId));
            && row.Some?
            && p.digest(actions[k].envelope.packet) == p.digest(row.value.ciphertext)
            && (actions[k].envelope.packet == row.value.ciphertext
                || Collide(p, actions[k].envelope.packet, row.value.ciphertext))
    ensures actions[k].id in ws[k].clients
            && Reception(p, olm, ws[k], actions[k]).value.message.conversationId
               == ws[k].clients[actions[k].id].conversationId
    ensures OwnQueues(actions) ==> actions[k].envelope.queueId == r.queueId
    ensures actions[k].cap.sendVerificationKey in honest ==> exists j: nat :: j < k && SentBy(p, actions, j, k)
  {
    DeletedMeans(Over(p), ws[n].db, r, now);
    var key := ws[n].db.mailboxes[r.queueId].receiveKey;
    assert Linked(p, olm, honest, ws, actions, n);
    assert WasSigned(ws[n], key, SigningBytes(AckStatementOf(r)));
    var s: Statement :| (key, s) in ws[n].signed && SigningBytes(s) == SigningBytes(AckStatementOf(r));
    SigningBytesInjective(s, AckStatementOf(r));
    AcksOnlyReceivedAlways(p, olm, honest, ws, actions, n, OwnQueues(actions));
    var m :| Backs(p, ws[n], s, m, OwnQueues(actions));
    k := ReceivedEarlier(p, olm, honest, ws, actions, n, m);
    ReceptionMeans(p, olm, ws[k], actions[k]);
    if actions[k].cap.sendVerificationKey in honest {
      var j := ReceptionFollowsSending(p, olm, honest, ws, actions, k);
    }
  }

  ghost predicate Collide(p: Primitives, a: Blob, b: Blob) {
    a != b && p.digest(a) == p.digest(b)
  }

  lemma ReceptionMeans(p: Primitives, olm: Client.Olm, w: World, a: Action)
    requires a.Receive? && Reception(p, olm, w, a).Some?
    ensures Reception(p, olm, w, a).value.envelope
            == VerifiedEnvelope(a.envelope.queueId, a.envelope.messageId, a.envelope.packet, a.envelope.expiresAt)
    ensures a.envelope.queueId == a.cap.queueId
    ensures a.id in w.clients
            && Reception(p, olm, w, a).value.message.conversationId == w.clients[a.id].conversationId
  {
    var verified := VerifyEnvelope(Over(p), a.cap, a.envelope, a.checkedAt).value;
    Client.OpenedMeans(olm, w.clients[a.id], OpeningCall(verified, a));
  }
}
