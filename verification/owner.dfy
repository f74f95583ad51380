/** Mailbox capabilities at work: what their holders sign is what the relay accepts. */
module Owner {
  import opened Bytes
  import opened LabErrors
  import opened Capability
  import opened Schema
  import opened Commands
  import opened Runs
  import opened Consistency
  import opened Ledger
  import opened Outcomes
  import Client

  /** The three key pairs of one mailbox, by their public halves. */
  datatype MailboxOwner = MailboxOwner(queueId: QueueId, send: PublicKey, receive: PublicKey, manage: PublicKey)

  /** Signing a statement with the private half of a key. */
  type Signer = (PublicKey, Statement) -> Signature

  ghost predicate Honors(c: Crypto, sign: Signer) {
    forall key: PublicKey, s: Statement {:trigger sign(key, s)} :: c.attests(key, s, sign(key, s))
  }

  function Registration(sign: Signer, o: MailboxOwner, nonce: Nonce, until: U64): MailboxRegistration {
    MailboxRegistration(o.queueId, o.send, o.receive, o.manage, nonce, until,
                        sign(o.manage, RegisterStatement(o.queueId, o.send, o.receive, o.manage, nonce, until)))
  }

  function AuthorizeSend(c: Crypto, sign: Signer, o: MailboxOwner, id: MessageId, packet: Blob, expiresAt: U64)
    : SendRequest
  {
    SendRequest(o.queueId, id, packet, expiresAt,
                sign(o.send, SendStatement(o.queueId, id, c.digest(packet), expiresAt)))
  }

  function ReceiverCapability(o: MailboxOwner): ReceiveCapability {
    ReceiveCapability(o.queueId, o.receive, o.send)
  }

  function AuthorizeFetch(sign: Signer, cap: ReceiveCapability, nonce: Nonce, until: U64): FetchRequest {
    FetchRequest(cap.queueId, nonce, until, sign(cap.signingKey, FetchStatement(cap.queueId, nonce, until)))
  }

  /** `authorize_ack` takes an opened message: there is no other way to an acknowledgement. */
  function AuthorizeAck(c: Crypto, sign: Signer, cap: ReceiveCapability, m: Client.OpenedMessage, until: U64)
    : AckRequest
  {
    var hash := c.digest(m.envelope.packet);
    AckRequest(cap.queueId, m.envelope.messageId, hash, until,
               sign(cap.signingKey, AckStatement(cap.queueId, m.envelope.messageId, hash, until)))
  }

  function AuthorizeDelete(sign: Signer, o: MailboxOwner, nonce: Nonce, until: U64): DeleteMailboxRequest {
    DeleteMailboxRequest(o.queueId, nonce, until, sign(o.manage, DeleteStatement(o.queueId, nonce, until)))
  }

  /** The mailbox is registered with the owner's keys, which parse. */
  ghost predicate Owned(c: Crypto, db: Tables, o: MailboxOwner) {
    && o.queueId in db.mailboxes && KeysParse(c, o)
    && db.mailboxes[o.queueId].sendKey == o.send
    && db.mailboxes[o.queueId].receiveKey == o.receive
    && db.mailboxes[o.queueId].manageKey == o.manage
  }

  ghost predicate KeysParse(c: Crypto, o: MailboxOwner) {
    c.keyParses(o.send) && c.keyParses(o.receive) && c.keyParses(o.manage)
  }

  ghost predicate InTime(deadline: U64, now: U64, span: int) {
    now < deadline <= now + span && deadline <= I64_MAX
  }

  /** A new queue's registration is accepted, and the mailbox is then the owner's. */
  lemma RegistrationIsServed(c: Crypto, sign: Signer, db: Tables, o: MailboxOwner, nonce: Nonce, until: U64, now: U64)
    requires Honors(c, sign) && Consistent(c, db) && KeysParse(c, o) && InTime(until, now, 300)
    requires o.queueId !in db.mailboxes && !Retired(c, db, o.queueId)
    ensures var cmd := Register(Registration(sign, o, nonce, until));
            ReplyTo(c, db, cmd, now) == Registered(true) && Owned(c, Next(c, db, cmd, now), o)
  {
    var r := Registration(sign, o, nonce, until);
    RegistrationDecidedExactly(c, db, r, now);
    RegistrationEffect(c, db, r, now);
  }

  /** A send by the holder of the send capability is stored, unless its id is in use or buried. */
  lemma SendIsServed(c: Crypto, sign: Signer, db: Tables, o: MailboxOwner, id: MessageId, packet: Blob, expiresAt: U64,
                     now: U64)
    requires Honors(c, sign) && Consistent(c, db) && Owned(c, db, o)
    requires 1 <= |packet| <= 1_048_576 && InTime(expiresAt, now, 604_800)
    requires !HasKey(Unexpired(db.messages, now), MessageKey(o.queueId, id))
    requires MessageKey(o.queueId, id) !in Live(db.tombstones, now)
    ensures ReplyTo(c, db, Enqueue(AuthorizeSend(c, sign, o, id, packet, expiresAt)), now) == Enqueued(Stored)
  {
    var r := AuthorizeSend(c, sign, o, id, packet, expiresAt);
    SendDecidedExactly(c, db, r, now, RowOf(r));
  }

  /** A fetch with an unused nonce is answered, and everything in the answer verifies. */
  lemma FetchIsServed(c: Crypto, sign: Signer, db: Tables, o: MailboxOwner, nonce: Nonce, until: U64, now: U64)
    requires Honors(c, sign) && Consistent(c, db) && Owned(c, db, o) && InTime(until, now, 300)
    requires NonceKey(o.queueId, Receive, nonce) !in Live(db.requestNonces, now)
    ensures var reply := ReplyTo(c, db, Fetch(AuthorizeFetch(sign, ReceiverCapability(o), nonce, until)), now);
            && reply.Fetched?
            && forall e :: e in reply.envelopes ==> VerifyEnvelope(c, ReceiverCapability(o), e, now).Some?
  {
    var r := AuthorizeFetch(sign, ReceiverCapability(o), nonce, until);
    FetchDecidedExactly(c, db, r, now);
    forall e | e in ReplyTo(c, db, Fetch(r), now).envelopes
      ensures VerifyEnvelope(c, ReceiverCapability(o), e, now).Some?
    {
      FetchedEnvelopesVerify(c, db, r, now, ReceiverCapability(o), e);
    }
  }

  /** An acknowledgement of an opened message deletes the row that was opened. */
  lemma AckIsServed(c: Crypto, sign: Signer, db: Tables, o: MailboxOwner, m: Client.OpenedMessage, row: MessageRow,
                    until: U64, now: U64)
    requires Honors(c, sign) && Consistent(c, db) && Owned(c, db, o) && InTime(until, now, 300)
    requires now + 604_800 <= I64_MAX
    requires row in db.messages && row.expiresAt > now && row.queueId == o.queueId
    requires row.messageId == m.envelope.messageId && row.ciphertext == m.envelope.packet
    ensures ReplyTo(c, db, Acknowledge(AuthorizeAck(c, sign, ReceiverCapability(o), m, until)), now) == Acked(Deleted)
  {
    AcknowledgementDecidedExactly(c, db, AuthorizeAck(c, sign, ReceiverCapability(o), m, until), now, row);
  }

  /** A deletion by the manager is carried out. */
  lemma DeleteIsServed(c: Crypto, sign: Signer, db: Tables, o: MailboxOwner, nonce: Nonce, until: U64, now: U64)
    requires Honors(c, sign) && Consistent(c, db) && Owned(c, db, o) && InTime(until, now, 300)
    ensures ReplyTo(c, db, DeleteMailbox(AuthorizeDelete(sign, o, nonce, until)), now) == MailboxDeleted(true)
  {
    DeletionDecidedExactly(c, db, AuthorizeDelete(sign, o, nonce, until), now);
  }

  // ---- The life of a mailbox ----

  ghost function Queue(db: Tables, q: Blob, now: int): seq<MessageRow> {
    Select(db.messages, InQueueAfter(q, now))
  }

  /** The owner's mailbox has these rows in force, and only these nonces spent. */
  ghost predicate Stage(c: Crypto, db: Tables, o: MailboxOwner, now: U64, rows: seq<MessageRow>, used: set<Nonce>) {
    && Consistent(c, db) && Owned(c, db, o) && Queue(db, o.queueId, now) == rows
    && forall k :: k in db.requestNonces && k.queueId == o.queueId ==> k.nonce in used
  }

  lemma Registers(c: Crypto, sign: Signer, db: Tables, o: MailboxOwner, nonce: Nonce, until: U64, now: U64)
    requires Honors(c, sign) && Consistent(c, db) && KeysParse(c, o) && InTime(until, now, 300)
    requires o.queueId !in db.mailboxes && !Retired(c, db, o.queueId)
    ensures var cmd := Register(Registration(sign, o, nonce, until));
            var next := Next(c, db, cmd, now);
            && ReplyTo(c, db, cmd, now) == Registered(true) && Stage(c, next, o, now, [], {})
            && forall k :: k in next.tombstones ==> k.queueId != o.queueId
  {
    var cmd := Register(Registration(sign, o, nonce, until));
    RegistrationIsServed(c, sign, db, o, nonce, until, now);
    RegistrationEffect(c, db, cmd.registration, now);
    ConsistentNext(c, db, cmd, now);
    var next := Next(c, db, cmd, now);
    SelectMembers(db.messages, ExpiresAfter(now));
    SelectNone(next.messages, InQueueAfter(o.queueId, now));
  }

  lemma Sends(c: Crypto, sign: Signer, db: Tables, o: MailboxOwner, id: MessageId, packet: Blob, expiresAt: U64,
              now: U64)
    requires Honors(c, sign) && Stage(c, db, o, now, [], {})
    requires forall k :: k in db.tombstones ==> k.queueId != o.queueId
    requires 1 <= |packet| <= 1_048_576 && InTime(expiresAt, now, 604_800)
    ensures var r := AuthorizeSend(c, sign, o, id, packet, expiresAt);
            && ReplyTo(c, db, Enqueue(r), now) == Enqueued(Stored)
            && Stage(c, Next(c, db, Enqueue(r), now), o, now,
                     [MessageRow(o.queueId, id, packet, expiresAt, r.signature)], {})
  {
    var r := AuthorizeSend(c, sign, o, id, packet, expiresAt);
    SelectMembers(db.messages, ExpiresAfter(now));
    SelectMembers(db.messages, InQueueAfter(o.queueId, now));
    SendIsServed(c, sign, db, o, id, packet, expiresAt, now);
    StoredEffect(c, db, r, now);
    ConsistentNext(c, db, Enqueue(r), now);
    StepMatchesEvent(c, db, Enqueue(r), now, o.queueId, now);
  }

  lemma Fetches(c: Crypto, sign: Signer, db: Tables, o: MailboxOwner, rows: seq<MessageRow>, used: set<Nonce>,
                nonce: Nonce, until: U64, now: U64)
    requires Honors(c, sign) && Stage(c, db, o, now, rows, used) && nonce !in used && InTime(until, now, 300)
    ensures var r := AuthorizeFetch(sign, ReceiverCapability(o), nonce, until);
            && ReplyTo(c, db, Fetch(r), now).Fetched?
            && ReadEnvelopes(o.queueId, rows) == Some(ReplyTo(c, db, Fetch(r), now).envelopes)
            && Stage(c, Next(c, db, Fetch(r), now), o, now, rows, used + {nonce})
  {
    var r := AuthorizeFetch(sign, ReceiverCapability(o), nonce, until);
    FetchIsServed(c, sign, db, o, nonce, until, now);
    FetchedMeans(c, db, r, now);
    FetchedEffect(c, db, r, now);
    ConsistentNext(c, db, Fetch(r), now);
    SelectTwice(db.messages, ExpiresAfter(now), InQueueAfter(o.queueId, now), InQueueAfter(o.queueId, now));
  }

  lemma Acknowledges(c: Crypto, sign: Signer, db: Tables, o: MailboxOwner, row: MessageRow, used: set<Nonce>,
                     m: Client.OpenedMessage, until: U64, now: U64)
    requires Honors(c, sign) && Stage(c, db, o, now, [row], used) && InTime(until, now, 300) && now + 604_800 <= I64_MAX
    requires m.envelope.messageId == row.messageId && m.envelope.packet == row.ciphertext
    ensures var cmd := Acknowledge(AuthorizeAck(c, sign, ReceiverCapability(o), m, until));
            ReplyTo(c, db, cmd, now) == Acked(Deleted) && Stage(c, Next(c, db, cmd, now), o, now, [], used)
  {
    var r := AuthorizeAck(c, sign, ReceiverCapability(o), m, until);
    SelectMembers(db.messages, InQueueAfter(o.queueId, now));
    assert row in Queue(db, o.queueId, now);
    AckIsServed(c, sign, db, o, m, row, until, now);
    DeletedEffect(c, db, r, now);
    ConsistentNext(c, db, Acknowledge(r), now);
    StepMatchesEvent(c, db, Acknowledge(r), now, o.queueId, now);
  }

  /** The relay gives these replies to these commands, one after the other. */
  ghost predicate Plays(c: Crypto, db: Tables, now: U64, cmds: seq<Command>, replies: seq<Reply>)
    decreases |cmds|
  {
    if cmds == [] then replies == []
    else
      && replies != [] && replies[0] == ReplyTo(c, db, cmds[0], now)
      && Plays(c, Next(c, db, cmds[0], now), now, cmds[1..], replies[1..])
  }

  lemma PlaysFirst(c: Crypto, db: Tables, now: U64, cmd: Command, reply: Reply, cmds: seq<Command>, replies: seq<Reply>)
    requires ReplyTo(c, db, cmd, now) == reply && Plays(c, Next(c, db, cmd, now), now, cmds, replies)
    ensures Plays(c, db, now, [cmd] + cmds, [reply] + replies)
  {
    assert ([cmd] + cmds)[1..] == cmds && ([reply] + replies)[1..] == replies;
  }

  lemma EndsWithDeletion(c: Crypto, sign: Signer, db: Tables, o: MailboxOwner, used: set<Nonce>, nonce: Nonce,
                         until: U64, now: U64)
    requires Honors(c, sign) && Stage(c, db, o, now, [], used) && nonce !in used && InTime(until, now, 300)
    ensures Plays(c, db, now,
                  [Fetch(AuthorizeFetch(sign, ReceiverCapability(o), nonce, until))]
                  + [DeleteMailbox(AuthorizeDelete(sign, o, nonce, until))],
                  [Fetched([])] + [MailboxDeleted(true)])
  {
    var fetch := Fetch(AuthorizeFetch(sign, ReceiverCapability(o), nonce, until));
    var delete := DeleteMailbox(AuthorizeDelete(sign, o, nonce, until));
    Fetches(c, sign, db, o, [], used, nonce, until, now);
    var next := Next(c, db, fetch, now);
    DeleteIsServed(c, sign, next, o, nonce, until, now);
    PlaysFirst(c, next, now, delete, MailboxDeleted(true), [], []);
    assert [delete] + [] == [delete];
    PlaysFirst(c, db, now, fetch, Fetched([]), [delete], [MailboxDeleted(true)]);
  }

  lemma ThenAcknowledges(c: Crypto, sign: Signer, db: Tables, o: MailboxOwner, row: MessageRow, m: Client.OpenedMessage,
                         first: Nonce, until: U64, now: U64, cmds: seq<Command>, replies: seq<Reply>)
    requires Honors(c, sign) && Stage(c, db, o, now, [row], {}) && InTime(until, now, 300) && now + 604_800 <= I64_MAX
    requires m.envelope.messageId == row.messageId && m.envelope.packet == row.ciphertext
    requires |row.messageId| == 16 && 0 <= row.expiresAt <= I64_MAX && |row.senderSignature| == 64
    requires forall next :: Stage(c, next, o, now, [], {first}) ==> Plays(c, next, now, cmds, replies)
    ensures var envelope :=
              StoredEnvelope(o.queueId, row.messageId, row.ciphertext, row.expiresAt, row.senderSignature);
            Plays(c, db, now,
                  [Fetch(AuthorizeFetch(sign, ReceiverCapability(o), first, until))]
                  + ([Acknowledge(AuthorizeAck(c, sign, ReceiverCapability(o), m, until))] + cmds),
                  [Fetched([envelope])] + ([Acked(Deleted)] + replies))
  {
    var fetch, ack := Fetch(AuthorizeFetch(sign, ReceiverCapability(o), first, until)),
                      Acknowledge(AuthorizeAck(c, sign, ReceiverCapability(o), m, until));
    Fetches(c, sign, db, o, [row], {}, first, until, now);
    ReadsOne(o.queueId, row);
    var next := Next(c, db, fetch, now);
    assert {} + {first} == {first};
    Acknowledges(c, sign, next, o, row, {first}, m, until, now);
    PlaysFirst(c, next, now, ack, Acked(Deleted), cmds, replies);
    PlaysFirst(c, db, now, fetch, ReplyTo(c, db, fetch, now), [ack] + cmds, [Acked(Deleted)] + replies);
  }

  lemma BeginsWithSend(c: Crypto, sign: Signer, db: Tables, o: MailboxOwner, id: MessageId, packet: Blob, nonce: Nonce,
                       until: U64, now: U64, cmds: seq<Command>, replies: seq<Reply>)
    requires Honors(c, sign) && Consistent(c, db) && KeysParse(c, o) && InTime(until, now, 300)
    requires o.queueId !in db.mailboxes && !Retired(c, db, o.queueId) && 1 <= |packet| <= 1_048_576
    requires var row := RowOf(AuthorizeSend(c, sign, o, id, packet, until));
             forall next :: Stage(c, next, o, now, [row], {}) ==> Plays(c, next, now, cmds, replies)
    ensures Plays(c, db, now,
                  [Register(Registration(sign, o, nonce, until))]
                  + ([Enqueue(AuthorizeSend(c, sign, o, id, packet, until))] + cmds),
                  [Registered(true)] + ([Enqueued(Stored)] + replies))
  {
    var register, send :=
      Register(Registration(sign, o, nonce, until)), Enqueue(AuthorizeSend(c, sign, o, id, packet, until));
    Registers(c, sign, db, o, nonce, until, now);
    var registered := Next(c, db, register, now);
    Sends(c, sign, registered, o, id, packet, until, now);
    PlaysFirst(c, registered, now, send, Enqueued(Stored), cmds, replies);
    PlaysFirst(c, db, now, register, Registered(true), [send] + cmds, [Enqueued(Stored)] + replies);
  }

  /** The whole life of a mailbox on a relay with anything else on it: register, send, fetch what
      was sent, acknowledge it, find nothing on the next fetch, delete. */
  lemma LifeOfAMailbox(c: Crypto, sign: Signer, db: Tables, o: MailboxOwner, id: MessageId, packet: Blob,
                       m: Client.OpenedMessage, first: Nonce, second: Nonce, until: U64, now: U64)
    requires Honors(c, sign) && Consistent(c, db) && KeysParse(c, o)
    requires o.queueId !in db.mailboxes && !Retired(c, db, o.queueId)
    requires 1 <= |packet| <= 1_048_576 && InTime(until, now, 300) && now + 604_800 <= I64_MAX && first != second
    requires m.envelope.messageId == id && m.envelope.packet == packet
    ensures var sent, cap := AuthorizeSend(c, sign, o, id, packet, until), ReceiverCapability(o);
            Plays(c, db, now,
                  [Register(Registration(sign, o, first, until))] + ([Enqueue(sent)]
                  + ([Fetch(AuthorizeFetch(sign, cap, first, until))]
                  + ([Acknowledge(AuthorizeAck(c, sign, cap, m, until))]
                  + ([Fetch(AuthorizeFetch(sign, cap, second, until))]
                  + [DeleteMailbox(AuthorizeDelete(sign, o, second, until))])))),
                  [Registered(true)] + ([Enqueued(Stored)]
                  + ([Fetched([StoredEnvelope(o.queueId, id, packet, until, sent.signature)])]
                  + ([Acked(Deleted)] + ([Fetched([])] + [MailboxDeleted(true)])))))
  {
    var sent, cap := AuthorizeSend(c, sign, o, id, packet, until), ReceiverCapability(o);
    var fetch, ack := Fetch(AuthorizeFetch(sign, cap, first, until)), Acknowledge(AuthorizeAck(c, sign, cap, m, until));
    var last := [Fetch(AuthorizeFetch(sign, cap, second, until))]
                + [DeleteMailbox(AuthorizeDelete(sign, o, second, until))];
    var answers := [Fetched([])] + [MailboxDeleted(true)];
    var envelope := StoredEnvelope(o.queueId, id, packet, until, sent.signature);
    forall next | Stage(c, next, o, now, [], {first}) ensures Plays(c, next, now, last, answers) {
      EndsWithDeletion(c, sign, next, o, {first}, second, until, now);
    }
    forall next | Stage(c, next, o, now, [RowOf(sent)], {})
      ensures Plays(c, next, now, [fetch] + ([ack] + last), [Fetched([envelope])] + ([Acked(Deleted)] + answers))
    {
      ThenAcknowledges(c, sign, next, o, RowOf(sent), m, first, until, now, last, answers);
    }
    BeginsWithSend(c, sign, db, o, id, packet, first, until, now, [fetch] + ([ack] + last),
                   [Fetched([envelope])] + ([Acked(Deleted)] + answers));
  }

  lemma ReadsOne(q: QueueId, row: MessageRow)
    requires |row.messageId| == 16 && 0 <= row.expiresAt <= I64_MAX && |row.senderSignature| == 64
    ensures ReadEnvelopes(q, [row]) ==
            Some([StoredEnvelope(q, row.messageId, row.ciphertext, row.expiresAt, row.senderSignature)])
  {
    RowsRead(q, [row]);
    assert ReadEnvelopes(q, [row]).value == [ReadEnvelope(q, row).value];
  }
}
