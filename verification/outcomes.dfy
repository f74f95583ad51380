/** Every command's reply and effect for every input, stated on the tables before the sweep, with
    the limits of the protocol as numbers. */
module Outcomes {
  import opened Bytes
  import opened LabErrors
  import opened Capability
  import opened Schema
  import opened Commands
  import opened Runs
  import opened Consistency
  import opened Ledger

  /** Why a command signed with a mailbox key is turned away before its own rules apply: out of its
      window, a clock the database cannot hold, no mailbox, an unusable key, a bad signature. */
  ghost function TurnedAway(c: Crypto, db: Tables, q: Blob, key: Mailbox -> Blob, s: Statement, signature: Blob,
                            deadline: U64, span: int, now: U64): Option<LabError>
  {
    if !(now < deadline <= now + span) then Some(if s.SendStatement? then InvalidExpiry else RequestExpired)
    else if now > I64_MAX then Some(Storage)
    else if q !in db.mailboxes then Some(MailboxNotFound)
    else if |key(db.mailboxes[q])| != 32 || !c.keyParses(key(db.mailboxes[q])) then Some(Storage)
    else if !c.attests(key(db.mailboxes[q]), s, signature) then Some(Unauthorized)
    else None
  }

  ghost function FetchTurnedAway(c: Crypto, db: Tables, r: FetchRequest, now: U64): Option<LabError> {
    TurnedAway(c, db, r.queueId, (m: Mailbox) => m.receiveKey, FetchStatement(r.queueId, r.nonce, r.validUntil),
               r.signature, r.validUntil, 300, now)
  }

  ghost function AckTurnedAway(c: Crypto, db: Tables, r: AckRequest, now: U64): Option<LabError> {
    TurnedAway(c, db, r.queueId, (m: Mailbox) => m.receiveKey,
               AckStatement(r.queueId, r.messageId, r.packetHash, r.validUntil), r.signature, r.validUntil, 300, now)
  }

  ghost function DeletionTurnedAway(c: Crypto, db: Tables, r: DeleteMailboxRequest, now: U64): Option<LabError> {
    TurnedAway(c, db, r.queueId, (m: Mailbox) => m.manageKey, DeleteStatement(r.queueId, r.nonce, r.validUntil),
               r.signature, r.validUntil, 300, now)
  }

  ghost function SendTurnedAway(c: Crypto, db: Tables, r: SendRequest, now: U64): Option<LabError> {
    TurnedAway(c, db, r.queueId, (m: Mailbox) => m.sendKey,
               SendStatement(r.queueId, r.messageId, c.digest(r.packet), r.expiresAt), r.signature, r.expiresAt,
               604_800, now)
  }

  // ---- Replies ----

  /** The reply to a fetch, for every input. */
  lemma FetchDecidedExactly(c: Crypto, db: Tables, r: FetchRequest, now: U64)
    requires Consistent(c, db)
    ensures var reply := ReplyTo(c, db, Fetch(r), now);
            match FetchTurnedAway(c, db, r, now)
            case Some(e) => reply == Failed(e)
            case None =>
              if r.validUntil > I64_MAX then reply == Failed(Storage)
              else if NonceKey(r.queueId, Receive, r.nonce) in Live(db.requestNonces, now)
              then reply == Failed(Unauthorized)
              else reply.Fetched?
  {
    QueueReads(c, db, r.queueId, now);
  }

  /** In a consistent database no queue has a row that cannot be read back. */
  lemma QueueReads(c: Crypto, db: Tables, q: QueueId, now: int)
    requires Consistent(c, db)
    ensures ReadEnvelopes(q, Select(Unexpired(db.messages, now), InQueueAfter(q, now))).Some?
  {
    SelectMembers(db.messages, ExpiresAfter(now));
    SelectMembers(Unexpired(db.messages, now), InQueueAfter(q, now));
    RowsRead(q, Select(Unexpired(db.messages, now), InQueueAfter(q, now)));
  }

  /** The reply to a mailbox deletion, for every input on any tables. In a consistent database the
      replay case does not arise. */
  lemma DeletionDecidedExactly(c: Crypto, db: Tables, r: DeleteMailboxRequest, now: U64)
    ensures ReplyTo(c, db, DeleteMailbox(r), now) ==
            match DeletionTurnedAway(c, db, r, now)
            case Some(e) => Failed(e)
            case None =>
              if r.validUntil > I64_MAX then Failed(Storage)
              else if NonceKey(r.queueId, Manage, r.nonce) in Live(db.requestNonces, now) then Failed(Unauthorized)
              else MailboxDeleted(true)
    ensures Consistent(c, db) ==> NonceKey(r.queueId, Manage, r.nonce) !in db.requestNonces
  {
  }

  /** The reply to an acknowledgement, for every input, with `row` the queued message if there is
      one: it depends on the row's hash and on whether the message was buried. */
  lemma AcknowledgementDecidedExactly(c: Crypto, db: Tables, r: AckRequest, now: U64, row: MessageRow)
    requires Consistent(c, db) && row.Key() == MessageKey(r.queueId, r.messageId)
    ensures AckTurnedAway(c, db, r, now).Some? ==>
              ReplyTo(c, db, Acknowledge(r), now) == Failed(AckTurnedAway(c, db, r, now).value)
    ensures AckTurnedAway(c, db, r, now).None? && row in db.messages && row.expiresAt > now ==>
              ReplyTo(c, db, Acknowledge(r), now) ==
              if c.digest(row.ciphertext) != r.packetHash then Failed(Unauthorized)
              else if now + 604_800 > I64_MAX then Failed(Storage)
              else Acked(Deleted)
    ensures AckTurnedAway(c, db, r, now).None? && !HasKey(Unexpired(db.messages, now), row.Key()) ==>
              ReplyTo(c, db, Acknowledge(r), now) ==
              if row.Key() in Live(db.tombstones, now) then Acked(AlreadyDeleted) else Failed(MessageNotFound)
    ensures HasKey(Unexpired(db.messages, now), row.Key()) ==> row.Key() !in Live(db.tombstones, now)
  {
    FindsRow(c, db, now, row);
  }

  /** A send of the wrong size, or one that is turned away, fails with that error. */
  lemma SendRefusedExactly(c: Crypto, db: Tables, r: SendRequest, now: U64)
    ensures !(1 <= |r.packet| <= 1_048_576) ==> ReplyTo(c, db, Enqueue(r), now) == Failed(InvalidPayload)
    ensures 1 <= |r.packet| <= 1_048_576 && SendTurnedAway(c, db, r, now).Some? ==>
              ReplyTo(c, db, Enqueue(r), now) == Failed(SendTurnedAway(c, db, r, now).value)
  {
  }

  lemma AdmittedIsValid(c: Crypto, db: Tables, r: SendRequest, now: U64)
    ensures 1 <= |r.packet| <= 1_048_576 && SendTurnedAway(c, db, r, now).None? <==> ValidSend(c, db, r, now)
  {
  }

  /** The reply to any other send, with `row` the queued message of that id if there is one. */
  lemma SendDecidedExactly(c: Crypto, db: Tables, r: SendRequest, now: U64, row: MessageRow)
    requires Consistent(c, db) && row.Key() == MessageKey(r.queueId, r.messageId)
    requires 1 <= |r.packet| <= 1_048_576 && SendTurnedAway(c, db, r, now).None?
    ensures row.Key() in Live(db.tombstones, now) ==> ReplyTo(c, db, Enqueue(r), now) == Failed(MessageGone)
    ensures row in db.messages && row.expiresAt > now ==>
              ReplyTo(c, db, Enqueue(r), now) ==
              if r.packet == row.ciphertext && r.expiresAt == row.expiresAt then Enqueued(Duplicate)
              else if r.packet == row.ciphertext && r.expiresAt > I64_MAX then Failed(Storage)
              else Failed(MessageConflict)
    ensures row.Key() !in Live(db.tombstones, now) && !HasKey(Unexpired(db.messages, now), row.Key()) ==>
              ReplyTo(c, db, Enqueue(r), now) ==
              if r.expiresAt > I64_MAX then Failed(Storage) else Enqueued(Stored)
  {
    AdmittedIsValid(c, db, r, now);
    FindsRow(c, db, now, row);
  }

  lemma FindsRow(c: Crypto, db: Tables, now: int, row: MessageRow)
    requires Consistent(c, db)
    ensures row in db.messages && row.expiresAt > now ==> Find(Unexpired(db.messages, now), row.Key()) == Some(row)
    ensures !HasKey(Unexpired(db.messages, now), row.Key()) ==> Find(Unexpired(db.messages, now), row.Key()) == None
    ensures HasKey(Unexpired(db.messages, now), row.Key()) ==> row.Key() !in db.tombstones
    ensures row in db.messages ==> row.expiresAt <= I64_MAX && row.Key() !in db.tombstones
  {
    SelectMembers(db.messages, ExpiresAfter(now));
    FindFinds(Unexpired(db.messages, now), row.Key());
    DistinctSelect(db.messages, ExpiresAfter(now));
    if row in Unexpired(db.messages, now) { FindIsUnique(Unexpired(db.messages, now), row); }
  }

  /** What `queued_message_count_at` and `purge_expired` report: the messages still in force, and
      the ones that have just gone. */
  lemma CountsAreExact(c: Crypto, db: Tables, now: U64)
    ensures now > I64_MAX ==> ReplyTo(c, db, CountQueued, now) == ReplyTo(c, db, PurgeExpired, now) == Failed(Storage)
    ensures now <= I64_MAX ==>
              && ReplyTo(c, db, CountQueued, now) == Counted(|Unexpired(db.messages, now)|)
              && ReplyTo(c, db, PurgeExpired, now).Purged?
              && ReplyTo(c, db, PurgeExpired, now).removed + |Unexpired(db.messages, now)| == |db.messages|
              && Next(c, db, CountQueued, now) == Next(c, db, PurgeExpired, now) == Sweep(db, now)
  {
    SweepCount(db.messages, now);
  }

  // ---- Effects ----

  /** A sweep removes exactly what is due, from four tables, and nothing from the other two. */
  lemma SweepRemovesExactlyWhatIsDue(db: Tables, now: int)
    ensures var swept := Sweep(db, now);
            && swept.mailboxes == db.mailboxes && swept.retiredQueues == db.retiredQueues
            && (forall r :: r in swept.messages <==> r in db.messages && r.expiresAt > now)
            && (forall k :: k in swept.tombstones <==> k in db.tombstones && db.tombstones[k] > now)
            && (forall k :: k in swept.tombstones ==> swept.tombstones[k] == db.tombstones[k])
            && (forall k :: k in swept.requestNonces <==> k in db.requestNonces && db.requestNonces[k] > now)
            && (forall k :: k in swept.requestNonces ==> swept.requestNonces[k] == db.requestNonces[k])
            && (forall k :: k in swept.registrationNonces <==>
                  k in db.registrationNonces && db.registrationNonces[k] > now)
            && (forall k :: k in swept.registrationNonces ==> swept.registrationNonces[k] == db.registrationNonces[k])
  {
    SelectMembers(db.messages, ExpiresAfter(now));
  }

  /** A successful registration stores the request's keys and the time for a new queue, changes
      no mailbox otherwise, and notes the nonce unless it is known. */
  lemma RegistrationEffect(c: Crypto, db: Tables, r: MailboxRegistration, now: U64)
    requires ReplyTo(c, db, Register(r), now).Registered?
    ensures var next, nonces, key :=
              Next(c, db, Register(r), now), Live(db.registrationNonces, now), RegistrationKey(r.queueId, r.nonce);
            && next.mailboxes == (if r.queueId in db.mailboxes then db.mailboxes
                                  else db.mailboxes[r.queueId := Mailbox(r.sendKey, r.receiveKey, r.manageKey, now)])
            && next.registrationNonces == (if key in nonces then nonces else nonces[key := r.validUntil])
            && next.messages == Unexpired(db.messages, now)
            && next.tombstones == Live(db.tombstones, now)
            && next.requestNonces == Live(db.requestNonces, now)
            && next.retiredQueues == db.retiredQueues
  {
  }

  /** A stored send appends its own fields as the newest row, and nothing else changes. */
  lemma StoredEffect(c: Crypto, db: Tables, r: SendRequest, now: U64)
    requires ReplyTo(c, db, Enqueue(r), now) == Enqueued(Stored)
    ensures Next(c, db, Enqueue(r), now) == Sweep(db, now).(messages :=
              Unexpired(db.messages, now) + [MessageRow(r.queueId, r.messageId, r.packet, r.expiresAt, r.signature)])
  {
    StoredMeans(c, db, r, now);
  }

  /** A repeated send or acknowledgement that succeeds changes nothing. */
  lemma RepeatsChangeNothing(c: Crypto, db: Tables, cmd: Command, now: U64)
    requires ReplyTo(c, db, cmd, now) == Enqueued(Duplicate) || ReplyTo(c, db, cmd, now) == Acked(AlreadyDeleted)
    ensures Next(c, db, cmd, now) == Sweep(db, now)
  {
  }

  /** A fetch takes nothing away: it only spends its nonce. */
  lemma FetchedEffect(c: Crypto, db: Tables, r: FetchRequest, now: U64)
    requires ReplyTo(c, db, Fetch(r), now).Fetched?
    ensures Next(c, db, Fetch(r), now) == Sweep(db, now).(requestNonces :=
              Live(db.requestNonces, now)[NonceKey(r.queueId, Receive, r.nonce) := r.validUntil])
  {
    FetchedMeans(c, db, r, now);
  }

  /** An acknowledgement replaces the one message by a tombstone of seven days. */
  lemma DeletedEffect(c: Crypto, db: Tables, r: AckRequest, now: U64)
    requires ReplyTo(c, db, Acknowledge(r), now) == Acked(Deleted)
    ensures var next, key := Next(c, db, Acknowledge(r), now), MessageKey(r.queueId, r.messageId);
            && next == Sweep(db, now).(messages := next.messages, tombstones := next.tombstones)
            && next.tombstones == Live(db.tombstones, now)[key := now + 604_800]
            && next.messages == Select(Unexpired(db.messages, now), HasOtherKey(key))
            && (forall row :: row in next.messages <==> row in db.messages && row.expiresAt > now && row.Key() != key)
  {
    AcceptedIsGrounded(c, db, Acknowledge(r), now);
    SelectMembers(db.messages, ExpiresAfter(now));
    SelectMembers(Unexpired(db.messages, now), HasOtherKey(MessageKey(r.queueId, r.messageId)));
  }

  /** A deletion removes every row of its queue but registration nonces, retires the queue's hash
      at this time unless it is retired already, and keeps every row of every other queue. */
  lemma MailboxDeletedEffect(c: Crypto, db: Tables, r: DeleteMailboxRequest, now: U64)
    requires ReplyTo(c, db, DeleteMailbox(r), now).MailboxDeleted?
    ensures var next, hash := Next(c, db, DeleteMailbox(r), now), c.digest(r.queueId);
            && next.mailboxes == db.mailboxes - {r.queueId}
            && next.messages == Select(Unexpired(db.messages, now), InOtherQueue(r.queueId))
            && next.registrationNonces == Live(db.registrationNonces, now)
            && next.retiredQueues ==
               (if hash in db.retiredQueues then db.retiredQueues else db.retiredQueues[hash := now])
    ensures var next := Next(c, db, DeleteMailbox(r), now);
            && (forall k :: k in next.tombstones <==> k in Live(db.tombstones, now) && k.queueId != r.queueId)
            && (forall k :: k in next.tombstones ==> next.tombstones[k] == db.tombstones[k])
            && (forall k :: k in next.requestNonces <==> k in Live(db.requestNonces, now) && k.queueId != r.queueId)
            && (forall k :: k in next.requestNonces ==> next.requestNonces[k] == db.requestNonces[k])
  {
  }

  // ---- The audit log ----

  /** The line that tells a reply; `swept` says whether messages went with the sweep. */
  ghost function LineFor(reply: Reply, swept: bool): Option<string> {
    match reply
    case Failed(_) => None
    case Registered(isNew) => Some(if isNew then "mailbox_registered" else "mailbox_registration_duplicate")
    case Enqueued(outcome) => Some(if outcome.Stored? then "message_enqueued" else "message_enqueue_duplicate")
    case Fetched(_) => Some("mailbox_fetched")
    case Acked(outcome) =>
      Some(if outcome.Deleted? then "message_acknowledged_and_deleted" else "message_ack_duplicate")
    case MailboxDeleted(_) => Some("mailbox_deleted")
    case Counted(_) => if swept then Some("expired_messages_deleted") else None
    case Purged(_) => if swept then Some("expired_messages_deleted") else None
    case Opened => None
  }

  lemma EventTellsReply(c: Crypto, db: Tables, removed: nat, cmd: Command, now: U64)
    requires Decide(c, db, removed, cmd, now).Accept?
    ensures Decide(c, db, removed, cmd, now).event == LineFor(Decide(c, db, removed, cmd, now).reply, removed > 0)
    ensures !Decide(c, db, removed, cmd, now).reply.Failed?
    ensures Decide(c, db, removed, cmd, now).reply.Opened? <==> cmd.Reopen?
  {
  }

  /** The audit log is the log of replies: each command that succeeds adds one line that tells its
      reply, a purge or a count adds one exactly if messages went, and a failure adds none. A
      reopened relay starts with an empty log. */
  lemma AuditTellsReplies(c: Crypto, db: Tables, log: seq<string>, cmd: Command, now: U64)
    ensures var reply := ReplyTo(c, db, cmd, now);
            var line := LineFor(reply, |Unexpired(db.messages, now)| < |db.messages|);
            Audit(c, db, log, cmd, now) ==
            if reply.Opened? then [] else if line.Some? then log + [line.value] else log
  {
    SweepCount(db.messages, now);
    if Transact(c, db, cmd, now).Accept? {
      EventTellsReply(c, Sweep(db, now), Expired(db.messages, now), cmd, now);
    }
  }

  // ---- Registrations are vouched for ----

  /** Some registration of exactly these keys for this queue was signed with the manage key. */
  ghost predicate Vouched(c: Crypto, q: Blob, mailbox: Mailbox) {
    exists r: MailboxRegistration :: r.queueId == q && SameKeys(mailbox, r) && SignedByManager(c, r)
  }

  ghost predicate AllVouched(c: Crypto, db: Tables) {
    forall q :: q in db.mailboxes ==> Vouched(c, q, db.mailboxes[q])
  }

  lemma AllVouchedNext(c: Crypto, db: Tables, cmd: Command, now: U64)
    requires AllVouched(c, db)
    ensures AllVouched(c, Next(c, db, cmd, now))
  {
    var next := Next(c, db, cmd, now);
    forall q | q in next.mailboxes ensures Vouched(c, q, next.mailboxes[q]) {
      if q in db.mailboxes && db.mailboxes[q] == next.mailboxes[q] {
      } else {
        NewMailboxIsRegistered(c, db, cmd, now, q);
        assert SameKeys(next.mailboxes[q], cmd.registration) && SignedByManager(c, cmd.registration);
      }
    }
  }

  /** The only way to a mailbox that was not there, or was different, is a signed registration. */
  lemma NewMailboxIsRegistered(c: Crypto, db: Tables, cmd: Command, now: U64, q: Blob)
    requires var next := Next(c, db, cmd, now);
             q in next.mailboxes && !(q in db.mailboxes && db.mailboxes[q] == next.mailboxes[q])
    ensures cmd.Register? && cmd.registration.queueId == q && q !in db.mailboxes
    ensures Next(c, db, cmd, now).mailboxes[q] ==
            Mailbox(cmd.registration.sendKey, cmd.registration.receiveKey, cmd.registration.manageKey, now)
    ensures SignedByManager(c, cmd.registration)
  {
    OnlyAddMailboxAdds(Sweep(db, now), Transact(c, db, cmd, now).change, q);
    AddMailboxIsRegistered(c, db, cmd, now);
  }

  lemma OnlyAddMailboxAdds(db: Tables, change: Change, q: Blob)
    requires q in Perform(db, change).mailboxes
    requires !(q in db.mailboxes && db.mailboxes[q] == Perform(db, change).mailboxes[q])
    ensures change.AddMailbox? && change.queueId == q && Perform(db, change).mailboxes[q] == change.mailbox
  {
  }

  lemma AddMailboxIsRegistered(c: Crypto, db: Tables, cmd: Command, now: U64)
    requires Transact(c, db, cmd, now).Accept? && Transact(c, db, cmd, now).change.AddMailbox?
    ensures cmd.Register? && SignedByManager(c, cmd.registration) && cmd.registration.queueId !in db.mailboxes
    ensures var change, r := Transact(c, db, cmd, now).change, cmd.registration;
            change.queueId == r.queueId && change.mailbox == Mailbox(r.sendKey, r.receiveKey, r.manageKey, now)
  {
  }

  /** Throughout every run from an empty database, or any whose mailboxes are vouched for, every
      mailbox has keys that its own manage key signed for that queue. */
  lemma {:induction false} MailboxesAreVouched(c: Crypto, db: Tables, steps: seq<Step>, n: nat)
    requires n <= |steps| && AllVouched(c, db)
    ensures AllVouched(c, After(c, db, steps, n))
  {
    if n == 0 {
    } else {
      MailboxesAreVouched(c, db, steps, n - 1);
      AllVouchedNext(c, After(c, db, steps, n - 1), steps[n - 1].cmd, steps[n - 1].now);
    }
  }

  /** So a registered mailbox's keys are the ones its manager chose: without forgeries, a
      registration statement with exactly the request's fields was signed with the manage key. */
  lemma RegistrationWasSigned(p: Primitives, db: Tables, r: MailboxRegistration, now: U64, signed: set<Statement>)
    requires ReplyTo(Over(p), db, Register(r), now).Registered? && OnlySigned(p, r.manageKey, r.signature, signed)
    ensures RegisterStatement(r.queueId, r.sendKey, r.receiveKey, r.manageKey, r.nonce, r.validUntil) in signed
  {
    AttestedWasSigned(p, r.manageKey,
                      RegisterStatement(r.queueId, r.sendKey, r.receiveKey, r.manageKey, r.nonce, r.validUntil),
                      r.signature, signed);
  }
}
