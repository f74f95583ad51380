/** What each relay command decides, as a function of the committed tables.

    A command is checked, the tables are swept at `now` inside a transaction, the command
    decides on the swept tables, and then either everything is committed or everything,
    the sweep included, is dropped. */
module Commands {
  import opened Bytes
  import opened LabErrors
  import opened Capability
  import opened Schema

  const MAX_PACKET_BYTES := 1_048_576
  const MAX_MESSAGE_TTL_SECONDS: U64 := 604_800
  const TOMBSTONE_TTL_SECONDS: U64 := 604_800
  const MAX_REQUEST_SECONDS: U64 := 300

  datatype EnqueueOutcome = Stored | Duplicate
  datatype AckOutcome = Deleted | AlreadyDeleted
  datatype KeyColumn = SendKey | ReceiveKey | ManageKey

  datatype Command =
    | Register(registration: MailboxRegistration)
    | Enqueue(send: SendRequest)
    | Fetch(fetch: FetchRequest)
    | Acknowledge(ack: AckRequest)
    | DeleteMailbox(deletion: DeleteMailboxRequest)
    | CountQueued
    | PurgeExpired
    | Reopen

  datatype Reply =
    | Failed(error: LabError)
    | Registered(isNew: bool)
    | Enqueued(enqueued: EnqueueOutcome)
    | Fetched(envelopes: seq<StoredEnvelope>)
    | Acked(acked: AckOutcome)
    | MailboxDeleted(deleted: bool)
    | Counted(count: nat)
    | Purged(removed: nat)
    | Opened

  /** The one change a command makes to the swept tables. */
  datatype Change =
    | NoChange
    | AddMailbox(queueId: Blob, mailbox: Mailbox, registration: RegistrationKey, until: int)
    | NoteRegistration(registration: RegistrationKey, until: int)
    | AddMessage(row: MessageRow)
    | AddNonce(nonce: NonceKey, until: int)
    | BuryMessage(key: MessageKey, until: int)
    | RetireMailbox(queueId: Blob, queueHash: Blob, at: int)

  datatype Decision =
    | Reject(error: LabError)
    | Accept(reply: Reply, change: Change, event: Option<string>)

  predicate InWindow(deadline: U64, now: U64, span: U64) {
    now < deadline <= SaturatingAdd(now, span)
  }

  /** Checks made before the transaction begins. */
  function Precheck(c: Crypto, cmd: Command, now: U64): Option<LabError> {
    match cmd
    case Register(r) =>
      if !InWindow(r.validUntil, now, MAX_REQUEST_SECONDS) then Some(RequestExpired)
      else if !c.attests(r.manageKey, RegistrationStatement(r), r.signature) then Some(Unauthorized)
      else None
    case Enqueue(r) =>
      if r.packet == [] || |r.packet| > MAX_PACKET_BYTES then Some(InvalidPayload)
      else if !InWindow(r.expiresAt, now, MAX_MESSAGE_TTL_SECONDS) then Some(InvalidExpiry)
      else None
    case Fetch(r) =>
      if !InWindow(r.validUntil, now, MAX_REQUEST_SECONDS) then Some(RequestExpired) else None
    case Acknowledge(r) =>
      if !InWindow(r.validUntil, now, MAX_REQUEST_SECONDS) then Some(RequestExpired) else None
    case DeleteMailbox(r) =>
      if !InWindow(r.validUntil, now, MAX_REQUEST_SECONDS) then Some(RequestExpired) else None
    case CountQueued => None
    case PurgeExpired => None
    case Reopen => None
  }

  function KeyOf(mailbox: Mailbox, column: KeyColumn): Blob {
    match column
    case SendKey => mailbox.sendKey
    case ReceiveKey => mailbox.receiveKey
    case ManageKey => mailbox.manageKey
  }

  /** `mailbox_key`: the stored key, if the mailbox exists and the key still parses. */
  function MailboxKey(c: Crypto, db: Tables, q: Blob, column: KeyColumn): Result<Blob> {
    if q !in db.mailboxes then Err(MailboxNotFound)
    else
      var key := KeyOf(db.mailboxes[q], column);
      if |key| != 32 || !c.keyParses(key) then Err(Storage) else Ok(key)
  }

  /** The key lookup and signature check that open every authenticated command. */
  function Authenticate(c: Crypto, db: Tables, q: Blob, column: KeyColumn, statement: Statement,
                        signature: Blob): Option<LabError>
  {
    match MailboxKey(c, db, q, column)
    case Err(e) => Some(e)
    case Ok(key) => if c.attests(key, statement, signature) then None else Some(Unauthorized)
  }

  /** A stored row read back as an envelope; `None` is the malformed-row failure. */
  function ReadEnvelope(q: QueueId, row: MessageRow): Option<StoredEnvelope> {
    if |row.messageId| != 16 || !(0 <= row.expiresAt <= I64_MAX) || |row.senderSignature| != 64
    then None
    else Some(StoredEnvelope(q, row.messageId, row.ciphertext, row.expiresAt, row.senderSignature))
  }

  function ReadEnvelopes(q: QueueId, rows: seq<MessageRow>): Option<seq<StoredEnvelope>> {
    if rows == [] then Some([])
    else
      match (ReadEnvelope(q, rows[0]), ReadEnvelopes(q, rows[1..]))
      case (Some(first), Some(rest)) => Some([first] + rest)
      case _ => None
  }

  function DecideRegister(c: Crypto, db: Tables, r: MailboxRegistration, now: U64): Decision {
    var registration := RegistrationKey(r.queueId, r.nonce);
    if c.digest(r.queueId) in db.retiredQueues then Reject(MailboxConflict)
    else if r.queueId in db.mailboxes then
      var known := db.mailboxes[r.queueId];
      if known.sendKey != r.sendKey || known.receiveKey != r.receiveKey || known.manageKey != r.manageKey
      then Reject(MailboxConflict)
      else if r.validUntil > I64_MAX then Reject(Storage)
      else Accept(Registered(false), NoteRegistration(registration, r.validUntil),
                  Some("mailbox_registration_duplicate"))
    else if r.validUntil > I64_MAX then Reject(Storage)
    else if registration in db.registrationNonces then Reject(Unauthorized)
    else Accept(Registered(true),
                AddMailbox(r.queueId, Mailbox(r.sendKey, r.receiveKey, r.manageKey, now),
                           registration, r.validUntil),
                Some("mailbox_registered"))
  }

  function DecideEnqueue(c: Crypto, db: Tables, r: SendRequest, now: U64): Decision {
    var key := MessageKey(r.queueId, r.messageId);
    match Authenticate(c, db, r.queueId, SendKey, SendStatementOf(c, r), r.signature)
    case Some(e) => Reject(e)
    case None =>
      if key in db.tombstones && db.tombstones[key] > now then Reject(MessageGone)
      else
        match Find(db.messages, key)
        case Some(row) =>
          if row.ciphertext != r.packet then Reject(MessageConflict)
          else if r.expiresAt > I64_MAX then Reject(Storage)
          else if row.expiresAt != r.expiresAt then Reject(MessageConflict)
          else Accept(Enqueued(Duplicate), NoChange, Some("message_enqueue_duplicate"))
        case None =>
          if r.expiresAt > I64_MAX then Reject(Storage)
          else Accept(Enqueued(Stored), AddMessage(RowOf(r)), Some("message_enqueued"))
  }

  function RowOf(r: SendRequest): MessageRow {
    MessageRow(r.queueId, r.messageId, r.packet, r.expiresAt, r.signature)
  }

  function DecideFetch(c: Crypto, db: Tables, r: FetchRequest, now: U64): Decision {
    var nonce := NonceKey(r.queueId, Receive, r.nonce);
    match Authenticate(c, db, r.queueId, ReceiveKey, FetchStatementOf(r), r.signature)
    case Some(e) => Reject(e)
    case None =>
      if r.validUntil > I64_MAX then Reject(Storage)
      else if nonce in db.requestNonces then Reject(Unauthorized)
      else
        match ReadEnvelopes(r.queueId, Select(db.messages, InQueueAfter(r.queueId, now)))
        case None => Reject(Storage)
        case Some(envelopes) =>
          Accept(Fetched(envelopes), AddNonce(nonce, r.validUntil), Some("mailbox_fetched"))
  }

  function DecideAcknowledge(c: Crypto, db: Tables, r: AckRequest, now: U64): Decision {
    var key := MessageKey(r.queueId, r.messageId);
    match Authenticate(c, db, r.queueId, ReceiveKey, AckStatementOf(r), r.signature)
    case Some(e) => Reject(e)
    case None =>
      match Find(db.messages, key)
      case None =>
        if key in db.tombstones
        then Accept(Acked(AlreadyDeleted), NoChange, Some("message_ack_duplicate"))
        else Reject(MessageNotFound)
      case Some(row) =>
        var until := SaturatingAdd(now, TOMBSTONE_TTL_SECONDS);
        if c.digest(row.ciphertext) != r.packetHash then Reject(Unauthorized)
        else if until > I64_MAX then Reject(Storage)
        else Accept(Acked(Deleted), BuryMessage(key, until),
                    Some("message_acknowledged_and_deleted"))
  }

  function DecideDelete(c: Crypto, db: Tables, r: DeleteMailboxRequest, now: U64): Decision {
    match Authenticate(c, db, r.queueId, ManageKey, DeleteStatementOf(r), r.signature)
    case Some(e) => Reject(e)
    case None =>
      if r.validUntil > I64_MAX then Reject(Storage)
      else if NonceKey(r.queueId, Manage, r.nonce) in db.requestNonces then Reject(Unauthorized)
      else Accept(MailboxDeleted(r.queueId in db.mailboxes),
                  RetireMailbox(r.queueId, c.digest(r.queueId), now), Some("mailbox_deleted"))
  }

  /** A command's decision on swept tables; `removed` messages went with the sweep. */
  function Decide(c: Crypto, db: Tables, removed: nat, cmd: Command, now: U64): Decision {
    var swept := if removed > 0 then Some("expired_messages_deleted") else None;
    match cmd
    case Register(r) => DecideRegister(c, db, r, now)
    case Enqueue(r) => DecideEnqueue(c, db, r, now)
    case Fetch(r) => DecideFetch(c, db, r, now)
    case Acknowledge(r) => DecideAcknowledge(c, db, r, now)
    case DeleteMailbox(r) => DecideDelete(c, db, r, now)
    case CountQueued => Accept(Counted(|db.messages|), NoChange, swept)
    case PurgeExpired => Accept(Purged(removed), NoChange, swept)
    case Reopen => Accept(Opened, NoChange, None)
  }

  function Expired(rows: seq<MessageRow>, now: int): nat {
    if rows == [] then 0 else (if rows[0].expiresAt <= now then 1 else 0) + Expired(rows[1..], now)
  }

  /** The whole transaction of a command against the committed tables. */
  function Transact(c: Crypto, db: Tables, cmd: Command, now: U64): Decision {
    match Precheck(c, cmd, now)
    case Some(e) => Reject(e)
    case None =>
      if now > I64_MAX then Reject(Storage)
      else Decide(c, Sweep(db, now), Expired(db.messages, now), cmd, now)
  }

  /** A mailbox is deleted with every row that references it. */
  function Cascade(db: Tables, q: Blob): Tables {
    db.(mailboxes := db.mailboxes - {q},
        messages := Select(db.messages, InOtherQueue(q)),
        tombstones := map k | k in db.tombstones && k.queueId != q :: db.tombstones[k],
        requestNonces := map k | k in db.requestNonces && k.queueId != q :: db.requestNonces[k])
  }

  /** `INSERT OR IGNORE`. */
  function InsertOrIgnore<K(==)>(m: map<K, int>, k: K, v: int): map<K, int> {
    if k in m then m else m[k := v]
  }

  function Perform(db: Tables, change: Change): Tables {
    match change
    case NoChange => db
    case AddMailbox(q, mailbox, registration, until) =>
      db.(mailboxes := db.mailboxes[q := mailbox],
          registrationNonces := db.registrationNonces[registration := until])
    case NoteRegistration(registration, until) =>
      db.(registrationNonces := InsertOrIgnore(db.registrationNonces, registration, until))
    case AddMessage(row) => db.(messages := db.messages + [row])
    case AddNonce(nonce, until) => db.(requestNonces := db.requestNonces[nonce := until])
    case BuryMessage(key, until) =>
      db.(messages := Select(db.messages, HasOtherKey(key)),
          tombstones := db.tombstones[key := until])
    case RetireMailbox(q, hash, at) =>
      Cascade(db.(retiredQueues := InsertOrIgnore(db.retiredQueues, hash, at)), q)
  }

  /** The committed tables after a command. */
  function Next(c: Crypto, db: Tables, cmd: Command, now: U64): Tables {
    match Transact(c, db, cmd, now)
    case Reject(_) => db
    case Accept(_, change, _) => Perform(Sweep(db, now), change)
  }

  function ReplyTo(c: Crypto, db: Tables, cmd: Command, now: U64): Reply {
    match Transact(c, db, cmd, now)
    case Reject(e) => Failed(e)
    case Accept(reply, _, _) => reply
  }

  /** The audit log after a command; a reopened relay starts a new one. */
  function Audit(c: Crypto, db: Tables, log: seq<string>, cmd: Command, now: U64): seq<string> {
    match Transact(c, db, cmd, now)
    case Reject(_) => log
    case Accept(_, _, event) =>
      if cmd.Reopen? then [] else if event.Some? then log + [event.value] else log
  }

  // ---- Opening a database ----

  datatype SchemaKind = EmptySchema | LegacySchema | CurrentSchema | UnknownSchema

  /** The data effect of migrating a legacy database: its messages carry no sender signature
      and are dropped. */
  function Migrate(db: Tables): Tables {
    db.(messages := [])
  }

  /** The tables a relay starts on: the schema version and kind decide, then the sweep. */
  function Initialized(version: int, kind: SchemaKind, db: Tables, now: U64): Result<Tables> {
    if now > I64_MAX then Err(Storage)
    else
      match kind
      case CurrentSchema => if version == 2 then Ok(Sweep(db, now)) else Err(Storage)
      case EmptySchema => if version == 0 || version == 1 then Ok(Sweep(EMPTY, now)) else Err(Storage)
      case LegacySchema => if version == 0 || version == 1 then Ok(Sweep(Migrate(db), now)) else Err(Storage)
      case UnknownSchema => Err(Storage)
  }

  // ---- What an accepted change rests on ----

  /** The row is well formed and within the size limit, and its sender signature verifies over its own columns under the
      mailbox's send key. */
  ghost predicate Authentic(c: Crypto, db: Tables, row: MessageRow) {
    && row.queueId in db.mailboxes
    && |row.queueId| == 32 && |row.messageId| == 16 && |row.senderSignature| == 64
    && 0 <= row.expiresAt <= I64_MAX
    && 1 <= |row.ciphertext| <= MAX_PACKET_BYTES
    && c.attests(db.mailboxes[row.queueId].sendKey,
                 SendStatement(row.queueId, row.messageId, c.digest(row.ciphertext), row.expiresAt),
                 row.senderSignature)
  }

  /** What is known of the swept tables and the clock when a change is accepted. */
  ghost predicate Grounded(c: Crypto, db: Tables, change: Change, now: int) {
    match change
    case NoChange => true
    case AddMailbox(q, _, registration, until) =>
      && q !in db.mailboxes
      && c.digest(q) !in db.retiredQueues
      && registration.queueId == q
      && now < until <= now + MAX_REQUEST_SECONDS
    case NoteRegistration(registration, until) =>
      && registration.queueId in db.mailboxes
      && now < until <= now + MAX_REQUEST_SECONDS
    case AddMessage(row) =>
      && Authentic(c, db, row)
      && row.Key() !in db.tombstones
      && !HasKey(db.messages, row.Key())
      && now < row.expiresAt <= now + MAX_MESSAGE_TTL_SECONDS
    case AddNonce(nonce, until) =>
      && nonce.queueId in db.mailboxes
      && nonce.role == Receive
      && nonce !in db.requestNonces
      && now < until <= now + MAX_REQUEST_SECONDS
    case BuryMessage(key, until) =>
      && key.queueId in db.mailboxes
      && HasKey(db.messages, key)
      && until == now + TOMBSTONE_TTL_SECONDS
    case RetireMailbox(q, hash, _) =>
      && q in db.mailboxes
      && hash == c.digest(q)
  }

  lemma AcceptedIsGrounded(c: Crypto, db: Tables, cmd: Command, now: U64)
    requires Transact(c, db, cmd, now).Accept?
    ensures Grounded(c, Sweep(db, now), Transact(c, db, cmd, now).change, now)
    ensures now <= I64_MAX
  {
    var swept := Sweep(db, now);
    match cmd
    case Enqueue(r) => EnqueueIsGrounded(c, swept, r, now);
    case Acknowledge(r) => AcknowledgeIsGrounded(c, swept, r, now);
    case _ =>
  }

  lemma EnqueueIsGrounded(c: Crypto, db: Tables, r: SendRequest, now: U64)
    requires DecideEnqueue(c, db, r, now).Accept? && Precheck(c, Enqueue(r), now) == None
    requires forall k :: k in db.tombstones ==> db.tombstones[k] > now
    ensures Grounded(c, db, DecideEnqueue(c, db, r, now).change, now)
  {
    FindFinds(db.messages, MessageKey(r.queueId, r.messageId));
  }

  lemma AcknowledgeIsGrounded(c: Crypto, db: Tables, r: AckRequest, now: U64)
    requires DecideAcknowledge(c, db, r, now).Accept?
    ensures Grounded(c, db, DecideAcknowledge(c, db, r, now).change, now)
  {
    FindFinds(db.messages, MessageKey(r.queueId, r.messageId));
  }
}
