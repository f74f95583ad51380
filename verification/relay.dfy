/** The relay itself: an object over a database connection. Each command runs in a
    transaction that is committed or dropped, and is proved to do what `Commands` decides. */
module RelayServer {
  import opened Bytes
  import opened LabErrors
  import opened Capability
  import opened Schema
  import opened Commands

  /** `DELETE FROM ... WHERE delete_after <= now` on one table of deadlines. */
  method DeleteDue<K(==)>(deadlines: map<K, int>, now: int) returns (kept: map<K, int>)
    ensures kept == Live(deadlines, now)
  {
    kept := deadlines;
    var todo := deadlines.Keys;
    while todo != {}
      invariant todo <= deadlines.Keys
      invariant kept.Keys == todo + Live(deadlines, now).Keys
      invariant forall k :: k in kept ==> kept[k] == deadlines[k]
      decreases todo
    {
      var k :| k in todo;
      if deadlines[k] <= now {
        kept := kept - {k};
      }
      todo := todo - {k};
    }
  }

  /** A signature check over the canonical bytes of a statement. */
  method Verify(p: Primitives, key: Blob, statement: Statement, signature: Blob) returns (ok: bool)
    ensures ok == Over(p).attests(key, statement, signature)
  {
    var message := Canonical(Action(statement), Parts(statement));
    assert message == SigningBytes(statement);
    ok := p.verify(key, message, signature);
  }

  /** An open transaction: a private copy of the six tables. */
  class Transaction {
    var mailboxes: map<Blob, Mailbox>
    var messages: seq<MessageRow>
    var tombstones: map<MessageKey, int>
    var requestNonces: map<NonceKey, int>
    var registrationNonces: map<RegistrationKey, int>
    var retiredQueues: map<Blob, int>

    function View(): Tables
      reads this
    {
      Tables(mailboxes, messages, tombstones, requestNonces, registrationNonces, retiredQueues)
    }

    constructor (db: Tables)
      ensures View() == db
    {
      mailboxes, messages, tombstones := db.mailboxes, db.messages, db.tombstones;
      requestNonces, registrationNonces := db.requestNonces, db.registrationNonces;
      retiredQueues := db.retiredQueues;
    }

    /** `purge_expired_in`. */
    method PurgeExpired(now: U64) returns (removed: Result<nat>)
      modifies this
      ensures now > I64_MAX ==> removed == Err(Storage) && View() == old(View())
      ensures now <= I64_MAX ==>
                && removed == Ok(Expired(old(messages), now))
                && View() == Sweep(old(View()), now)
    {
      if now > I64_MAX {
        return Err(Storage);
      }
      var kept, count := [], 0;
      for i := 0 to |messages|
        invariant messages == old(messages) && unchanged(this)
        invariant kept + Unexpired(messages[i..], now) == Unexpired(messages, now)
        invariant count + Expired(messages[i..], now) == Expired(messages, now)
      {
        assert messages[i..][1..] == messages[i + 1..];
        if messages[i].expiresAt <= now {
          count := count + 1;
        } else {
          kept := kept + [messages[i]];
        }
      }
      messages := kept;
      tombstones := DeleteDue(tombstones, now);
      requestNonces := DeleteDue(requestNonces, now);
      registrationNonces := DeleteDue(registrationNonces, now);
      return Ok(count);
    }

    /** `mailbox_key`. */
    method MailboxKeyOf(p: Primitives, q: Blob, column: KeyColumn) returns (key: Result<Blob>)
      ensures key == MailboxKey(Over(p), View(), q, column)
    {
      if q !in mailboxes {
        return Err(MailboxNotFound);
      }
      var bytes := KeyOf(mailboxes[q], column);
      if |bytes| != 32 || !p.keyParses(bytes) {
        return Err(Storage);
      }
      return Ok(bytes);
    }

    /** The key lookup followed by the signature check. */
    method Check(p: Primitives, q: Blob, column: KeyColumn, statement: Statement, signature: Blob)
      returns (failure: Option<LabError>)
      ensures failure == Authenticate(Over(p), View(), q, column, statement, signature)
    {
      var key := MailboxKeyOf(p, q, column);
      match key
      case Err(e) => failure := Some(e);
      case Ok(k) =>
        var ok := Verify(p, k, statement, signature);
        failure := if ok then None else Some(Unauthorized);
    }

    /** `record_nonce`: `INSERT OR IGNORE`, refused unless a row was inserted. */
    method RecordNonce(nonce: NonceKey, deleteAfter: U64) returns (failure: Option<LabError>)
      modifies this`requestNonces
      ensures failure ==
              if deleteAfter > I64_MAX then Some(Storage)
              else if nonce in old(requestNonces) then Some(Unauthorized) else None
      ensures failure.None? ==> requestNonces == old(requestNonces)[nonce := deleteAfter]
      ensures failure.Some? ==> requestNonces == old(requestNonces)
    {
      if deleteAfter > I64_MAX {
        return Some(Storage);
      }
      if nonce in requestNonces {
        return Some(Unauthorized);
      }
      requestNonces := requestNonces[nonce := deleteAfter];
      return None;
    }

    /** `SELECT ... FROM messages WHERE queue_id = ? AND message_id = ?`. */
    method FindMessage(key: MessageKey) returns (row: Option<MessageRow>)
      ensures row == Find(messages, key)
    {
      for i := 0 to |messages|
        invariant Find(messages[i..], key) == Find(messages, key)
      {
        assert messages[i..][1..] == messages[i + 1..];
        if messages[i].Key() == key {
          return Some(messages[i]);
        }
      }
      return None;
    }

    /** `SELECT ... WHERE queue_id = ? AND expires_at > ? ORDER BY rowid`, each row parsed. */
    method ReadQueue(q: QueueId, now: U64) returns (envelopes: Option<seq<StoredEnvelope>>)
      ensures envelopes == ReadEnvelopes(q, Select(messages, InQueueAfter(q, now)))
    {
      ghost var all := ReadEnvelopes(q, Select(messages, InQueueAfter(q, now)));
      var found: seq<StoredEnvelope> := [];
      assert messages[0..] == messages;
      for i := 0 to |messages|
        invariant var rest := ReadEnvelopes(q, Select(messages[i..], InQueueAfter(q, now)));
                  && (all.Some? <==> rest.Some?)
                  && (all.Some? ==> all.value == found + rest.value)
      {
        ghost var rest := Select(messages[i + 1..], InQueueAfter(q, now));
        assert messages[i..][1..] == messages[i + 1..];
        if messages[i].queueId == q && messages[i].expiresAt > now {
          assert Select(messages[i..], InQueueAfter(q, now)) == [messages[i]] + rest;
          ReadCons(q, messages[i], rest);
          var envelope := ReadEnvelope(q, messages[i]);
          if envelope.None? {
            return None;
          }
          found := found + [envelope.value];
        } else {
          assert Select(messages[i..], InQueueAfter(q, now)) == rest;
        }
      }
      assert messages[|messages|..] == [] && all.value == found;
      return Some(found);
    }

    /** `DELETE FROM messages WHERE queue_id = ? AND message_id = ?`. */
    method DeleteMessage(key: MessageKey)
      modifies this`messages
      ensures messages == Select(old(messages), HasOtherKey(key))
    {
      var kept := [];
      for i := 0 to |messages|
        invariant messages == old(messages)
        invariant kept + Select(messages[i..], HasOtherKey(key)) == Select(messages, HasOtherKey(key))
      {
        assert messages[i..][1..] == messages[i + 1..];
        if messages[i].Key() != key {
          kept := kept + [messages[i]];
        }
      }
      messages := kept;
    }

    /** `DELETE FROM messages WHERE queue_id = ?`, by the foreign key. */
    method DeleteMessagesOf(q: Blob)
      modifies this`messages
      ensures messages == Select(old(messages), InOtherQueue(q))
    {
      var kept := [];
      for i := 0 to |messages|
        invariant messages == old(messages)
        invariant kept + Select(messages[i..], InOtherQueue(q)) == Select(messages, InOtherQueue(q))
      {
        assert messages[i..][1..] == messages[i + 1..];
        if messages[i].queueId != q {
          kept := kept + [messages[i]];
        }
      }
      messages := kept;
    }

    /** `DELETE FROM mailboxes WHERE queue_id = ?`, with its `ON DELETE CASCADE`s. */
    method DeleteMailboxRow(q: Blob) returns (deleted: nat)
      modifies this
      ensures View() == Cascade(old(View()), q)
      ensures deleted == if q in old(mailboxes) then 1 else 0
    {
      deleted := if q in mailboxes then 1 else 0;
      mailboxes := mailboxes - {q};
      DeleteMessagesOf(q);
      tombstones := map k | k in tombstones && k.queueId != q :: tombstones[k];
      requestNonces := map k | k in requestNonces && k.queueId != q :: requestNonces[k];
    }

    // ---- The commands, inside the transaction ----

    /** The reply to an accepted command, or its rejection; what a rejected command leaves in
        the transaction is dropped with it. */
    ghost predicate Did(before: Tables, decision: Decision, reply: Result<Reply>)
      reads this
    {
      match decision
      case Reject(e) => reply == Err(e)
      case Accept(r, change, _) => reply == Ok(r) && View() == Perform(before, change)
    }

    method Register(p: Primitives, request: MailboxRegistration, now: U64) returns (reply: Result<Reply>)
      modifies this
      ensures Did(old(View()), DecideRegister(Over(p), old(View()), request, now), reply)
    {
      if p.digest(request.queueId) in retiredQueues {
        return Err(MailboxConflict);
      }
      var registration := RegistrationKey(request.queueId, request.nonce);
      if request.queueId in mailboxes {
        var known := mailboxes[request.queueId];
        if known.sendKey != request.sendKey || known.receiveKey != request.receiveKey
           || known.manageKey != request.manageKey {
          return Err(MailboxConflict);
        }
        if request.validUntil > I64_MAX {
          return Err(Storage);
        }
        if registration !in registrationNonces {
          registrationNonces := registrationNonces[registration := request.validUntil];
        }
        return Ok(Registered(false));
      }
      if request.validUntil > I64_MAX {
        return Err(Storage);
      }
      if registration in registrationNonces {
        return Err(Unauthorized);
      }
      registrationNonces := registrationNonces[registration := request.validUntil];
      mailboxes := mailboxes[request.queueId :=
        Mailbox(request.sendKey, request.receiveKey, request.manageKey, now)];
      return Ok(Registered(true));
    }

    method Enqueue(p: Primitives, request: SendRequest, now: U64) returns (reply: Result<Reply>)
      modifies this
      ensures Did(old(View()), DecideEnqueue(Over(p), old(View()), request, now), reply)
    {
      var statement := SendStatement(request.queueId, request.messageId, p.digest(request.packet),
                                     request.expiresAt);
      var failure := Check(p, request.queueId, SendKey, statement, request.signature);
      if failure.Some? {
        return Err(failure.value);
      }
      var key := MessageKey(request.queueId, request.messageId);
      if key in tombstones && tombstones[key] > now {
        return Err(MessageGone);
      }
      var existing := FindMessage(key);
      if existing.Some? {
        if existing.value.ciphertext == request.packet {
          if request.expiresAt > I64_MAX {
            return Err(Storage);
          }
          if existing.value.expiresAt == request.expiresAt {
            return Ok(Enqueued(Duplicate));
          }
        }
        return Err(MessageConflict);
      }
      if request.expiresAt > I64_MAX {
        return Err(Storage);
      }
      messages := messages + [MessageRow(request.queueId, request.messageId, request.packet,
                                         request.expiresAt, request.signature)];
      return Ok(Enqueued(Stored));
    }

    method Fetch(p: Primitives, request: FetchRequest, now: U64) returns (reply: Result<Reply>)
      modifies this
      ensures Did(old(View()), DecideFetch(Over(p), old(View()), request, now), reply)
    {
      var failure := Check(p, request.queueId, ReceiveKey, FetchStatementOf(request), request.signature);
      if failure.Some? {
        return Err(failure.value);
      }
      failure := RecordNonce(NonceKey(request.queueId, Receive, request.nonce), request.validUntil);
      if failure.Some? {
        return Err(failure.value);
      }
      var envelopes := ReadQueue(request.queueId, now);
      if envelopes.None? {
        return Err(Storage);
      }
      return Ok(Fetched(envelopes.value));
    }

    method Acknowledge(p: Primitives, request: AckRequest, now: U64) returns (reply: Result<Reply>)
      modifies this
      ensures Did(old(View()), DecideAcknowledge(Over(p), old(View()), request, now), reply)
    {
      var failure := Check(p, request.queueId, ReceiveKey, AckStatementOf(request), request.signature);
      if failure.Some? {
        return Err(failure.value);
      }
      var key := MessageKey(request.queueId, request.messageId);
      var existing := FindMessage(key);
      if existing.None? {
        if key in tombstones {
          return Ok(Acked(AlreadyDeleted));
        }
        return Err(MessageNotFound);
      }
      if p.digest(existing.value.ciphertext) != request.packetHash {
        return Err(Unauthorized);
      }
      DeleteMessage(key);
      var until := SaturatingAdd(now, TOMBSTONE_TTL_SECONDS);
      if until > I64_MAX {
        return Err(Storage);
      }
      tombstones := tombstones[key := until];
      return Ok(Acked(Deleted));
    }

    method DeleteMailbox(p: Primitives, request: DeleteMailboxRequest, now: U64) returns (reply: Result<Reply>)
      modifies this
      ensures Did(old(View()), DecideDelete(Over(p), old(View()), request, now), reply)
    {
      var q := request.queueId;
      var failure := Check(p, q, ManageKey, DeleteStatementOf(request), request.signature);
      if failure.Some? {
        return Err(failure.value);
      }
      failure := RecordNonce(NonceKey(q, Manage, request.nonce), request.validUntil);
      if failure.Some? {
        return Err(failure.value);
      }
      var hash := p.digest(q);
      if hash !in retiredQueues {
        retiredQueues := retiredQueues[hash := now];
      }
      var deleted := DeleteMailboxRow(q);
      assert requestNonces == Perform(old(View()), RetireMailbox(q, hash, now)).requestNonces;
      return Ok(MailboxDeleted(deleted == 1));
    }
  }

  /** `open_at`, once the schema has been classified: migrate and sweep in one transaction. */
  method OpenAt(p: Primitives, version: int, kind: SchemaKind, stored: Tables, now: U64) returns (r: Result<Relay>)
    ensures r.Ok? <==> Initialized(version, kind, stored, now).Ok?
    ensures r.Ok? ==> && fresh(r.value) && r.value.p == p && r.value.auditEvents == []
                      && Ok(r.value.db) == Initialized(version, kind, stored, now)
    ensures r.Err? ==> r.error == Storage
  {
    if version < 0 || version > 2 || kind == UnknownSchema || (version == 2) != (kind == CurrentSchema) {
      return Err(Storage);
    }
    var tx := new Transaction(if kind == EmptySchema then EMPTY else stored);
    if kind == LegacySchema {
      tx.messages := [];
    }
    var purged := tx.PurgeExpired(now);
    if purged.Err? {
      return Err(purged.error);
    }
    var relay := new Relay(p, tx.View());
    return Ok(relay);
  }

  lemma ReadCons(q: QueueId, row: MessageRow, rows: seq<MessageRow>)
    ensures ReadEnvelopes(q, [row] + rows) ==
            if ReadEnvelope(q, row).Some? && ReadEnvelopes(q, rows).Some?
            then Some([ReadEnvelope(q, row).value] + ReadEnvelopes(q, rows).value) else None
  {
    assert ([row] + rows)[1..] == rows;
  }

  function AsResult(reply: Reply): Result<Reply> {
    if reply.Failed? then Err(reply.error) else Ok(reply)
  }

  class Relay {
    const p: Primitives
    var db: Tables
    var auditEvents: seq<string>

    /** A relay over the tables it was opened on. */
    constructor (p: Primitives, db: Tables)
      ensures this.p == p && this.db == db && auditEvents == []
    {
      this.p, this.db, auditEvents := p, db, [];
    }

    /** The command and the reply it gave have the effect `Commands` says, on the tables and
        on the audit log. */
    ghost predicate Did(before: Tables, log: seq<string>, cmd: Command, now: U64, r: Result<Reply>)
      reads this
    {
      && r == AsResult(ReplyTo(Over(p), before, cmd, now))
      && db == Next(Over(p), before, cmd, now)
      && auditEvents == Audit(Over(p), before, log, cmd, now)
    }

    method Commit(tx: Transaction, event: string)
      modifies this
      ensures db == tx.View() && auditEvents == old(auditEvents) + [event]
    {
      db := tx.View();
      auditEvents := auditEvents + [event];
    }

    method Register(request: MailboxRegistration, now: U64) returns (r: Result<Reply>)
      modifies this
      ensures Did(old(db), old(auditEvents), Commands.Register(request), now, r)
      ensures r.Err? ==> db == old(db) && auditEvents == old(auditEvents)
    {
      if !InWindow(request.validUntil, now, MAX_REQUEST_SECONDS) {
        return Err(RequestExpired);
      }
      var ok := Verify(p, request.manageKey, RegistrationStatement(request), request.signature);
      if !ok {
        return Err(Unauthorized);
      }
      var tx := new Transaction(db);
      var purged := tx.PurgeExpired(now);
      if purged.Err? {
        return Err(purged.error);
      }
      r := tx.Register(p, request, now);
      if r.Ok? {
        Commit(tx, if r.value.isNew then "mailbox_registered" else "mailbox_registration_duplicate");
      }
    }

    method Enqueue(request: SendRequest, now: U64) returns (r: Result<Reply>)
      modifies this
      ensures Did(old(db), old(auditEvents), Commands.Enqueue(request), now, r)
      ensures r.Err? ==> db == old(db) && auditEvents == old(auditEvents)
    {
      if request.packet == [] || |request.packet| > MAX_PACKET_BYTES {
        return Err(InvalidPayload);
      }
      if !InWindow(request.expiresAt, now, MAX_MESSAGE_TTL_SECONDS) {
        return Err(InvalidExpiry);
      }
      var tx := new Transaction(db);
      var purged := tx.PurgeExpired(now);
      if purged.Err? {
        return Err(purged.error);
      }
      r := tx.Enqueue(p, request, now);
      if r.Ok? {
        Commit(tx, if r.value == Enqueued(Stored) then "message_enqueued" else "message_enqueue_duplicate");
      }
    }

    method Fetch(request: FetchRequest, now: U64) returns (r: Result<Reply>)
      modifies this
      ensures Did(old(db), old(auditEvents), Commands.Fetch(request), now, r)
      ensures r.Err? ==> db == old(db) && auditEvents == old(auditEvents)
    {
      if !InWindow(request.validUntil, now, MAX_REQUEST_SECONDS) {
        return Err(RequestExpired);
      }
      var tx := new Transaction(db);
      var purged := tx.PurgeExpired(now);
      if purged.Err? {
        return Err(purged.error);
      }
      r := tx.Fetch(p, request, now);
      if r.Ok? {
        Commit(tx, "mailbox_fetched");
      }
    }

    method Acknowledge(request: AckRequest, now: U64) returns (r: Result<Reply>)
      modifies this
      ensures Did(old(db), old(auditEvents), Commands.Acknowledge(request), now, r)
      ensures r.Err? ==> db == old(db) && auditEvents == old(auditEvents)
    {
      if !InWindow(request.validUntil, now, MAX_REQUEST_SECONDS) {
        return Err(RequestExpired);
      }
      var tx := new Transaction(db);
      var purged := tx.PurgeExpired(now);
      if purged.Err? {
        return Err(purged.error);
      }
      r := tx.Acknowledge(p, request, now);
      if r.Ok? {
        Commit(tx, if r.value == Acked(Deleted) then "message_acknowledged_and_deleted"
                   else "message_ack_duplicate");
      }
    }

    method DeleteMailbox(request: DeleteMailboxRequest, now: U64) returns (r: Result<Reply>)
      modifies this
      ensures Did(old(db), old(auditEvents), Commands.DeleteMailbox(request), now, r)
      ensures r.Err? ==> db == old(db) && auditEvents == old(auditEvents)
    {
      if !InWindow(request.validUntil, now, MAX_REQUEST_SECONDS) {
        return Err(RequestExpired);
      }
      var tx := new Transaction(db);
      var purged := tx.PurgeExpired(now);
      if purged.Err? {
        return Err(purged.error);
      }
      r := tx.DeleteMailbox(p, request, now);
      if r.Ok? {
        Commit(tx, "mailbox_deleted");
      }
    }

    method PurgeExpired(now: U64) returns (r: Result<Reply>)
      modifies this
      ensures Did(old(db), old(auditEvents), Commands.PurgeExpired, now, r)
      ensures r.Err? ==> db == old(db) && auditEvents == old(auditEvents)
    {
      var tx := new Transaction(db);
      var purged := tx.PurgeExpired(now);
      if purged.Err? {
        return Err(purged.error);
      }
      db := tx.View();
      if purged.value > 0 {
        auditEvents := auditEvents + ["expired_messages_deleted"];
      }
      return Ok(Purged(purged.value));
    }

    method QueuedMessageCountAt(now: U64) returns (r: Result<Reply>)
      modifies this
      ensures Did(old(db), old(auditEvents), CountQueued, now, r)
      ensures r.Err? ==> db == old(db) && auditEvents == old(auditEvents)
    {
      r := PurgeExpired(now);
      if r.Ok? {
        r := Ok(Counted(|db.messages|));
      }
    }

    /** Counts without sweeping: at any time the result is at least the number of tombstones in
        force, and exactly that when none is due. */
    method TombstoneCount() returns (count: nat)
      ensures count == |db.tombstones|
      ensures forall now: int :: |Live(db.tombstones, now)| <= count
      ensures forall now: int ::
                |Live(db.tombstones, now)| == count <==> forall k :: k in db.tombstones ==> db.tombstones[k] > now
    {
      forall now: int
        ensures |Live(db.tombstones, now)| <= |db.tombstones|
        ensures |Live(db.tombstones, now)| == |db.tombstones| <==>
                forall k :: k in db.tombstones ==> db.tombstones[k] > now
      {
        LiveCount(db.tombstones, now);
      }
      count := |db.tombstones|;
    }
  }
}
