/** The invariant of the six tables, its preservation by every command, and what it rules out. */
module Consistency {
  import opened Bytes
  import opened LabErrors
  import opened Capability
  import opened Schema
  import opened Commands
  import opened Runs

  /** No two rows have the same primary key. */
  ghost predicate Distinct(rows: seq<MessageRow>) {
    rows == [] || (!HasKey(rows[1..], rows[0].Key()) && Distinct(rows[1..]))
  }

  /** The foreign keys of tombstones and request nonces; those of messages are in `Authentic`. */
  ghost predicate Referential(db: Tables) {
    && (forall k :: k in db.tombstones ==> k.queueId in db.mailboxes)
    && (forall k :: k in db.requestNonces ==> k.queueId in db.mailboxes)
  }

  /** The part of the invariant that does not speak of messages. */
  ghost predicate Accounted(c: Crypto, db: Tables) {
    && Referential(db)
    && (forall k :: k in db.requestNonces ==> k.role == Receive)
    && (forall k :: k in db.registrationNonces ==>
          k.queueId in db.mailboxes || c.digest(k.queueId) in db.retiredQueues)
  }

  ghost predicate Consistent(c: Crypto, db: Tables) {
    && Accounted(c, db)
    && Distinct(db.messages)
    && (forall r :: r in db.messages ==> r.Key() !in db.tombstones)
    && (forall r :: r in db.messages ==> Authentic(c, db, r))
  }

  /** Every stored key parses, so `mailbox_key` fails only for a missing mailbox. */
  ghost predicate Usable(c: Crypto, db: Tables) {
    forall q :: q in db.mailboxes ==> UsableMailbox(c, db.mailboxes[q])
  }

  ghost predicate UsableMailbox(c: Crypto, mailbox: Mailbox) {
    forall column: KeyColumn :: |KeyOf(mailbox, column)| == 32 && c.keyParses(KeyOf(mailbox, column))
  }

  /** Keys in a request are parsed keys, by their type. */
  ghost predicate Typed(c: Crypto, cmd: Command) {
    cmd.Register? ==>
      var r := cmd.registration;
      c.keyParses(r.sendKey) && c.keyParses(r.receiveKey) && c.keyParses(r.manageKey)
  }

  // ---- Preservation ----

  lemma {:induction false} DistinctSelect(rows: seq<MessageRow>, keep: MessageRow -> bool)
    requires Distinct(rows)
    ensures Distinct(Select(rows, keep))
  {
    if rows == [] {
    } else {
      DistinctSelect(rows[1..], keep);
      SelectMembers(rows[1..], keep);
      var kept := Select(rows[1..], keep);
      assert Select(rows, keep) == (if keep(rows[0]) then [rows[0]] + kept else kept);
      assert keep(rows[0]) ==> ([rows[0]] + kept)[1..] == kept;
    }
  }

  lemma {:induction false} DistinctAppend(rows: seq<MessageRow>, row: MessageRow)
    requires Distinct(rows) && !HasKey(rows, row.Key())
    ensures Distinct(rows + [row])
  {
    if rows == [] {
      assert ([] + [row])[1..] == [];
    } else {
      assert rows[0] in rows;
      DistinctAppend(rows[1..], row);
      assert (rows + [row])[1..] == rows[1..] + [row];
    }
  }

  lemma ConsistentSwept(c: Crypto, db: Tables, now: int)
    requires Consistent(c, db)
    ensures Consistent(c, Sweep(db, now))
  {
    SelectMembers(db.messages, ExpiresAfter(now));
    DistinctSelect(db.messages, ExpiresAfter(now));
  }

  lemma ConsistentKept(c: Crypto, db: Tables, change: Change, now: int)
    requires Consistent(c, db) && Grounded(c, db, change, now)
    ensures Consistent(c, Perform(db, change))
  {
    match change
    case AddMessage(row) => DistinctAppend(db.messages, row);
    case BuryMessage(key, until) => ConsistentBuried(c, db, key, until);
    case RetireMailbox(q, hash, at) => ConsistentRetired(c, db, q, at);
    case AddMailbox(q, _, _, _) =>
      forall r | r in db.messages ensures Authentic(c, Perform(db, change), r) {
        AuthenticElsewhere(c, db, Perform(db, change), r);
      }
    case _ =>
  }

  lemma AuthenticElsewhere(c: Crypto, db: Tables, next: Tables, r: MessageRow)
    requires Authentic(c, db, r)
    requires r.queueId in next.mailboxes && next.mailboxes[r.queueId] == db.mailboxes[r.queueId]
    ensures Authentic(c, next, r)
  {
  }

  lemma ConsistentBuried(c: Crypto, db: Tables, key: MessageKey, until: int)
    requires Consistent(c, db) && key.queueId in db.mailboxes
    ensures Consistent(c, Perform(db, BuryMessage(key, until)))
  {
    SelectMembers(db.messages, HasOtherKey(key));
    DistinctSelect(db.messages, HasOtherKey(key));
  }

  lemma ConsistentRetired(c: Crypto, db: Tables, q: Blob, at: int)
    requires Consistent(c, db)
    ensures Consistent(c, Perform(db, RetireMailbox(q, c.digest(q), at)))
  {
    var next := Perform(db, RetireMailbox(q, c.digest(q), at));
    AccountedRetired(c, db, q, at);
    SelectMembers(db.messages, InOtherQueue(q));
    DistinctSelect(db.messages, InOtherQueue(q));
    forall r | r in next.messages ensures r.Key() !in next.tombstones && Authentic(c, next, r) {
      AuthenticElsewhere(c, db, next, r);
    }
  }

  lemma AccountedRetired(c: Crypto, db: Tables, q: Blob, at: int)
    requires Accounted(c, db)
    ensures Accounted(c, Perform(db, RetireMailbox(q, c.digest(q), at)))
  {
  }

  lemma ConsistentNext(c: Crypto, db: Tables, cmd: Command, now: U64)
    requires Consistent(c, db)
    ensures Consistent(c, Next(c, db, cmd, now))
  {
    if Transact(c, db, cmd, now).Accept? {
      ConsistentSwept(c, db, now);
      AcceptedIsGrounded(c, db, cmd, now);
      ConsistentKept(c, Sweep(db, now), Transact(c, db, cmd, now).change, now);
    }
  }

  lemma UsableNext(c: Crypto, db: Tables, cmd: Command, now: U64)
    requires Usable(c, db) && Typed(c, cmd)
    ensures Usable(c, Next(c, db, cmd, now))
  {
    if Transact(c, db, cmd, now).Accept? {
      AddedMailboxIsUsable(c, db, cmd, now);
      UsableKept(c, Sweep(db, now), Transact(c, db, cmd, now).change);
    }
  }

  lemma AddedMailboxIsUsable(c: Crypto, db: Tables, cmd: Command, now: U64)
    requires Typed(c, cmd) && Transact(c, db, cmd, now).Accept?
    ensures var change := Transact(c, db, cmd, now).change;
            change.AddMailbox? ==> UsableMailbox(c, change.mailbox)
  {
  }

  lemma UsableKept(c: Crypto, db: Tables, change: Change)
    requires Usable(c, db) && (change.AddMailbox? ==> UsableMailbox(c, change.mailbox))
    ensures Usable(c, Perform(db, change))
  {
  }

  /** The invariant holds throughout every run that starts from it. */
  lemma {:induction false} ConsistentThroughout(c: Crypto, db: Tables, steps: seq<Step>, n: nat)
    requires n <= |steps| && Consistent(c, db) && Usable(c, db)
    requires forall i :: 0 <= i < |steps| ==> Typed(c, steps[i].cmd)
    ensures Consistent(c, After(c, db, steps, n)) && Usable(c, After(c, db, steps, n))
  {
    if n == 0 {
    } else {
      ConsistentThroughout(c, db, steps, n - 1);
      ConsistentNext(c, After(c, db, steps, n - 1), steps[n - 1].cmd, steps[n - 1].now);
      UsableNext(c, After(c, db, steps, n - 1), steps[n - 1].cmd, steps[n - 1].now);
    }
  }

  /** Whatever a relay opens, it starts consistent: an empty database is, a current one stays so,
      and migrating a legacy one establishes the invariant whatever its messages were. */
  lemma OpenedIsConsistent(c: Crypto, version: int, kind: SchemaKind, db: Tables, now: U64)
    requires Initialized(version, kind, db, now).Ok?
    requires kind == CurrentSchema ==> Consistent(c, db)
    requires kind == LegacySchema ==> Accounted(c, db)
    requires kind != EmptySchema ==> Usable(c, db)
    ensures Consistent(c, Initialized(version, kind, db, now).value)
    ensures Usable(c, Initialized(version, kind, db, now).value)
    ensures kind != CurrentSchema ==> Initialized(version, kind, db, now).value.messages == []
    ensures kind == CurrentSchema ==> Initialized(version, kind, db, now).value == Next(c, db, Reopen, now)
  {
    ConsistentSwept(c, if kind == EmptySchema then EMPTY else if kind == LegacySchema then Migrate(db) else db, now);
  }

  // ---- Deadlines ----

  /** Every deadline lies after `low` and within its own span after `high`. */
  ghost predicate Bounded(db: Tables, low: int, high: int) {
    && (forall r :: r in db.messages ==> low < r.expiresAt <= high + MAX_MESSAGE_TTL_SECONDS)
    && (forall k :: k in db.tombstones ==> low < db.tombstones[k] <= high + TOMBSTONE_TTL_SECONDS)
    && (forall k :: k in db.requestNonces ==> low < db.requestNonces[k] <= high + MAX_REQUEST_SECONDS)
    && (forall k :: k in db.registrationNonces ==>
          low < db.registrationNonces[k] <= high + MAX_REQUEST_SECONDS)
  }

  lemma BoundedSwept(db: Tables, low: int, high: int, now: int)
    requires Bounded(db, low, high) && high <= now
    ensures Bounded(Sweep(db, now), now, now)
  {
    SelectMembers(db.messages, ExpiresAfter(now));
  }

  lemma BoundedKept(c: Crypto, db: Tables, change: Change, now: int)
    requires Bounded(db, now, now) && Grounded(c, db, change, now)
    ensures Bounded(Perform(db, change), now, now)
  {
    match change
    case BuryMessage(key, _) => SelectMembers(db.messages, HasOtherKey(key));
    case RetireMailbox(q, _, _) => SelectMembers(db.messages, InOtherQueue(q));
    case _ =>
  }

  lemma BoundedNext(c: Crypto, db: Tables, cmd: Command, low: int, high: int, now: U64)
    requires Bounded(db, low, high) && low <= high <= now
    ensures Bounded(Next(c, db, cmd, now), low, now)
    ensures !ReplyTo(c, db, cmd, now).Failed? ==> Bounded(Next(c, db, cmd, now), now, now)
  {
    if Transact(c, db, cmd, now).Accept? {
      BoundedSwept(db, low, high, now);
      AcceptedIsGrounded(c, db, cmd, now);
      BoundedKept(c, Sweep(db, now), Transact(c, db, cmd, now).change, now);
    }
  }

  /** Retention is bounded: no deadline ever lies more than its span beyond the clock, and once
      a command has committed at `t` every message and every tombstone is due in
      (t, t + 604800] and every nonce in (t, t + 300]. */
  lemma {:induction false} RetentionIsBounded(c: Crypto, db: Tables, steps: seq<Step>, n: nat, low: int)
    requires Nondecreasing(steps) && n < |steps| && low <= steps[0].now
    requires Bounded(db, low, low)
    ensures Bounded(After(c, db, steps, n + 1), low, steps[n].now)
    ensures !ReplyAt(c, db, steps, n).Failed? ==>
              Bounded(After(c, db, steps, n + 1), steps[n].now, steps[n].now)
  {
    if n == 0 {
      BoundedNext(c, db, steps[0].cmd, low, low, steps[0].now);
    } else {
      RetentionIsBounded(c, db, steps, n - 1, low);
      assert steps[0].now <= steps[n - 1].now <= steps[n].now;
      BoundedNext(c, After(c, db, steps, n), steps[n].cmd, low, steps[n - 1].now, steps[n].now);
    }
  }

  // ---- What consistency rules out ----

  /** The reply to a registration, for every input: in its window, signed with the manage key over
      all six fields, and then decided by the queue alone. It is refused if the queue is retired
      or has other keys, and never for its nonce. */
  lemma RegistrationDecidedExactly(c: Crypto, db: Tables, r: MailboxRegistration, now: U64)
    requires Consistent(c, db)
    ensures ReplyTo(c, db, Register(r), now) ==
            if !(now < r.validUntil <= now + 300) then Failed(RequestExpired)
            else if !SignedByManager(c, r) then Failed(Unauthorized)
            else if now > I64_MAX then Failed(Storage)
            else if Retired(c, db, r.queueId) || (r.queueId in db.mailboxes && !SameKeys(db.mailboxes[r.queueId], r))
            then Failed(MailboxConflict)
            else if r.validUntil > I64_MAX then Failed(Storage)
            else Registered(r.queueId !in db.mailboxes)
  {
  }

  ghost predicate SignedByManager(c: Crypto, r: MailboxRegistration) {
    c.attests(r.manageKey,
              RegisterStatement(r.queueId, r.sendKey, r.receiveKey, r.manageKey, r.nonce, r.validUntil),
              r.signature)
  }

  ghost predicate Retired(c: Crypto, db: Tables, q: Blob) {
    c.digest(q) in db.retiredQueues
  }

  ghost predicate SameKeys(mailbox: Mailbox, r: MailboxRegistration) {
    mailbox.sendKey == r.sendKey && mailbox.receiveKey == r.receiveKey && mailbox.manageKey == r.manageKey
  }

  /** The upsert of an acknowledgement always inserts. */
  lemma UpsertNeverUpdates(c: Crypto, db: Tables, r: AckRequest, now: U64)
    requires Consistent(c, db)
    requires ReplyTo(c, db, Acknowledge(r), now) == Acked(Deleted)
    ensures MessageKey(r.queueId, r.messageId) !in db.tombstones
  {
    var key := MessageKey(r.queueId, r.messageId);
    FindFinds(Sweep(db, now).messages, key);
    SelectMembers(db.messages, ExpiresAfter(now));
  }

  /** Mailbox deletion succeeds exactly when the request is in its window, the mailbox exists
      and the signature is its manager's; it never answers `Ok(false)` and no nonce is ever in
      the way. */
  lemma DeletionSucceedsExactly(c: Crypto, db: Tables, r: DeleteMailboxRequest, now: U64)
    requires Consistent(c, db) && Usable(c, db)
    ensures ReplyTo(c, db, DeleteMailbox(r), now) == MailboxDeleted(true) <==>
            && InWindow(r.validUntil, now, MAX_REQUEST_SECONDS)
            && r.validUntil <= I64_MAX
            && r.queueId in db.mailboxes
            && c.attests(db.mailboxes[r.queueId].manageKey, DeleteStatementOf(r), r.signature)
    ensures ReplyTo(c, db, DeleteMailbox(r), now) != MailboxDeleted(false)
  {
  }

  lemma {:induction false} FindIsUnique(rows: seq<MessageRow>, row: MessageRow)
    requires Distinct(rows) && row in rows
    ensures Find(rows, row.Key()) == Some(row)
  {
    if rows[0] == row {
    } else {
      assert row in rows[1..];
      FindIsUnique(rows[1..], row);
    }
  }

  lemma {:induction false} RowsRead(q: QueueId, rows: seq<MessageRow>)
    requires forall r :: r in rows ==> ReadEnvelope(q, r).Some?
    ensures ReadEnvelopes(q, rows).Some?
    ensures |ReadEnvelopes(q, rows).value| == |rows|
    ensures forall i :: 0 <= i < |rows| ==>
              ReadEnvelope(q, rows[i]) == Some(ReadEnvelopes(q, rows).value[i])
  {
    if rows == [] {
    } else {
      assert rows[0] in rows;
      RowsRead(q, rows[1..]);
      var rest := ReadEnvelopes(q, rows[1..]).value;
      assert ReadEnvelopes(q, rows).value == [ReadEnvelope(q, rows[0]).value] + rest;
      forall i | 0 <= i < |rows|
        ensures ReadEnvelope(q, rows[i]) == Some(ReadEnvelopes(q, rows).value[i])
      {
        if i > 0 { assert rows[i] == rows[1..][i - 1]; }
      }
    }
  }

  /** A fetch succeeds exactly when its request is in its window, unused, and signed by the
      mailbox's receiver: no stored row can make it fail. */
  lemma FetchSucceedsExactly(c: Crypto, db: Tables, r: FetchRequest, now: U64)
    requires Consistent(c, db) && Usable(c, db)
    ensures ReplyTo(c, db, Fetch(r), now).Fetched? <==>
            && InWindow(r.validUntil, now, MAX_REQUEST_SECONDS)
            && r.validUntil <= I64_MAX
            && r.queueId in db.mailboxes
            && c.attests(db.mailboxes[r.queueId].receiveKey, FetchStatementOf(r), r.signature)
            && NonceKey(r.queueId, Receive, r.nonce) !in Live(db.requestNonces, now)
  {
    var swept := Sweep(db, now);
    var rows := Select(swept.messages, InQueueAfter(r.queueId, now));
    SelectMembers(db.messages, ExpiresAfter(now));
    SelectMembers(swept.messages, InQueueAfter(r.queueId, now));
    RowsRead(r.queueId, rows);
    if r.queueId in db.mailboxes {
      assert KeyOf(db.mailboxes[r.queueId], ReceiveKey) == db.mailboxes[r.queueId].receiveKey;
    }
  }

  /** Every envelope a fetch returns passes the receiver's own check at that moment, for a
      receiver that knows the mailbox's send key. */
  lemma FetchedEnvelopesVerify(c: Crypto, db: Tables, r: FetchRequest, now: U64, cap: ReceiveCapability,
                               envelope: StoredEnvelope)
    requires Consistent(c, db)
    requires ReplyTo(c, db, Fetch(r), now).Fetched?
    requires envelope in ReplyTo(c, db, Fetch(r), now).envelopes
    requires cap.queueId == r.queueId
    requires r.queueId in db.mailboxes ==> cap.sendVerificationKey == db.mailboxes[r.queueId].sendKey
    ensures VerifyEnvelope(c, cap, envelope, now).Some?
  {
    var swept := Sweep(db, now);
    var rows := Select(swept.messages, InQueueAfter(r.queueId, now));
    SelectMembers(db.messages, ExpiresAfter(now));
    SelectMembers(swept.messages, InQueueAfter(r.queueId, now));
    FetchedMeans(c, db, r, now);
    RowsRead(r.queueId, rows);
    var i :| 0 <= i < |rows| && ReplyTo(c, db, Fetch(r), now).envelopes[i] == envelope;
    var row := rows[i];
    assert row in rows && Authentic(c, db, row);
  }

  /** Mailbox keys never change once registered, so the check passes for every receiver whose
      capability came from a registration the relay accepted earlier in the run. */
  lemma DeliveredEnvelopesVerify(c: Crypto, db: Tables, steps: seq<Step>, i: nat, j: nat,
                                 reg: MailboxRegistration, r: FetchRequest, cap: ReceiveCapability,
                                 envelope: StoredEnvelope)
    requires Nondecreasing(steps) && i < j < |steps| && Consistent(c, db) && Usable(c, db)
    requires forall k :: 0 <= k < |steps| ==> Typed(c, steps[k].cmd)
    requires steps[i].cmd == Register(reg) && ReplyAt(c, db, steps, i).Registered?
    requires steps[j].cmd == Fetch(r) && ReplyAt(c, db, steps, j).Fetched?
    requires reg.queueId == r.queueId == cap.queueId && cap.sendVerificationKey == reg.sendKey
    requires envelope in ReplyAt(c, db, steps, j).envelopes
    ensures VerifyEnvelope(c, cap, envelope, steps[j].now).Some?
  {
    RegisteredMeans(c, After(c, db, steps, i), reg, steps[i].now);
    var mailbox := After(c, db, steps, i + 1).mailboxes[reg.queueId];
    assert Standing(c, After(c, db, steps, i + 1), reg.queueId, mailbox);
    Carry(c, db, steps, i, j, MailboxStanding(reg.queueId, mailbox));
    var before := After(c, db, steps, j);
    FetchedMeans(c, before, r, steps[j].now);
    ConsistentThroughout(c, db, steps, j);
    FetchedEnvelopesVerify(c, before, r, steps[j].now, cap, envelope);
  }

  lemma RegisteredMeans(c: Crypto, db: Tables, r: MailboxRegistration, now: U64)
    requires ReplyTo(c, db, Register(r), now).Registered?
    ensures r.queueId in Next(c, db, Register(r), now).mailboxes
    ensures Next(c, db, Register(r), now).mailboxes[r.queueId].sendKey == r.sendKey
    ensures Next(c, db, Register(r), now).mailboxes[r.queueId].receiveKey == r.receiveKey
    ensures Next(c, db, Register(r), now).mailboxes[r.queueId].manageKey == r.manageKey
  {
  }
}
