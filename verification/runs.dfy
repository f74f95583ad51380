/** Whole runs of the relay under a clock that does not go back, and what can never happen
    again in one. Every theorem here starts from arbitrary tables: an empty database, a
    migrated one, or any other. */
module Runs {
  import opened Bytes
  import opened LabErrors
  import opened Capability
  import opened Schema
  import opened Commands

  datatype Step = Step(cmd: Command, now: U64)

  ghost predicate Nondecreasing(steps: seq<Step>) {
    forall i, j :: 0 <= i < j < |steps| ==> steps[i].now <= steps[j].now
  }

  /** The committed tables after the first `n` steps. */
  ghost function After(c: Crypto, db: Tables, steps: seq<Step>, n: nat): Tables
    requires n <= |steps|
  {
    if n == 0 then db else Next(c, After(c, db, steps, n - 1), steps[n - 1].cmd, steps[n - 1].now)
  }

  ghost function ReplyAt(c: Crypto, db: Tables, steps: seq<Step>, n: nat): Reply
    requires n < |steps|
  {
    ReplyTo(c, After(c, db, steps, n), steps[n].cmd, steps[n].now)
  }

  // ---- Facts that last ----

  /** The queue is retired and nothing in the database refers to it. */
  ghost predicate Gone(c: Crypto, db: Tables, q: Blob) {
    && c.digest(q) in db.retiredQueues
    && q !in db.mailboxes
    && (forall r :: r in db.messages ==> r.queueId != q)
    && (forall k :: k in db.tombstones ==> k.queueId != q)
    && (forall k :: k in db.requestNonces ==> k.queueId != q)
  }

  lemma GoneSwept(c: Crypto, db: Tables, now: int, q: Blob)
    requires Gone(c, db, q)
    ensures Gone(c, Sweep(db, now), q)
  {
    SelectMembers(db.messages, ExpiresAfter(now));
  }

  lemma GoneKept(c: Crypto, db: Tables, change: Change, now: int, q: Blob)
    requires Gone(c, db, q) && Grounded(c, db, change, now)
    ensures Gone(c, Perform(db, change), q)
  {
    match change
    case BuryMessage(key, _) => SelectMembers(db.messages, HasOtherKey(key));
    case RetireMailbox(other, _, _) => SelectMembers(db.messages, InOtherQueue(other));
    case _ =>
  }

  lemma RetiredIsGone(c: Crypto, db: Tables, q: Blob, at: int)
    ensures Gone(c, Perform(db, RetireMailbox(q, c.digest(q), at)), q)
  {
    SelectMembers(db.messages, InOtherQueue(q));
  }

  /** Message `key`, once stored until `e`, cannot be stored again before `e`: its row, a
      tombstone that outlives `e`, or the queue's retirement is in the way. */
  ghost predicate Spent(c: Crypto, db: Tables, key: MessageKey, e: int, t: int) {
    && e <= t + TOMBSTONE_TTL_SECONDS
    && (|| e <= t
        || (exists r :: r in db.messages && r.Key() == key && r.expiresAt == e)
        || (key in db.tombstones && db.tombstones[key] >= e)
        || Gone(c, db, key.queueId))
  }

  lemma SpentSwept(c: Crypto, db: Tables, t: int, now: int, key: MessageKey, e: int)
    requires Spent(c, db, key, e, t) && t <= now
    ensures Spent(c, Sweep(db, now), key, e, now)
  {
    SelectMembers(db.messages, ExpiresAfter(now));
    if Gone(c, db, key.queueId) { GoneSwept(c, db, now, key.queueId); }
  }

  lemma SpentKept(c: Crypto, db: Tables, change: Change, now: int, key: MessageKey, e: int)
    requires Spent(c, db, key, e, now) && Grounded(c, db, change, now)
    ensures Spent(c, Perform(db, change), key, e, now)
  {
    if Gone(c, db, key.queueId) {
      GoneKept(c, db, change, now, key.queueId);
    } else {
      match change
      case BuryMessage(other, _) => SelectMembers(db.messages, HasOtherKey(other));
      case RetireMailbox(q, _, at) =>
        SelectMembers(db.messages, InOtherQueue(q));
        RetiredIsGone(c, db, q, at);
      case _ => assert forall r :: r in db.messages ==> r in Perform(db, change).messages;
    }
  }

  /** A recorded request nonce stays in the way until its deadline. */
  ghost predicate NonceSpent(c: Crypto, db: Tables, nonce: NonceKey, e: int, t: int) {
    || e <= t
    || (nonce in db.requestNonces && db.requestNonces[nonce] >= e)
    || Gone(c, db, nonce.queueId)
  }

  lemma NonceSpentKept(c: Crypto, db: Tables, change: Change, now: int, nonce: NonceKey, e: int)
    requires NonceSpent(c, db, nonce, e, now) && Grounded(c, db, change, now)
    ensures NonceSpent(c, Perform(db, change), nonce, e, now)
  {
    if Gone(c, db, nonce.queueId) {
      GoneKept(c, db, change, now, nonce.queueId);
    } else if change.RetireMailbox? {
      RetiredIsGone(c, db, change.queueId, change.at);
    }
  }

  /** A registered mailbox never changes; it can only be retired. */
  ghost predicate Standing(c: Crypto, db: Tables, q: Blob, mailbox: Mailbox) {
    Gone(c, db, q) || (q in db.mailboxes && db.mailboxes[q] == mailbox)
  }

  lemma StandingKept(c: Crypto, db: Tables, change: Change, now: int, q: Blob, mailbox: Mailbox)
    requires Standing(c, db, q, mailbox) && Grounded(c, db, change, now)
    ensures Standing(c, Perform(db, change), q, mailbox)
  {
    if Gone(c, db, q) {
      GoneKept(c, db, change, now, q);
    } else if change.RetireMailbox? {
      RetiredIsGone(c, db, change.queueId, change.at);
    }
  }

  /** A buried message has a tombstone and no row until `e`, or its queue is retired. */
  ghost predicate Buried(c: Crypto, db: Tables, key: MessageKey, e: int, t: int) {
    || Gone(c, db, key.queueId)
    || (e > t ==> key in db.tombstones && db.tombstones[key] >= e && !HasKey(db.messages, key))
  }

  lemma BuriedSwept(c: Crypto, db: Tables, t: int, now: int, key: MessageKey, e: int)
    requires Buried(c, db, key, e, t) && t <= now
    ensures Buried(c, Sweep(db, now), key, e, now)
  {
    SelectMembers(db.messages, ExpiresAfter(now));
    if Gone(c, db, key.queueId) { GoneSwept(c, db, now, key.queueId); }
  }

  lemma BuriedKept(c: Crypto, db: Tables, change: Change, now: int, key: MessageKey, e: int)
    requires Buried(c, db, key, e, now) && Grounded(c, db, change, now)
    ensures Buried(c, Perform(db, change), key, e, now)
  {
    if Gone(c, db, key.queueId) {
      GoneKept(c, db, change, now, key.queueId);
    } else {
      match change
      case BuryMessage(other, _) => SelectMembers(db.messages, HasOtherKey(other));
      case RetireMailbox(q, _, at) =>
        SelectMembers(db.messages, InOtherQueue(q));
        RetiredIsGone(c, db, q, at);
      case _ =>
    }
  }

  // ---- Induction over a run ----

  datatype Fact =
    | QueueGone(q: Blob)
    | MessageSpent(key: MessageKey, e: int)
    | NonceTaken(nonce: NonceKey, e: int)
    | MailboxStanding(q: Blob, mailbox: Mailbox)
    | MessageBuried(key: MessageKey, e: int)

  ghost predicate True(c: Crypto, fact: Fact, db: Tables, t: int) {
    match fact
    case QueueGone(q) => Gone(c, db, q)
    case MessageSpent(key, e) => Spent(c, db, key, e, t)
    case NonceTaken(nonce, e) => NonceSpent(c, db, nonce, e, t)
    case MailboxStanding(q, mailbox) => Standing(c, db, q, mailbox)
    case MessageBuried(key, e) => Buried(c, db, key, e, t)
  }

  lemma FactSwept(c: Crypto, fact: Fact, db: Tables, t: int, now: int)
    requires True(c, fact, db, t) && t <= now
    ensures True(c, fact, db, now) && True(c, fact, Sweep(db, now), now)
  {
    match fact
    case QueueGone(q) => GoneSwept(c, db, now, q);
    case MessageSpent(key, e) => SpentSwept(c, db, t, now, key, e);
    case NonceTaken(nonce, _) => if Gone(c, db, nonce.queueId) { GoneSwept(c, db, now, nonce.queueId); }
    case MailboxStanding(q, _) => if Gone(c, db, q) { GoneSwept(c, db, now, q); }
    case MessageBuried(key, e) => BuriedSwept(c, db, t, now, key, e);
  }

  lemma FactKept(c: Crypto, fact: Fact, db: Tables, change: Change, now: int)
    requires True(c, fact, db, now) && Grounded(c, db, change, now)
    ensures True(c, fact, Perform(db, change), now)
  {
    match fact
    case QueueGone(q) => GoneKept(c, db, change, now, q);
    case MessageSpent(key, e) => SpentKept(c, db, change, now, key, e);
    case NonceTaken(nonce, e) => NonceSpentKept(c, db, change, now, nonce, e);
    case MailboxStanding(q, mailbox) => StandingKept(c, db, change, now, q, mailbox);
    case MessageBuried(key, e) => BuriedKept(c, db, change, now, key, e);
  }

  lemma FactNext(c: Crypto, fact: Fact, db: Tables, cmd: Command, t: int, now: U64)
    requires True(c, fact, db, t) && t <= now
    ensures True(c, fact, Next(c, db, cmd, now), now)
  {
    FactSwept(c, fact, db, t, now);
    if Transact(c, db, cmd, now).Accept? {
      AcceptedIsGrounded(c, db, cmd, now);
      FactKept(c, fact, Sweep(db, now), Transact(c, db, cmd, now).change, now);
    }
  }

  /** A fact that holds once in a run holds from then on. */
  lemma {:induction false} Carry(c: Crypto, db: Tables, steps: seq<Step>, i: nat, j: nat, fact: Fact)
    requires Nondecreasing(steps) && i < j <= |steps|
    requires True(c, fact, After(c, db, steps, i + 1), steps[i].now)
    ensures True(c, fact, After(c, db, steps, j), steps[j - 1].now)
  {
    if i + 1 == j {
    } else {
      Carry(c, db, steps, i, j - 1, fact);
      assert steps[j - 2].now <= steps[j - 1].now;
      FactNext(c, fact, After(c, db, steps, j - 1), steps[j - 1].cmd, steps[j - 2].now, steps[j - 1].now);
    }
  }

  // ---- Theorems ----

  /** A send that passes its size, expiry and signature checks. */
  ghost predicate ValidSend(c: Crypto, db: Tables, r: SendRequest, now: U64) {
    && Precheck(c, Enqueue(r), now) == None
    && now <= I64_MAX
    && Authenticate(c, db, r.queueId, SendKey, SendStatementOf(c, r), r.signature) == None
  }

  /** What a `Stored` reply says of the tables before and after. */
  lemma StoredMeans(c: Crypto, db: Tables, r: SendRequest, now: U64)
    requires ReplyTo(c, db, Enqueue(r), now) == Enqueued(Stored)
    ensures Transact(c, db, Enqueue(r), now) ==
            Accept(Enqueued(Stored), AddMessage(RowOf(r)), Some("message_enqueued"))
    ensures Next(c, db, Enqueue(r), now) == Perform(Sweep(db, now), AddMessage(RowOf(r)))
    ensures Grounded(c, Sweep(db, now), AddMessage(RowOf(r)), now)
    ensures r.expiresAt <= I64_MAX
  {
    AcceptedIsGrounded(c, db, Enqueue(r), now);
  }

  /** Two `Stored` outcomes for one message id are apart by at least the first retention, so
      one signed send request is stored at most once, whatever mix of acknowledgement, expiry
      and mailbox deletion lies between. */
  lemma NoRestoring(c: Crypto, db: Tables, steps: seq<Step>, i: nat, j: nat, a: SendRequest, b: SendRequest)
    requires Nondecreasing(steps) && i < j < |steps|
    requires steps[i].cmd == Enqueue(a) && ReplyAt(c, db, steps, i) == Enqueued(Stored)
    requires steps[j].cmd == Enqueue(b) && ReplyAt(c, db, steps, j) == Enqueued(Stored)
    requires a.queueId == b.queueId && a.messageId == b.messageId
    ensures steps[j].now >= a.expiresAt
    ensures a != b
  {
    var key, e := MessageKey(a.queueId, a.messageId), a.expiresAt;
    StoredMeans(c, After(c, db, steps, i), a, steps[i].now);
    var stored := After(c, db, steps, i + 1);
    assert stored.messages[|stored.messages| - 1] == RowOf(a);
    assert Spent(c, stored, key, e, steps[i].now);
    Carry(c, db, steps, i, j, MessageSpent(key, e));
    var before, now := After(c, db, steps, j), steps[j].now;
    SpentSwept(c, before, steps[j - 1].now, now, key, e);
    StoredMeans(c, before, b, now);
  }

  /** What a successful fetch says of the tables before and after. */
  lemma FetchedMeans(c: Crypto, db: Tables, r: FetchRequest, now: U64)
    requires ReplyTo(c, db, Fetch(r), now).Fetched?
    ensures Next(c, db, Fetch(r), now) ==
            Perform(Sweep(db, now), AddNonce(NonceKey(r.queueId, Receive, r.nonce), r.validUntil))
    ensures NonceKey(r.queueId, Receive, r.nonce) !in Live(db.requestNonces, now)
    ensures r.queueId in db.mailboxes && now < r.validUntil
    ensures ReadEnvelopes(r.queueId, Select(Unexpired(db.messages, now), InQueueAfter(r.queueId, now)))
            == Some(ReplyTo(c, db, Fetch(r), now).envelopes)
  {
  }

  /** A fetch nonce is accepted again only once the request that used it is out of date, so a
      signed fetch request succeeds at most once. */
  lemma FetchNotReplayed(c: Crypto, db: Tables, steps: seq<Step>, i: nat, j: nat, a: FetchRequest, b: FetchRequest)
    requires Nondecreasing(steps) && i < j < |steps|
    requires steps[i].cmd == Fetch(a) && ReplyAt(c, db, steps, i).Fetched?
    requires steps[j].cmd == Fetch(b) && ReplyAt(c, db, steps, j).Fetched?
    requires a.queueId == b.queueId && a.nonce == b.nonce
    ensures steps[j].now >= a.validUntil
    ensures a != b
  {
    var nonce, e := NonceKey(a.queueId, Receive, a.nonce), a.validUntil;
    FetchedMeans(c, After(c, db, steps, i), a, steps[i].now);
    FetchedMeans(c, After(c, db, steps, j), b, steps[j].now);
    assert NonceSpent(c, After(c, db, steps, i + 1), nonce, e, steps[i].now);
    Carry(c, db, steps, i, j, NonceTaken(nonce, e));
    assert steps[j - 1].now <= steps[j].now;
  }

  /** If the response to a successful acknowledgement is lost, submitting the same request
      again inside its window, while the mailbox is registered, gives `AlreadyDeleted`. */
  lemma AckRetryIsSafe(c: Crypto, db: Tables, steps: seq<Step>, i: nat, j: nat, r: AckRequest)
    requires Nondecreasing(steps) && i < j < |steps|
    requires steps[i].cmd == Acknowledge(r) && ReplyAt(c, db, steps, i) == Acked(Deleted)
    requires steps[j].cmd == Acknowledge(r) && steps[j].now < r.validUntil
    requires r.queueId in After(c, db, steps, j).mailboxes
    ensures ReplyAt(c, db, steps, j) == Acked(AlreadyDeleted)
  {
    var before, at := After(c, db, steps, i), steps[i].now;
    var key := MessageKey(r.queueId, r.messageId);
    AcceptedIsGrounded(c, before, steps[i].cmd, at);
    BuriedFrom(c, db, steps, i, j, r);
    var mailbox := before.mailboxes[r.queueId];
    assert Standing(c, After(c, db, steps, i + 1), key.queueId, mailbox);
    Carry(c, db, steps, i, j, MailboxStanding(key.queueId, mailbox));
    FindFinds(Sweep(After(c, db, steps, j), steps[j].now).messages, key);
    assert at <= steps[j].now;
  }

  /** An acknowledged message is buried for the tombstone's whole life. */
  lemma BuriedFrom(c: Crypto, db: Tables, steps: seq<Step>, i: nat, j: nat, r: AckRequest)
    requires Nondecreasing(steps) && i < j < |steps|
    requires steps[i].cmd == Acknowledge(r) && ReplyAt(c, db, steps, i) == Acked(Deleted)
    ensures Buried(c, Sweep(After(c, db, steps, j), steps[j].now), MessageKey(r.queueId, r.messageId),
                   steps[i].now + TOMBSTONE_TTL_SECONDS, steps[j].now)
  {
    var before, at := After(c, db, steps, i), steps[i].now;
    var key, e := MessageKey(r.queueId, r.messageId), at + TOMBSTONE_TTL_SECONDS;
    AcceptedIsGrounded(c, before, steps[i].cmd, at);
    SelectMembers(Sweep(before, at).messages, HasOtherKey(key));
    assert Buried(c, After(c, db, steps, i + 1), key, e, at);
    Carry(c, db, steps, i, j, MessageBuried(key, e));
    assert steps[j - 1].now <= steps[j].now;
    BuriedSwept(c, After(c, db, steps, j), steps[j - 1].now, steps[j].now, key, e);
  }

  /** Once acknowledged, a message id is refused as `MessageGone` to every valid sender, the
      original one included, for seven days. */
  lemma AcknowledgedStaysGone(c: Crypto, db: Tables, steps: seq<Step>, i: nat, j: nat, ack: AckRequest, r: SendRequest)
    requires Nondecreasing(steps) && i < j < |steps|
    requires steps[i].cmd == Acknowledge(ack) && ReplyAt(c, db, steps, i) == Acked(Deleted)
    requires steps[j].cmd == Enqueue(r) && r.queueId == ack.queueId && r.messageId == ack.messageId
    requires ValidSend(c, After(c, db, steps, j), r, steps[j].now)
    requires steps[j].now < steps[i].now + TOMBSTONE_TTL_SECONDS
    ensures ReplyAt(c, db, steps, j) == Failed(MessageGone)
  {
    BuriedFrom(c, db, steps, i, j, ack);
  }

  ghost function QueueOf(cmd: Command): Option<Blob> {
    match cmd
    case Register(r) => Some(r.queueId)
    case Enqueue(r) => Some(r.queueId)
    case Fetch(r) => Some(r.queueId)
    case Acknowledge(r) => Some(r.queueId)
    case DeleteMailbox(r) => Some(r.queueId)
    case _ => None
  }

  /** After a committed deletion no later command on the queue succeeds and no row of it ever
      reappears, even if the digest has collisions. */
  lemma RetirementIsPermanent(c: Crypto, db: Tables, steps: seq<Step>, i: nat, j: nat, r: DeleteMailboxRequest)
    requires Nondecreasing(steps) && i < j <= |steps|
    requires steps[i].cmd == DeleteMailbox(r) && ReplyAt(c, db, steps, i).MailboxDeleted?
    ensures Gone(c, After(c, db, steps, j), r.queueId)
    ensures j < |steps| && QueueOf(steps[j].cmd) == Some(r.queueId) ==> ReplyAt(c, db, steps, j).Failed?
  {
    DeletionRetires(c, After(c, db, steps, i), r, steps[i].now);
    Carry(c, db, steps, i, j, QueueGone(r.queueId));
    if j < |steps| && QueueOf(steps[j].cmd) == Some(r.queueId) {
      GoneRefuses(c, After(c, db, steps, j), steps[j].cmd, steps[j].now, r.queueId);
    }
  }

  lemma DeletionRetires(c: Crypto, db: Tables, r: DeleteMailboxRequest, now: U64)
    requires ReplyTo(c, db, DeleteMailbox(r), now).MailboxDeleted?
    ensures Gone(c, Next(c, db, DeleteMailbox(r), now), r.queueId)
  {
    RetiredIsGone(c, Sweep(db, now), r.queueId, now);
  }

  lemma GoneRefuses(c: Crypto, db: Tables, cmd: Command, now: U64, q: Blob)
    requires Gone(c, db, q) && QueueOf(cmd) == Some(q)
    ensures ReplyTo(c, db, cmd, now).Failed?
  {
  }

  lemma {:induction false} RetirementsOnlyGrow(c: Crypto, db: Tables, steps: seq<Step>, i: nat, j: nat, hash: Blob)
    requires i <= j <= |steps| && hash in After(c, db, steps, i).retiredQueues
    ensures hash in After(c, db, steps, j).retiredQueues
    ensures After(c, db, steps, j).retiredQueues[hash] == After(c, db, steps, i).retiredQueues[hash]
  {
    if i == j {
    } else {
      RetirementsOnlyGrow(c, db, steps, i, j - 1, hash);
      var before, cmd, now := After(c, db, steps, j - 1), steps[j - 1].cmd, steps[j - 1].now;
      if Transact(c, before, cmd, now).Accept? {
        RetirementKept(Sweep(before, now), Transact(c, before, cmd, now).change, hash);
      }
    }
  }

  lemma RetirementKept(db: Tables, change: Change, hash: Blob)
    requires hash in db.retiredQueues
    ensures hash in Perform(db, change).retiredQueues
    ensures Perform(db, change).retiredQueues[hash] == db.retiredQueues[hash]
  {
  }

  // ---- Contention ----

  lemma {:induction false} FindSurvives(rows: seq<MessageRow>, key: MessageKey, keep: MessageRow -> bool)
    requires Find(rows, key).Some? && keep(Find(rows, key).value)
    ensures Find(Select(rows, keep), key) == Find(rows, key)
  {
    if rows[0].Key() == key {
    } else {
      FindSurvives(rows[1..], key, keep);
      if keep(rows[0]) {
        assert Select(rows, keep)[1..] == Select(rows[1..], keep);
      } else {
        assert Select(rows, keep) == Select(rows[1..], keep);
      }
    }
  }

  lemma {:induction false} FindAppended(rows: seq<MessageRow>, row: MessageRow, key: MessageKey)
    ensures Find(rows + [row], key) ==
            if Find(rows, key).Some? then Find(rows, key)
            else if row.Key() == key then Some(row) else None
  {
    if rows == [] {
      assert Find([row][1..], key) == None;
    } else {
      assert (rows + [row])[1..] == rows[1..] + [row];
      FindAppended(rows[1..], row, key);
    }
  }

  /** The step took message `key` out of the relay before its expiry. */
  ghost predicate Removes(cmd: Command, reply: Reply, key: MessageKey) {
    || (cmd.Acknowledge? && reply == Acked(Deleted)
        && MessageKey(cmd.ack.queueId, cmd.ack.messageId) == key)
    || (cmd.DeleteMailbox? && reply.MailboxDeleted? && cmd.deletion.queueId == key.queueId)
  }

  /** The row is the one with its key, and no tombstone has that key. */
  ghost predicate Holds(db: Tables, row: MessageRow) {
    Find(db.messages, row.Key()) == Some(row) && row.Key() !in db.tombstones
  }

  lemma RowKept(c: Crypto, db: Tables, change: Change, now: int, row: MessageRow)
    requires Holds(db, row) && Grounded(c, db, change, now)
    requires change.BuryMessage? ==> change.key != row.Key()
    requires change.RetireMailbox? ==> change.queueId != row.queueId
    ensures Holds(Perform(db, change), row)
  {
    match change
    case AddMessage(added) => FindAppended(db.messages, added, row.Key());
    case BuryMessage(key, _) => FindSurvives(db.messages, row.Key(), HasOtherKey(key));
    case RetireMailbox(q, _, _) => FindSurvives(db.messages, row.Key(), InOtherQueue(q));
    case _ =>
  }

  /** A change that takes a message out shows in the reply. */
  lemma RemovalShows(c: Crypto, db: Tables, cmd: Command, now: U64, key: MessageKey)
    requires Transact(c, db, cmd, now).Accept?
    requires !Removes(cmd, ReplyTo(c, db, cmd, now), key)
    ensures var change := Transact(c, db, cmd, now).change;
            && (change.BuryMessage? ==> change.key != key)
            && (change.RetireMailbox? ==> change.queueId != key.queueId)
  {
  }

  lemma RowStays(c: Crypto, db: Tables, cmd: Command, now: U64, row: MessageRow)
    requires Holds(db, row) && now < row.expiresAt
    requires !Removes(cmd, ReplyTo(c, db, cmd, now), row.Key())
    ensures Holds(Next(c, db, cmd, now), row)
  {
    FindSurvives(db.messages, row.Key(), ExpiresAfter(now));
    if Transact(c, db, cmd, now).Accept? {
      AcceptedIsGrounded(c, db, cmd, now);
      RemovalShows(c, db, cmd, now, row.Key());
      RowKept(c, Sweep(db, now), Transact(c, db, cmd, now).change, now, row);
    }
  }

  lemma {:induction false} RowStaysOver(c: Crypto, db: Tables, steps: seq<Step>, i: nat, j: nat, row: MessageRow)
    requires Nondecreasing(steps) && i <= j <= |steps|
    requires Holds(After(c, db, steps, i), row)
    requires forall k :: i <= k < j ==> steps[k].now < row.expiresAt
    requires forall k :: i <= k < j ==> !Removes(steps[k].cmd, ReplyAt(c, db, steps, k), row.Key())
    ensures Holds(After(c, db, steps, j), row)
  {
    if i == j {
    } else {
      RowStaysOver(c, db, steps, i, j - 1, row);
      RowStays(c, After(c, db, steps, j - 1), steps[j - 1].cmd, steps[j - 1].now, row);
    }
  }

  /** The winner: a valid send is stored exactly when no unexpired row or tombstone has its
      message id and its expiry fits the database. */
  lemma FirstSendIsStored(c: Crypto, db: Tables, r: SendRequest, now: U64)
    requires ValidSend(c, db, r, now)
    ensures ReplyTo(c, db, Enqueue(r), now) == Enqueued(Stored) <==>
            && r.expiresAt <= I64_MAX
            && !HasKey(Unexpired(db.messages, now), MessageKey(r.queueId, r.messageId))
            && MessageKey(r.queueId, r.messageId) !in Live(db.tombstones, now)
  {
    FindFinds(Sweep(db, now).messages, MessageKey(r.queueId, r.messageId));
  }

  /** The others: while the winner is neither expired, acknowledged nor deleted with its
      mailbox, every valid send of the same message id, in any number and order and with any
      other traffic between, is a `Duplicate` exactly when packet and expiry are the winner's,
      and a `MessageConflict` otherwise -- except that the winner's packet with an expiry no
      `i64` can hold is a `Storage` error. */
  lemma LaterSendsAreDecidedByTheWinner(c: Crypto, db: Tables, steps: seq<Step>, i: nat, j: nat,
                                        winner: SendRequest, r: SendRequest)
    requires Nondecreasing(steps) && i < j < |steps|
    requires steps[i].cmd == Enqueue(winner) && ReplyAt(c, db, steps, i) == Enqueued(Stored)
    requires r.queueId == winner.queueId && r.messageId == winner.messageId
    requires steps[j].cmd == Enqueue(r) && steps[j].now < winner.expiresAt
    requires ValidSend(c, After(c, db, steps, j), r, steps[j].now)
    requires forall k :: i < k < j ==> !Removes(steps[k].cmd, ReplyAt(c, db, steps, k), RowOf(winner).Key())
    ensures ReplyAt(c, db, steps, j) ==
            if r.packet == winner.packet && r.expiresAt == winner.expiresAt then Enqueued(Duplicate)
            else if r.packet == winner.packet && r.expiresAt > I64_MAX then Failed(Storage)
            else Failed(MessageConflict)
  {
    WinnerStays(c, db, steps, i, j, winner);
    DecidedByRow(c, After(c, db, steps, j), r, steps[j].now, RowOf(winner));
  }

  lemma WinnerStays(c: Crypto, db: Tables, steps: seq<Step>, i: nat, j: nat, winner: SendRequest)
    requires Nondecreasing(steps) && i < j < |steps|
    requires steps[i].cmd == Enqueue(winner) && ReplyAt(c, db, steps, i) == Enqueued(Stored)
    requires steps[j].now < winner.expiresAt
    requires forall k :: i < k < j ==> !Removes(steps[k].cmd, ReplyAt(c, db, steps, k), RowOf(winner).Key())
    ensures Holds(After(c, db, steps, j), RowOf(winner)) && winner.expiresAt <= I64_MAX
  {
    var row, swept := RowOf(winner), Sweep(After(c, db, steps, i), steps[i].now);
    StoredMeans(c, After(c, db, steps, i), winner, steps[i].now);
    HeldOnceStored(c, swept, row, steps[i].now);
    assert forall k :: i < k < j ==> steps[k].now <= steps[j].now;
    RowStaysOver(c, db, steps, i + 1, j, row);
  }

  lemma HeldOnceStored(c: Crypto, db: Tables, row: MessageRow, now: int)
    requires Grounded(c, db, AddMessage(row), now)
    ensures Holds(Perform(db, AddMessage(row)), row)
  {
    FindFinds(db.messages, row.Key());
    FindAppended(db.messages, row, row.Key());
  }

  lemma DecidedByRow(c: Crypto, db: Tables, r: SendRequest, now: U64, row: MessageRow)
    requires Holds(db, row) && now < row.expiresAt && row.Key() == MessageKey(r.queueId, r.messageId)
    requires ValidSend(c, db, r, now)
    ensures ReplyTo(c, db, Enqueue(r), now) ==
            if r.packet != row.ciphertext then Failed(MessageConflict)
            else if r.expiresAt > I64_MAX then Failed(Storage)
            else if r.expiresAt != row.expiresAt then Failed(MessageConflict)
            else Enqueued(Duplicate)
  {
    FindSurvives(db.messages, row.Key(), ExpiresAfter(now));
  }

  /** The exception is real: from an empty database, one second before `i64::MAX`, register a
      mailbox, store a message due at `i64::MAX`, and retry it with a longer expiry. The retry is
      refused as a storage failure, not as the conflict it is. */
  lemma ConflictCanSurfaceAsStorage() returns (c: Crypto, steps: seq<Step>, first: SendRequest, retry: SendRequest)
    ensures Nondecreasing(steps) && |steps| == 3
    ensures steps[1].cmd == Enqueue(first) && steps[2].cmd == Enqueue(retry)
    ensures retry == first.(expiresAt := I64_MAX + 1) && first.expiresAt == I64_MAX
    ensures ReplyAt(c, EMPTY, steps, 0) == Registered(true)
    ensures ReplyAt(c, EMPTY, steps, 1) == Enqueued(Stored)
    ensures ReplyAt(c, EMPTY, steps, 2) == Failed(Storage)
  {
    var zeros: seq<Byte> := seq(64, _ => 0);
    var key: PublicKey, m: MessageId := zeros[..32], zeros[..16];
    c := Crypto((b: Blob) => key, (b: Blob) => true, (k: Blob, s: Statement, g: Blob) => true);
    var now: U64 := I64_MAX - 1;
    var registration := MailboxRegistration(key, key, key, key, m, I64_MAX, zeros);
    first := SendRequest(key, m, [0], I64_MAX, zeros);
    retry := first.(expiresAt := I64_MAX + 1);
    steps := [Step(Register(registration), now), Step(Enqueue(first), now), Step(Enqueue(retry), now)];
    var registered := After(c, EMPTY, steps, 1);
    assert After(c, EMPTY, steps, 0) == EMPTY;
    assert registered == Next(c, EMPTY, Register(registration), now);
    FirstSendIsStored(c, registered, first, now);
    assert After(c, EMPTY, steps, 2).mailboxes == registered.mailboxes;
    LaterSendsAreDecidedByTheWinner(c, EMPTY, steps, 1, 2, first, retry);
  }

  /** A failed command changes neither the tables nor the audit log. */
  lemma FailureChangesNothing(c: Crypto, db: Tables, log: seq<string>, cmd: Command, now: U64)
    requires ReplyTo(c, db, cmd, now).Failed?
    ensures Next(c, db, cmd, now) == db
    ensures Audit(c, db, log, cmd, now) == log
  {
  }
}
