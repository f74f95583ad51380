/** Queues do not see each other: the replies to one queue's commands are the same whatever is done
    on the others, in between or at all. The one channel is the table of retired hashes, so the
    theorem asks that no other queue with the same digest is deleted in the run. */
module Isolation {
  import opened Bytes
  import opened LabErrors
  import opened Capability
  import opened Schema
  import opened Commands
  import opened Runs

  function InQueue(q: Blob): MessageRow -> bool { (r: MessageRow) => r.queueId == q }

  /** The databases agree on everything that belongs to the queue. */
  ghost predicate SameFor(c: Crypto, x: Tables, y: Tables, q: Blob) {
    && (q in x.mailboxes <==> q in y.mailboxes)
    && (q in x.mailboxes ==> x.mailboxes[q] == y.mailboxes[q])
    && Select(x.messages, InQueue(q)) == Select(y.messages, InQueue(q))
    && (forall id :: Agree(x.tombstones, y.tombstones, MessageKey(q, id)))
    && (forall role, n :: Agree(x.requestNonces, y.requestNonces, NonceKey(q, role, n)))
    && (forall n :: Agree(x.registrationNonces, y.registrationNonces, RegistrationKey(q, n)))
    && (c.digest(q) in x.retiredQueues <==> c.digest(q) in y.retiredQueues)
  }

  ghost predicate Agree<K>(a: map<K, int>, b: map<K, int>, k: K) {
    (k in a <==> k in b) && (k in a ==> a[k] == b[k])
  }

  // ---- Sweeps ----

  lemma RowsSwept(rows: seq<MessageRow>, q: Blob, now: int)
    ensures Select(Unexpired(rows, now), InQueue(q)) == Select(Select(rows, InQueue(q)), ExpiresAfter(now))
    ensures Select(rows, InQueueAfter(q, now)) == Select(Select(rows, InQueue(q)), ExpiresAfter(now))
  {
    SelectTwice(rows, ExpiresAfter(now), InQueue(q), InQueueAfter(q, now));
    SelectTwice(rows, InQueue(q), ExpiresAfter(now), InQueueAfter(q, now));
  }

  lemma SameSwept(c: Crypto, x: Tables, y: Tables, q: Blob, now: int)
    requires SameFor(c, x, y, q)
    ensures SameFor(c, Sweep(x, now), Sweep(y, now), q)
  {
    RowsSwept(x.messages, q, now);
    RowsSwept(y.messages, q, now);
    var a, b := Sweep(x, now), Sweep(y, now);
    forall id ensures Agree(a.tombstones, b.tombstones, MessageKey(q, id)) {
      assert Agree(x.tombstones, y.tombstones, MessageKey(q, id));
    }
    forall role, n ensures Agree(a.requestNonces, b.requestNonces, NonceKey(q, role, n)) {
      assert Agree(x.requestNonces, y.requestNonces, NonceKey(q, role, n));
    }
    forall n ensures Agree(a.registrationNonces, b.registrationNonces, RegistrationKey(q, n)) {
      assert Agree(x.registrationNonces, y.registrationNonces, RegistrationKey(q, n));
    }
  }

  // ---- The queue's own commands ----

  lemma {:induction false} FindInQueue(rows: seq<MessageRow>, key: MessageKey)
    ensures Find(rows, key) == Find(Select(rows, InQueue(key.queueId)), key)
  {
    if rows == [] {
    } else {
      FindInQueue(rows[1..], key);
      var rest := Select(rows[1..], InQueue(key.queueId));
      if rows[0].queueId == key.queueId {
        assert Select(rows, InQueue(key.queueId)) == [rows[0]] + rest;
        assert ([rows[0]] + rest)[1..] == rest;
      } else {
        assert Select(rows, InQueue(key.queueId)) == rest;
      }
    }
  }

  lemma SameMessage(c: Crypto, x: Tables, y: Tables, q: Blob, id: Blob)
    requires SameFor(c, x, y, q)
    ensures Find(x.messages, MessageKey(q, id)) == Find(y.messages, MessageKey(q, id))
    ensures Agree(x.tombstones, y.tombstones, MessageKey(q, id))
  {
    FindInQueue(x.messages, MessageKey(q, id));
    FindInQueue(y.messages, MessageKey(q, id));
  }

  lemma SameEnqueue(c: Crypto, x: Tables, y: Tables, r: SendRequest, now: U64)
    requires SameFor(c, x, y, r.queueId)
    ensures DecideEnqueue(c, x, r, now) == DecideEnqueue(c, y, r, now)
  {
    SameMessage(c, x, y, r.queueId, r.messageId);
  }

  lemma SameFetch(c: Crypto, x: Tables, y: Tables, r: FetchRequest, now: U64)
    requires SameFor(c, x, y, r.queueId)
    ensures DecideFetch(c, x, r, now) == DecideFetch(c, y, r, now)
  {
    assert Agree(x.requestNonces, y.requestNonces, NonceKey(r.queueId, Receive, r.nonce));
    RowsSwept(x.messages, r.queueId, now);
    RowsSwept(y.messages, r.queueId, now);
  }

  lemma SameAcknowledge(c: Crypto, x: Tables, y: Tables, r: AckRequest, now: U64)
    requires SameFor(c, x, y, r.queueId)
    ensures DecideAcknowledge(c, x, r, now) == DecideAcknowledge(c, y, r, now)
  {
    SameMessage(c, x, y, r.queueId, r.messageId);
  }

  lemma SameDecision(c: Crypto, x: Tables, y: Tables, q: Blob, cmd: Command, now: U64, n: nat, m: nat)
    requires SameFor(c, x, y, q) && QueueOf(cmd) == Some(q)
    ensures Decide(c, x, n, cmd, now) == Decide(c, y, m, cmd, now)
  {
    match cmd
    case Register(r) => assert Agree(x.registrationNonces, y.registrationNonces, RegistrationKey(q, r.nonce));
    case Enqueue(r) => SameEnqueue(c, x, y, r, now);
    case Fetch(r) => SameFetch(c, x, y, r, now);
    case Acknowledge(r) => SameAcknowledge(c, x, y, r, now);
    case DeleteMailbox(r) => assert Agree(x.requestNonces, y.requestNonces, NonceKey(q, Manage, r.nonce));
  }

  /** The queue a change belongs to. */
  ghost predicate On(c: Crypto, change: Change, q: Blob) {
    match change
    case NoChange => true
    case AddMailbox(p, _, registration, _) => p == registration.queueId == q
    case NoteRegistration(registration, _) => registration.queueId == q
    case AddMessage(row) => row.queueId == q
    case AddNonce(nonce, _) => nonce.queueId == q
    case BuryMessage(key, _) => key.queueId == q
    case RetireMailbox(p, hash, _) => p == q && hash == c.digest(q)
  }

  lemma ChangeIsOn(c: Crypto, db: Tables, cmd: Command, now: U64, q: Blob)
    requires Transact(c, db, cmd, now).Accept? && QueueOf(cmd) in {None, Some(q)}
    ensures On(c, Transact(c, db, cmd, now).change, q)
    ensures Transact(c, db, cmd, now).change.RetireMailbox? ==> cmd.DeleteMailbox?
  {
  }

  lemma SameRows(x: Tables, y: Tables, q: Blob, change: Change)
    requires Select(x.messages, InQueue(q)) == Select(y.messages, InQueue(q))
    ensures Select(Perform(x, change).messages, InQueue(q)) == Select(Perform(y, change).messages, InQueue(q))
  {
    match change
    case AddMessage(row) =>
      SelectConcat(x.messages, [row], InQueue(q));
      SelectConcat(y.messages, [row], InQueue(q));
    case BuryMessage(key, _) =>
      SelectCommutes(x.messages, HasOtherKey(key), InQueue(q));
      SelectCommutes(y.messages, HasOtherKey(key), InQueue(q));
    case RetireMailbox(p, _, _) =>
      SelectCommutes(x.messages, InOtherQueue(p), InQueue(q));
      SelectCommutes(y.messages, InOtherQueue(p), InQueue(q));
    case _ =>
  }

  lemma SamePerformed(c: Crypto, x: Tables, y: Tables, q: Blob, change: Change)
    requires SameFor(c, x, y, q) && On(c, change, q)
    ensures SameFor(c, Perform(x, change), Perform(y, change), q)
  {
    SameRows(x, y, q, change);
    var a, b := Perform(x, change), Perform(y, change);
    forall id ensures Agree(a.tombstones, b.tombstones, MessageKey(q, id)) {
      assert Agree(x.tombstones, y.tombstones, MessageKey(q, id));
    }
    forall role, n ensures Agree(a.requestNonces, b.requestNonces, NonceKey(q, role, n)) {
      assert Agree(x.requestNonces, y.requestNonces, NonceKey(q, role, n));
    }
    forall n ensures Agree(a.registrationNonces, b.registrationNonces, RegistrationKey(q, n)) {
      assert Agree(x.registrationNonces, y.registrationNonces, RegistrationKey(q, n));
    }
  }

  /** A command on the queue gets the same reply from databases that agree on the queue, and they
      agree afterwards. */
  lemma OwnStep(c: Crypto, x: Tables, y: Tables, q: Blob, cmd: Command, now: U64)
    requires SameFor(c, Sweep(x, now), Sweep(y, now), q) && QueueOf(cmd) == Some(q)
    ensures ReplyTo(c, x, cmd, now) == ReplyTo(c, y, cmd, now)
    ensures SameFor(c, Sweep(Next(c, x, cmd, now), now), Sweep(Next(c, y, cmd, now), now), q)
  {
    SameDecision(c, Sweep(x, now), Sweep(y, now), q, cmd, now, Expired(x.messages, now), Expired(y.messages, now));
    assert Transact(c, x, cmd, now) == Transact(c, y, cmd, now);
    if Transact(c, x, cmd, now).Accept? {
      var change := Transact(c, x, cmd, now).change;
      ChangeIsOn(c, x, cmd, now, q);
      SamePerformed(c, Sweep(x, now), Sweep(y, now), q, change);
      SameSwept(c, Perform(Sweep(x, now), change), Perform(Sweep(y, now), change), q, now);
    }
  }

  // ---- Commands on other queues ----

  lemma ElsewhereRows(x: Tables, q: Blob, change: Change, p: Blob, c: Crypto)
    requires On(c, change, p) && p != q
    ensures Select(Perform(x, change).messages, InQueue(q)) == Select(x.messages, InQueue(q))
  {
    match change
    case AddMessage(row) =>
      SelectConcat(x.messages, [row], InQueue(q));
      assert Select([row], InQueue(q)) == [];
    case BuryMessage(key, _) => SelectTwice(x.messages, HasOtherKey(key), InQueue(q), InQueue(q));
    case RetireMailbox(_, _, _) => SelectTwice(x.messages, InOtherQueue(p), InQueue(q), InQueue(q));
    case _ =>
  }

  lemma ElsewherePerformed(c: Crypto, x: Tables, q: Blob, change: Change, p: Blob)
    requires On(c, change, p) && p != q && (change.RetireMailbox? ==> c.digest(p) != c.digest(q))
    ensures SameFor(c, Perform(x, change), x, q)
  {
    ElsewhereRows(x, q, change, p, c);
  }

  lemma SameTransitive(c: Crypto, x: Tables, y: Tables, z: Tables, q: Blob)
    requires SameFor(c, x, y, q) && SameFor(c, y, z, q)
    ensures SameFor(c, x, z, q)
  {
    forall id ensures Agree(x.tombstones, z.tombstones, MessageKey(q, id)) {
      assert Agree(x.tombstones, y.tombstones, MessageKey(q, id));
      assert Agree(y.tombstones, z.tombstones, MessageKey(q, id));
    }
    forall role, n ensures Agree(x.requestNonces, z.requestNonces, NonceKey(q, role, n)) {
      assert Agree(x.requestNonces, y.requestNonces, NonceKey(q, role, n));
      assert Agree(y.requestNonces, z.requestNonces, NonceKey(q, role, n));
    }
    forall n ensures Agree(x.registrationNonces, z.registrationNonces, RegistrationKey(q, n)) {
      assert Agree(x.registrationNonces, y.registrationNonces, RegistrationKey(q, n));
      assert Agree(y.registrationNonces, z.registrationNonces, RegistrationKey(q, n));
    }
  }

  /** The command is on another queue or on none, and does not delete one of the same digest. */
  ghost predicate Elsewhere(c: Crypto, cmd: Command, q: Blob) {
    match QueueOf(cmd)
    case None => true
    case Some(p) => p != q && (cmd.DeleteMailbox? ==> c.digest(p) != c.digest(q))
  }

  /** A command elsewhere leaves the queue as a sweep would. */
  lemma ElsewhereStep(c: Crypto, x: Tables, y: Tables, q: Blob, cmd: Command, now: U64)
    requires SameFor(c, Sweep(x, now), Sweep(y, now), q) && Elsewhere(c, cmd, q)
    ensures SameFor(c, Sweep(Next(c, x, cmd, now), now), Sweep(y, now), q)
  {
    if Transact(c, x, cmd, now).Accept? {
      ChangeIsElsewhere(c, x, q, cmd, now);
      SameAgain(c, x, y, Perform(Sweep(x, now), Transact(c, x, cmd, now).change), q, now);
    }
  }

  lemma ChangeIsElsewhere(c: Crypto, db: Tables, q: Blob, cmd: Command, now: U64)
    requires Transact(c, db, cmd, now).Accept? && Elsewhere(c, cmd, q)
    ensures SameFor(c, Perform(Sweep(db, now), Transact(c, db, cmd, now).change), Sweep(db, now), q)
  {
    if QueueOf(cmd).Some? {
      ChangeIsOn(c, db, cmd, now, QueueOf(cmd).value);
      ElsewherePerformed(c, Sweep(db, now), q, Transact(c, db, cmd, now).change, QueueOf(cmd).value);
    }
  }

  lemma SameAgain(c: Crypto, x: Tables, y: Tables, next: Tables, q: Blob, now: int)
    requires SameFor(c, Sweep(x, now), Sweep(y, now), q) && SameFor(c, next, Sweep(x, now), q)
    ensures SameFor(c, Sweep(next, now), Sweep(y, now), q)
  {
    SameSwept(c, next, Sweep(x, now), q, now);
    SweepAbsorbs(x, now, now);
    SameTransitive(c, Sweep(next, now), Sweep(x, now), Sweep(y, now), q);
  }

  // ---- Runs ----

  ghost function OwnSteps(steps: seq<Step>, q: Blob): seq<Step> {
    if steps == [] then []
    else (if QueueOf(steps[0].cmd) == Some(q) then [steps[0]] else []) + OwnSteps(steps[1..], q)
  }

  /** The replies to the queue's own commands, of a server given by its next state and its reply. */
  ghost function Replies(next: (Tables, Step) -> Tables, reply: (Tables, Step) -> Reply, db: Tables, steps: seq<Step>,
                         q: Blob): seq<Reply>
    decreases |steps|
  {
    if steps == [] then []
    else
      (if QueueOf(steps[0].cmd) == Some(q) then [reply(db, steps[0])] else [])
      + Replies(next, reply, next(db, steps[0]), steps[1..], q)
  }

  ghost function RelayNext(c: Crypto): (Tables, Step) -> Tables {
    (db: Tables, step: Step) => Next(c, db, step.cmd, step.now)
  }

  ghost function RelayReply(c: Crypto): (Tables, Step) -> Reply {
    (db: Tables, step: Step) => ReplyTo(c, db, step.cmd, step.now)
  }

  ghost function OwnReplies(c: Crypto, db: Tables, steps: seq<Step>, q: Blob): seq<Reply> {
    Replies(RelayNext(c), RelayReply(c), db, steps, q)
  }

  lemma OwnCase(next: (Tables, Step) -> Tables, reply: (Tables, Step) -> Reply, x: Tables, y: Tables, q: Blob,
                steps: seq<Step>)
    requires steps != [] && QueueOf(steps[0].cmd) == Some(q) && reply(x, steps[0]) == reply(y, steps[0])
    requires Replies(next, reply, next(x, steps[0]), steps[1..], q)
             == Replies(next, reply, next(y, steps[0]), OwnSteps(steps[1..], q), q)
    ensures Replies(next, reply, x, steps, q) == Replies(next, reply, y, OwnSteps(steps, q), q)
  {
    assert OwnSteps(steps, q)[1..] == OwnSteps(steps[1..], q);
  }

  lemma ElsewhereCase(next: (Tables, Step) -> Tables, reply: (Tables, Step) -> Reply, x: Tables, y: Tables, q: Blob,
                      steps: seq<Step>)
    requires steps != [] && QueueOf(steps[0].cmd) != Some(q)
    requires Replies(next, reply, next(x, steps[0]), steps[1..], q)
             == Replies(next, reply, y, OwnSteps(steps[1..], q), q)
    ensures Replies(next, reply, x, steps, q) == Replies(next, reply, y, OwnSteps(steps, q), q)
  {
    assert OwnSteps(steps, q) == OwnSteps(steps[1..], q);
  }

  lemma SameLater(c: Crypto, x: Tables, y: Tables, q: Blob, t: int, now: int)
    requires SameFor(c, Sweep(x, t), Sweep(y, t), q) && t <= now
    ensures SameFor(c, Sweep(x, now), Sweep(y, now), q)
  {
    SameSwept(c, Sweep(x, t), Sweep(y, t), q, now);
    SweepAbsorbs(x, t, now);
    SweepAbsorbs(y, t, now);
  }

  lemma FirstStep(c: Crypto, x: Tables, y: Tables, q: Blob, t: int, step: Step)
    requires SameFor(c, Sweep(x, t), Sweep(y, t), q) && t <= step.now
    requires QueueOf(step.cmd) == Some(q) || Elsewhere(c, step.cmd, q)
    ensures QueueOf(step.cmd) == Some(q) ==> RelayReply(c)(x, step) == RelayReply(c)(y, step)
    ensures SameFor(c, Sweep(RelayNext(c)(x, step), step.now), Sweep(Kept(c, y, q, step), step.now), q)
  {
    SameLater(c, x, y, q, t, step.now);
    if QueueOf(step.cmd) == Some(q) {
      OwnStep(c, x, y, q, step.cmd, step.now);
    } else {
      ElsewhereStep(c, x, y, q, step.cmd, step.now);
    }
  }

  /** The tables of a run from which the commands elsewhere are left out. */
  ghost function Kept(c: Crypto, db: Tables, q: Blob, step: Step): Tables {
    if QueueOf(step.cmd) == Some(q) then RelayNext(c)(db, step) else db
  }

  lemma {:induction false} AloneOrTogether(c: Crypto, x: Tables, y: Tables, q: Blob, t: int, steps: seq<Step>)
    requires Nondecreasing(steps) && (steps != [] ==> t <= steps[0].now)
    requires SameFor(c, Sweep(x, t), Sweep(y, t), q)
    requires forall i :: 0 <= i < |steps| ==> QueueOf(steps[i].cmd) == Some(q) || Elsewhere(c, steps[i].cmd, q)
    ensures OwnReplies(c, x, steps, q) == OwnReplies(c, y, OwnSteps(steps, q), q)
    decreases |steps|
  {
    if steps == [] {
    } else {
      FirstStep(c, x, y, q, t, steps[0]);
      AloneOrTogether(c, RelayNext(c)(x, steps[0]), Kept(c, y, q, steps[0]), q, steps[0].now, steps[1..]);
      if QueueOf(steps[0].cmd) == Some(q) {
        OwnCase(RelayNext(c), RelayReply(c), x, y, q, steps);
      } else {
        ElsewhereCase(RelayNext(c), RelayReply(c), x, y, q, steps);
      }
    }
  }

  /** Non-interference: in any run, the replies to a queue's commands are those it would have got
      with no other command in the run at all. */
  lemma QueuesAreIsolated(c: Crypto, db: Tables, q: Blob, steps: seq<Step>)
    requires Nondecreasing(steps)
    requires forall i :: 0 <= i < |steps| ==> QueueOf(steps[i].cmd) == Some(q) || Elsewhere(c, steps[i].cmd, q)
    ensures OwnReplies(c, db, steps, q) == OwnReplies(c, db, OwnSteps(steps, q), q)
  {
    AloneOrTogether(c, db, db, q, if steps == [] then 0 else steps[0].now, steps);
  }

  /** The condition is needed: if two queues have one digest, deleting the first makes the second
      impossible to register. */
  lemma CollisionsShow() returns (c: Crypto, db: Tables, deletion: DeleteMailboxRequest, r: MailboxRegistration)
    ensures deletion.queueId != r.queueId && c.digest(deletion.queueId) == c.digest(r.queueId)
    ensures ReplyTo(c, db, Register(r), 0) == Registered(true)
    ensures ReplyTo(c, db, DeleteMailbox(deletion), 0) == MailboxDeleted(true)
    ensures ReplyTo(c, Next(c, db, DeleteMailbox(deletion), 0), Register(r), 0) == Failed(MailboxConflict)
  {
    var zeros, ones: seq<Byte> := seq(64, _ => 0), seq(64, _ => 1);
    var q: QueueId, p: QueueId, nonce: Nonce := zeros[..32], ones[..32], zeros[..16];
    assert q[0] != p[0];
    c := Crypto((b: Blob) => q, (b: Blob) => true, (k: Blob, s: Statement, g: Blob) => true);
    db := EMPTY.(mailboxes := map[p := Mailbox(p, p, p, 0)]);
    deletion := DeleteMailboxRequest(p, nonce, 1, zeros);
    r := MailboxRegistration(q, q, q, q, nonce, 1, zeros);
  }
}
