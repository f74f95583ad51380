/** Opening a database: which ones open, what a migration keeps, and what lasts across it. */
module Opening {
  import opened Bytes
  import opened LabErrors
  import opened Capability
  import opened Schema
  import opened Commands
  import opened Runs
  import opened Consistency
  import opened Outcomes

  /** Exactly these databases open, at a time the database can hold: a current schema at version 2,
      and an empty or a legacy one at version 0 or 1. */
  lemma OpensExactly(version: int, kind: SchemaKind, db: Tables, now: U64)
    ensures Initialized(version, kind, db, now).Ok? <==>
            && now <= I64_MAX
            && ((version == 2 && kind == CurrentSchema)
                || (version in {0, 1} && (kind == EmptySchema || kind == LegacySchema)))
    ensures Initialized(version, kind, db, now).Err? ==> Initialized(version, kind, db, now).error == Storage
  {
  }

  /** Opening a database that has rows keeps every mailbox, every retired queue, and every
      tombstone and nonce that is not yet due, with its deadline. Messages are kept, in order, if
      the schema is current, and dropped if it is legacy. */
  lemma OpeningKeeps(version: int, kind: SchemaKind, db: Tables, now: U64)
    requires kind != EmptySchema && Initialized(version, kind, db, now).Ok?
    ensures var kept := Initialized(version, kind, db, now).value;
            && kept.mailboxes == db.mailboxes && kept.retiredQueues == db.retiredQueues
            && kept.messages == (if kind == CurrentSchema then Unexpired(db.messages, now) else [])
            && kept.tombstones == Live(db.tombstones, now)
            && kept.requestNonces == Live(db.requestNonces, now)
            && kept.registrationNonces == Live(db.registrationNonces, now)
  {
  }

  /** An empty database opens without a row in any table. */
  lemma EmptyOpensEmpty(version: int, db: Tables, now: U64)
    requires Initialized(version, EmptySchema, db, now).Ok?
    ensures Initialized(version, EmptySchema, db, now).value == Tables(map[], [], map[], map[], map[], map[])
  {
  }

  /** What lasts in a run lasts across opening: retirement, mailboxes, spent nonces and burials
      always, and spent message ids if the messages are kept. */
  lemma FactReopened(c: Crypto, fact: Fact, version: int, kind: SchemaKind, db: Tables, t: int, now: U64)
    requires kind != EmptySchema && Initialized(version, kind, db, now).Ok?
    requires fact.MessageSpent? ==> kind == CurrentSchema
    requires True(c, fact, db, t) && t <= now
    ensures True(c, fact, Initialized(version, kind, db, now).value, now)
  {
    var rows := if kind == CurrentSchema then db else Migrate(db);
    OpeningKeeps(version, kind, db, now);
    FactSwept(c, fact, rows, t, now);
  }

  /** And from there through the whole run of the relay that was opened. */
  lemma {:induction false} CarryReopened(c: Crypto, fact: Fact, version: int, kind: SchemaKind, db: Tables, t: int,
                                         now: U64, steps: seq<Step>, n: nat)
    requires kind != EmptySchema && Initialized(version, kind, db, now).Ok?
    requires fact.MessageSpent? ==> kind == CurrentSchema
    requires True(c, fact, db, t) && t <= now
    requires Nondecreasing(steps) && n <= |steps| && (steps != [] ==> now <= steps[0].now)
    ensures True(c, fact, After(c, Initialized(version, kind, db, now).value, steps, n),
                 if n == 0 then now else steps[n - 1].now)
  {
    if n == 0 {
      FactReopened(c, fact, version, kind, db, t, now);
    } else {
      CarryReopened(c, fact, version, kind, db, t, now, steps, n - 1);
      var before := After(c, Initialized(version, kind, db, now).value, steps, n - 1);
      FactNext(c, fact, before, steps[n - 1].cmd, if n == 1 then now else steps[n - 2].now, steps[n - 1].now);
    }
  }

  /** Retirement outlives a migration: a queue that is gone from a legacy or a current database
      stays gone in every run after it is opened, and every command on it fails. */
  lemma RetirementOutlivesOpening(c: Crypto, version: int, kind: SchemaKind, db: Tables, now: U64, q: Blob,
                                  steps: seq<Step>, n: nat)
    requires kind != EmptySchema && Initialized(version, kind, db, now).Ok? && Gone(c, db, q)
    requires Nondecreasing(steps) && n < |steps| && now <= steps[0].now
    ensures Gone(c, After(c, Initialized(version, kind, db, now).value, steps, n), q)
    ensures QueueOf(steps[n].cmd) == Some(q) ==> ReplyAt(c, Initialized(version, kind, db, now).value, steps, n).Failed?
  {
    CarryReopened(c, QueueGone(q), version, kind, db, now, now, steps, n);
    if QueueOf(steps[n].cmd) == Some(q) {
      GoneRefuses(c, After(c, Initialized(version, kind, db, now).value, steps, n), steps[n].cmd, steps[n].now, q);
    }
  }

  /** So does a mailbox: in every run after opening it has the keys it had, or it was deleted. */
  lemma MailboxOutlivesOpening(c: Crypto, version: int, kind: SchemaKind, db: Tables, now: U64, q: Blob,
                               steps: seq<Step>, n: nat)
    requires kind != EmptySchema && Initialized(version, kind, db, now).Ok? && q in db.mailboxes
    requires Nondecreasing(steps) && n <= |steps| && (steps != [] ==> now <= steps[0].now)
    ensures var later := After(c, Initialized(version, kind, db, now).value, steps, n);
            (q in later.mailboxes && later.mailboxes[q] == db.mailboxes[q]) || Gone(c, later, q)
  {
    CarryReopened(c, MailboxStanding(q, db.mailboxes[q]), version, kind, db, now, now, steps, n);
  }
}
