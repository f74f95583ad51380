# Verification of the secure-messenger-lab relay, client and state store

A Dafny model of four parts of the repository, with proofs about all of their runs:

- **The relay** (`src/relay.rs`): six SQLite tables, five signed commands, lazy expiry, one
  transaction per command. `RelayServer.Relay` is the object with its tables and audit log;
  each command works on a `Transaction`, a private copy that is committed or dropped.
  `Commands` says what each command decides; `Runs`, `Consistency`, `Ledger`, `Sweeps` and
  `Isolation` hold the theorems about whole runs under a clock that does not go back. `Outcomes`
  gives every reply and effect for every input, and `Opening` what opening a database keeps.
- **Signed commands** (`src/capability.rs`): the length-prefixed canonical encoding, its decoder,
  the receiver's check of an outer envelope (`Framing`, `Capability`), and the requests that a
  mailbox owner signs (`Owner`).
- **The client** (`src/client.rs`): staged opening of messages (`Client`), and, for any number of
  clients together with the relay, why a ciphertext was ever deleted (`Provenance`).
- **The state store** (`src/persistence/sqlite.rs`, `src/persistence/envelope.rs`): the sealed
  one-row snapshot (`Envelope`, `Store`) and any number of handles competing for it with commits
  cut into phases, crashes and uncertain COMMITs (`Chain`).

SHA-256, Ed25519, XChaCha20-Poly1305, Olm and the platform key protector are records of arbitrary
functions, so every theorem holds for all of them; what a theorem needs of them (unwrap undoes
wrap, decryption undoes encryption, no forgery) is in its `requires`. The clock, random bytes and
storage faults are parameters. Integers are unbounded; `u64` saturation and the conversion to the
database's `i64` are written out.

The longer proofs speak of signed statements and headers rather than bytes: `Capability.Over`
composes a verifier of bytes with the canonical encoding, and `Envelope.OverHeaders` composes a
cipher with the associated data. `Capability.SigningBytesInjective` and `Envelope.AadInjective` say
what the bytes determine.

How the proofs are laid out: `Commands.Transact` decides a command on the swept tables and
`Commands.AcceptedIsGrounded` sums up what an accepted change rests on. Every run theorem is an
induction that uses only that summary and how a sweep and a change act on the tables. The store's
invariant is per handle, so that a step has to be checked only for the handle that takes it.

## Where the code is not what its documents or a reader may expect

- `THREAT_MODEL.md` says expiry is swept at every relay operation. A command that fails drops its
  transaction, sweep included. The model follows the code, and `Sweeps.LostSweepsDoNotShow` proves
  that no reply can tell the difference.
- A send that conflicts with a stored message is a conflict, except that a retry of the stored
  packet with an expiry beyond `i64::MAX` is refused as a storage failure. `Runs.LaterSendsAreDecidedByTheWinner`
  gives the exact reply for every input and `Runs.ConflictCanSurfaceAsStorage` a concrete one.
- `immutable_uri` names its path exactly if and only if the path does not start with `//`
  (`Uri.UriNamesPathExactly`).
- `authorize_ack` signs for the capability's queue, not for the queue of the message. The theorem
  about deletions therefore names the queue only when the two are kept equal.
- Queues do not see each other, except that deleting one makes another of the same digest
  impossible to register (`Isolation.QueuesAreIsolated`, `Isolation.CollisionsShow`).
- `AlreadyDeleted` is answered without comparing the packet hash, and a failing `seal` or
  `prekey_bundle` may already have changed the session or the account.

## Model

| member | source | states |
|---|---|---|
| `Runs.NoRestoring` | src/relay.rs:228-295 | two `Stored` outcomes for one message id are apart by at least the first one's retention, through any mix of acknowledgement, expiry and mailbox deletion, so one send request is stored at most once |
| `Runs.FetchNotReplayed` | src/relay.rs:303-320 | a fetch nonce is accepted again only at or after the earlier request's `valid_until`, so a signed fetch succeeds at most once |
| `Runs.AckRetryIsSafe` | src/relay.rs:362-426 | after `Deleted`, the same request inside its window on a registered mailbox always gives `AlreadyDeleted` |
| `Runs.AcknowledgedStaysGone` | src/relay.rs:244-258 | for seven days after `Deleted`, every valid send of that message id is refused as `MessageGone` |
| `Runs.RetirementIsPermanent` | src/relay.rs:434-464 | after a committed deletion no command on the queue succeeds and no mailbox, message, tombstone or request nonce of it reappears, with no assumption on the digest |
| `Runs.RetirementsOnlyGrow` | src/relay.rs:452-456 | a retired queue hash and its time are never removed or changed |
| `Runs.FirstSendIsStored` | src/relay.rs:244-291 | a valid send is stored exactly when no unexpired row or tombstone has its id and its expiry fits the database |
| `Runs.LaterSendsAreDecidedByTheWinner` | src/relay.rs:260-279 | any number of later valid sends of the id, with any traffic between: `Duplicate` exactly when packet and expiry are the winner's, else a conflict, with the one exception stated exactly |
| `Runs.ConflictCanSurfaceAsStorage` | src/relay.rs:271-278 | the exception happens: a run of three commands from an empty database whose last, a retry, is refused as `Storage` |
| `Runs.FailureChangesNothing` | src/relay.rs:145-220 | a failed command leaves the six tables and the audit log as they were |
| `Runs.Carry` | src/relay.rs:138-482 | retirement, spent message ids, spent nonces, tombstones and mailbox keys, once true in a run with a nondecreasing clock, hold from then on |
| `Commands.AcceptedIsGrounded` | src/relay.rs:138-464 | what holds of the swept tables and the clock whenever a change is accepted: referenced mailbox, free key, unretired queue, genuine sender signature, deadline within its span |
| `Sweeps.ScheduleDoesNotMatter` | src/relay.rs:472-506 | any two schedules of purges and reopens around the same requests give the same replies |
| `Isolation.QueuesAreIsolated` | src/relay.rs:138-482 | in any run the replies to a queue's commands are those it would have got with no other command in the run, if no other queue of the same digest is deleted |
| `Isolation.CollisionsShow` | src/relay.rs:149-157 | that condition is needed: a concrete collision makes a queue impossible to register |
| `Sweeps.SweepsDoNotShow` | src/relay.rs:992-1009 | a run with bare sweeps gives the replies of the run without them, from any two databases that a sweep makes equal |
| `Sweeps.LostSweepsDoNotShow` | src/relay.rs:145-157 | a relay that commits its sweep even when the command fails gives the same replies as this one |
| `Sweeps.AlikeStep` | src/relay.rs:138-506 | databases that a sweep makes equal answer every request alike and stay alike |
| `Schema.SweepAbsorbs` | src/relay.rs:992-1009 | a later sweep makes an earlier one unnoticeable |
| `Consistency.ConsistentThroughout` | src/relay.rs:710-757 | referential integrity, distinct keys, messages disjoint from tombstones, accounted nonces, parsing keys, and messages whose own columns their sender signed hold throughout every run |
| `Consistency.ConsistentKept` | src/relay.rs:194-464 | each grounded change preserves that invariant, cascade included |
| `Consistency.OpenedIsConsistent` | src/relay.rs:528-563 | an opened database starts from the invariant, parsing keys included, whatever messages a legacy one held; opening a current one is a sweep |
| `Opening.OpensExactly` | src/relay.rs:537-562 | the exact pairs of schema version and kind that open |
| `Opening.OpeningKeeps` | src/relay.rs:546-560 | opening keeps every mailbox, retired queue, and tombstone and nonce not yet due; messages are kept from a current schema and dropped from a legacy one |
| `Opening.CarryReopened` | src/relay.rs:104-128 | what lasts in a run lasts across opening and migration, through the whole run that follows |
| `Opening.RetirementOutlivesOpening` | src/relay.rs:552-560 | a retired queue stays retired across a migration and every run after it |
| `Opening.MailboxOutlivesOpening` | src/relay.rs:552-560 | a mailbox keeps its keys across a migration and every run after it, or was deleted |
| `Consistency.RetentionIsBounded` | src/relay.rs:1034-1046 | no deadline is ever further off than its span; after a commit at t, messages and tombstones are due in (t, t + 604800] and nonces in (t, t + 300] |
| `Consistency.RegistrationDecidedExactly` | src/relay.rs:138-220 | the reply to a registration for every input: window, signature of the manage key over all six fields, retirement, other keys; the nonce refusal is unreachable |
| `Outcomes.RegistrationEffect` | src/relay.rs:159-216 | a successful registration stores exactly the request's keys and the time for a new queue, changes no other mailbox, and notes the nonce |
| `Outcomes.RegistrationWasSigned` | src/relay.rs:140-143 | without forgeries, the manage key signed exactly this registration, field by field |
| `Outcomes.NewMailboxIsRegistered` | src/relay.rs:206-216 | the only way to a new mailbox is a signed registration of it |
| `Outcomes.MailboxesAreVouched` | src/relay.rs:138-220 | throughout every run each mailbox has keys that its own manage key signed for that queue |
| `Consistency.RegisteredMeans` | src/relay.rs:159-216 | after any successful registration the mailbox has exactly the request's three keys |
| `Consistency.UpsertNeverUpdates` | src/relay.rs:413-422 | the tombstone of an acknowledgement is always new |
| `Consistency.DeletionSucceedsExactly` | src/relay.rs:434-464 | exactly when a deletion succeeds; no nonce is ever in its way and it never answers `Ok(false)` |
| `Consistency.FetchSucceedsExactly` | src/relay.rs:303-354 | exactly when a fetch succeeds; no stored row can make it fail |
| `Outcomes.AcknowledgementDecidedExactly` | src/relay.rs:362-426 | the reply to an acknowledgement for every input, by window, mailbox, key and signature, then the queued row's hash and whether the message was buried; never both queued and buried |
| `Outcomes.DeletedEffect` | src/relay.rs:406-422 | an acknowledgement replaces exactly one message by a tombstone of seven days and changes nothing else |
| `Outcomes.SendRefusedExactly` | src/relay.rs:228-242 | which error a send gets for its size, expiry, mailbox, key or signature |
| `Outcomes.SendDecidedExactly` | src/relay.rs:244-291 | the reply to every other send, by the tombstone or the queued row of its id |
| `Outcomes.StoredEffect` | src/relay.rs:281-291 | a stored send appends its own fields as the newest row and changes nothing else |
| `Outcomes.RepeatsChangeNothing` | src/relay.rs:271-277 | a repeated send or acknowledgement that succeeds leaves the swept tables |
| `Outcomes.FetchDecidedExactly` | src/relay.rs:303-354 | which error a fetch gets, or that it succeeds, for every input |
| `Outcomes.FetchedEffect` | src/relay.rs:314-320 | a fetch takes nothing away and spends exactly its nonce |
| `Outcomes.DeletionDecidedExactly` | src/relay.rs:434-464 | the reply to a mailbox deletion for every input on any tables |
| `Outcomes.MailboxDeletedEffect` | src/relay.rs:452-460 | a deletion removes every row of its queue but registration nonces, retires its hash once, and keeps every other queue's rows |
| `Outcomes.CountsAreExact` | src/relay.rs:472-506 | the count is of the messages in force, the purge reports exactly those that went |
| `Outcomes.SweepRemovesExactlyWhatIsDue` | src/relay.rs:992-1009 | a sweep removes exactly what is due from four tables and nothing from the other two |
| `Outcomes.AuditTellsReplies` | src/relay.rs:523-525 | the audit log is the log of replies: one line per success, telling it, none per failure |
| `Consistency.FetchedEnvelopesVerify` | src/capability.rs:184-205 | every envelope a fetch returns passes the receiver's check at that time |
| `Consistency.DeliveredEnvelopesVerify` | src/relay.rs:322-350 | and does so for every capability of an earlier accepted registration, since mailbox keys never change |
| `Ledger.FetchRefinesLog` | src/relay.rs:322-350 | a fetch returns, in order of acceptance, exactly the sends that the log of replies shows as stored, unexpired, and not acknowledged or deleted with their mailbox |
| `Ledger.FetchReturnsWhatWasSent` | src/relay.rs:340-346 | an envelope is in a fetch if and only if an earlier send with those very fields was stored and is still in force |
| `Ledger.TablesMatchLog` | src/relay.rs:281-291 | at any time of any run a queue's unexpired rows are what the log of replies says is pending |
| `Ledger.Conservation` | src/relay.rs:228-482 | initial and stored messages equal acknowledged, swept, cascaded and still queued ones, over every run |
| `RelayServer.DeleteDue` | src/relay.rs:996-1007 | deleting due rows one by one keeps exactly the rows with a later deadline |
| `RelayServer.Verify` | src/capability.rs:302-418 | a signature is checked over the statement's canonical bytes |
| `RelayServer.Transaction.PurgeExpired` | src/relay.rs:992-1009 | keeps exactly the unexpired rows of four tables, messages in order, and counts the messages it removed; a time beyond `i64` is an error that changes nothing |
| `RelayServer.Transaction.MailboxKeyOf` | src/relay.rs:971-990 | the stored key, or a missing mailbox, or a key that does not parse |
| `RelayServer.Transaction.Check` | src/relay.rs:239-242 | a missing mailbox comes before a bad key, a bad key before a bad signature |
| `RelayServer.Transaction.RecordNonce` | src/relay.rs:1011-1032 | inserts exactly when the deadline fits and the nonce is new; otherwise changes nothing |
| `RelayServer.Transaction.FindMessage` | src/relay.rs:373-382 | the scan finds the first row with the key, or none if there is none |
| `RelayServer.Transaction.ReadQueue` | src/relay.rs:322-350 | the queue's unexpired rows in rowid order as envelopes, or a failure if any of them is malformed |
| `RelayServer.Transaction.DeleteMessage` | src/relay.rs:406-412 | removes every row with the key and keeps the others in order |
| `RelayServer.Transaction.DeleteMailboxRow` | src/relay.rs:457-460 | removes the mailbox and, by cascade, every message, tombstone and request nonce of its queue, and nothing else |
| `RelayServer.Transaction.Register` | src/relay.rs:149-216 | the statements of a registration amount to one decision on the swept tables and one change |
| `RelayServer.Transaction.Enqueue` | src/relay.rs:239-291 | the same for a send |
| `RelayServer.Transaction.Fetch` | src/relay.rs:309-350 | the same for a fetch, although its nonce is recorded before the rows are read |
| `RelayServer.Transaction.Acknowledge` | src/relay.rs:368-422 | the same for an acknowledgement, although the row is deleted before the tombstone's time is converted |
| `RelayServer.Transaction.DeleteMailbox` | src/relay.rs:440-460 | the same for a deletion: the nonce it records goes with its own cascade |
| `RelayServer.Relay.Register` | src/relay.rs:138-220 | reply, committed tables and audit log of a registration; an error leaves tables and log |
| `RelayServer.Relay.Enqueue` | src/relay.rs:228-295 | reply, committed tables and audit log of a send; an error leaves tables and log |
| `RelayServer.Relay.Fetch` | src/relay.rs:303-354 | reply, committed tables and audit log of a fetch; an error leaves tables and log |
| `RelayServer.Relay.Acknowledge` | src/relay.rs:362-426 | reply, committed tables and audit log of an acknowledgement; an error leaves tables and log |
| `RelayServer.Relay.DeleteMailbox` | src/relay.rs:434-464 | reply, committed tables and audit log of a deletion; an error leaves tables and log |
| `RelayServer.Relay.PurgeExpired` | src/relay.rs:472-482 | the number removed, the swept tables, and an audit event exactly if any message went |
| `RelayServer.Relay.QueuedMessageCountAt` | src/relay.rs:498-506 | the number of unexpired messages, with the sweep committed |
| `Sweeps.TombstoneCountSeesSweeps` | src/relay.rs:513-520 | `tombstone_count` does not sweep: of two databases no request can tell apart it counts more in the unswept one exactly when a tombstone there is due |
| `RelayServer.OpenAt` | src/relay.rs:104-128 | schema version and kind decide between current, empty and migrated tables, swept; everything else is refused |
| `Capability.Canonical` | src/capability.rs:420-430 | the buffer grown part by part is the framed domain, action and parts |
| `Capability.AppendPart` | src/capability.rs:432-436 | appends one part behind its saturating `u64` length |
| `Capability.DecodeUndoesCanonical` | src/capability.rs:420-436 | a decoder recovers the action and every part of any canonical encoding |
| `Capability.SigningBytesInjective` | src/capability.rs:302-418 | no byte string is the signing bytes of two statements: not of two actions, fetch and delete-mailbox included, nor of one action with any field changed |
| `Capability.AttestedWasSigned` | src/capability.rs:420-436 | without forgeries, a signature that verifies was made for that very action and those very fields |
| `Capability.EnvelopeVerifiesExactly` | src/capability.rs:184-205 | an envelope is accepted exactly when it is for the queue, in time and signed by the send key over its own fields |
| `Capability.VerifiedEnvelopeWasSent` | src/capability.rs:184-205 | without forgeries, an accepted envelope was signed as a send of exactly this queue, id, packet digest and expiry |
| `Owner.RegistrationIsServed` | src/capability.rs:43-68 | the owner's registration of a new queue is accepted and the mailbox is then the owner's |
| `Owner.SendIsServed` | src/capability.rs:125-149 | a send by the capability's holder is stored unless its id is in use or buried |
| `Owner.FetchIsServed` | src/capability.rs:159-176 | a fetch by the capability's holder is answered and everything in it verifies |
| `Owner.AckIsServed` | src/capability.rs:210-229 | an acknowledgement of an opened message deletes the row that was opened |
| `Owner.DeleteIsServed` | src/capability.rs:272-289 | a deletion by the manager is carried out |
| `Owner.LifeOfAMailbox` | src/capability.rs:43-289 | register, send, fetch exactly what was sent, acknowledge, fetch nothing, delete: all served, on a relay with anything else on it |
| `Framing.UnframeUndoesFrames` | src/capability.rs:432-436 | parsing length prefixes undoes framing, for any list of parts and any prefix width |
| `Client.VerifiedBundleWasSigned` | src/client.rs:33-53 | an accepted contact bundle was signed as one, field by field, by the pinned identity, and is in its window |
| `Client.OlmClient.StartOutboundSession` | src/client.rs:228-245 | a session only if there was none; a failure leaves the whole state |
| `Client.OlmClient.OpenInitialMessage` | src/client.rs:277-314 | account, session and displayed set change together after the last check, or not at all |
| `Client.OlmClient.OpenMessage` | src/client.rs:323-342 | session and displayed set change together after the last check, or not at all |
| `Client.OlmClient.Validate` | src/client.rs:344-364 | which binding check fails first |
| `Client.OpensExactly` | src/client.rs:277-342 | a message is opened exactly when the envelope is in time, a first message finds no session, and the envelope's own packet decodes to version 1 of this conversation under the outer id, not yet displayed; with the exact next state |
| `Client.RefusedForItsBinding` | src/client.rs:344-364 | which binding a decoded message is refused for |
| `Client.RefusedUndecoded` | src/client.rs:277-342 | which error is given before a message is decoded |
| `Client.OpenedMeans` | src/client.rs:277-364 | an opened message is the decoding of its envelope's packet, of this conversation, with the envelope's id, in time, and displayed from then on |
| `Client.OnlyOwnConversationOpens` | src/client.rs:354-356 | over any sequence of calls a client opens only version 1 messages of its one conversation |
| `Client.StartsExactly` | src/client.rs:228-245 | a session starts exactly when there is none, the bundle is in time and Olm accepts its two keys in their roles |
| `Client.SessionKeysWereSigned` | src/client.rs:33-53 | a session is only started with keys the pinned identity signed together as a bundle |
| `Client.BundleVerifiesExactly` | src/client.rs:33-53 | exactly when a contact bundle verifies |
| `Client.BundleRoundTrip` | src/client.rs:187-209 | a client's own bundle verifies for whoever pinned its identity, exactly while in its window |
| `Client.OpenUndoesSeal` | src/client.rs:254-268 | what one client seals the other opens to exactly the body, time and id, if and only if it is in the same conversation and has not displayed the id |
| `Client.SealMovesTheSession` | src/client.rs:254-268 | sealing moves the session on, even when it fails after encrypting, and which error it gives |
| `Client.BundleFailsExactly` | src/client.rs:187-209 | making a bundle fails exactly when no one-time key was generated; the account has changed all the same |
| `Client.OlmClient.SealMessage` | src/client.rs:254-268 | sealing as an update of the session alone |
| `Client.OlmClient.MakeBundle` | src/client.rs:187-209 | making a bundle as an update of the account alone |
| `Client.OpenedAtMostOnce` | src/client.rs:344-364 | over any sequence of calls no message id is opened twice |
| `Client.SessionEstablishedAtMostOnce` | src/client.rs:228-245 | over any sequence of calls a session is established at most once and never lost |
| `Provenance.DeletionFollowsOpening` | src/capability.rs:184-229 | with any number of clients sharing capabilities, every `Deleted` for an honest receive key follows a verified and opened envelope with that message id and exactly the deleted ciphertext, or the two are a digest collision; of the opening client's own conversation; sent by the holder of the send key; and through that queue if acknowledgements use the message's own queue |
| `Provenance.ReceptionFollowsSending` | src/capability.rs:125-205 | nothing is opened that was not sent: an earlier send signed this queue, id, expiry and packet digest with the send key |
| `Provenance.AcksOnlyReceivedAlways` | src/capability.rs:207-229 | in every run nothing has been signed but sends, fetches and acknowledgements of opened messages |
| `Provenance.ReceivedEarlier` | src/client.rs:277-342 | every opened message came from one earlier verified envelope |
| `Envelope.Aad` | src/persistence/envelope.rs:102-127 | the associated data grown part by part; its `u32` lengths always fit, so it never fails |
| `Envelope.AadInjective` | src/persistence/envelope.rs:102-120 | associated data pins profile, key reference, generation and wrapped-key hash |
| `Envelope.UnsealUndoesSeal` | src/persistence/envelope.rs:28-88 | what was sealed opens to the same state, within all length bounds |
| `Envelope.SealsExactly` | src/persistence/envelope.rs:28-55 | the exact limits within which sealing is encryption |
| `Envelope.UnsealsExactly` | src/persistence/envelope.rs:61-88 | the exact limits within which opening is decryption |
| `Envelope.OnlySealedSnapshotsOpen` | src/persistence/envelope.rs:61-88 | without forgeries, what opens matches a sealed snapshot in every authenticated part |
| `Store.OnlySealedRowsOpen` | src/persistence/sqlite.rs:142-176 | without forgeries, a stored row whose profile, key reference, generation, wrapped-key hash, nonce or ciphertext differs from every sealed snapshot does not open |
| `Store.CreateStore` | src/persistence/sqlite.rs:68-134 | when a store is created, its row and handle, and what an uncertain COMMIT leaves |
| `Store.OpenStore` | src/persistence/sqlite.rs:142-176 | a handle is made exactly when the row reads back, unwraps and authenticates |
| `Chain.ReadStateWasDurable` | src/persistence/sqlite.rs:184-187 | whatever `state` returns, at any point of any run, is what opening a durable row yields; once refused it is refused for good |
| `Store.CreatesExactly` | src/persistence/sqlite.rs:68-134 | exactly when a store is created; its handle holds the given state at generation 1 |
| `Store.OpensExactly` | src/persistence/sqlite.rs:588-649 | exactly when a row opens, and that the handle holds its columns and the decrypted state |
| `Store.CommitsExactly` | src/persistence/sqlite.rs:226-299 | exactly when a commit succeeds; handle and row then hold the given state under the given nonce at the next generation |
| `Store.ClientStateStore.Commit` | src/persistence/sqlite.rs:226-235 | handle, row and result of a commit; success holds the given state, any failure poisons and keeps the old one |
| `Store.ClientStateStore.CommitInner` | src/persistence/sqlite.rs:237-299 | the row is replaced only if every column is the cached one, and fields are installed only after COMMIT |
| `Chain.InvAlways` | src/persistence/sqlite.rs:226-307 | the invariant of row, handles, phases and write lock over every interleaving |
| `Chain.OnlyTheHolderReplaces` | src/persistence/sqlite.rs:262-290 | no lost update: only a COMMIT by a handle that had authenticated exactly the stored row replaces it, with the next generation |
| `Chain.GenerationsCountUp` | src/persistence/sqlite.rs:237-299 | durable generations are 1, 2, 3, ... with none skipped |
| `Chain.NoFork` | src/persistence/sqlite.rs:262-290 | a durable row stays the only one of its generation, and the generation never drops |
| `Chain.OneCommitPerGeneration` | src/persistence/sqlite.rs:237-299 | of two durable writes each moves the generation by one and the later writes a higher one |
| `Chain.PoisonIsForever` | src/persistence/sqlite.rs:301-306 | a handle that failed stays unusable and starts no commit |
| `Chain.OldOrNewState` | src/persistence/sqlite.rs:285-298 | however a COMMIT ends, the row opens to the complete old or the complete new state, and the handle is poisoned exactly when failure was reported |
| `Chain.CommittedReadsBack` | src/persistence/sqlite.rs:237-299 | what a successful commit was given is what the handle holds and what reopening yields |
| `Chain.StoredStateWasGiven` | src/persistence/sqlite.rs:68-299 | at any point of any run the stored row opens to exactly the state given to the creation, or to the seal phase of the commit, that wrote it |
| `Chain.CreationEnds` | src/persistence/sqlite.rs:97-134 | however a creation ends, the database is empty or opens to the complete given state |
| `Chain.CrashRollsBack` | src/persistence/sqlite.rs:257-290 | a crash ends its handle and its transaction and leaves the row and every other handle |
| `Chain.LastGeneration` | src/persistence/envelope.rs:90-100 | at generation `i64::MAX` a commit fails with the row unchanged |
| `Chain.LastGenerationIsFinal` | src/persistence/sqlite.rs:237-299 | once generation `i64::MAX` is durable the stored row never changes again in the run |
| `Chain.StoredRowReopens` | src/persistence/sqlite.rs:142-176 | at any point of any run the stored row opens to a usable handle on exactly that row |
| `Chain.AuthenticatedReopens` | src/persistence/sqlite.rs:588-656 | a row that was created or committed meets the table's checks and reopening it gives the handle back |
| `Chain.HandleStateIsAuthentic` | src/persistence/sqlite.rs:184-187 | a handle's state is always the AEAD opening of its cached row, which was durable |
| `Chain.PhasesComposeToCommit` | src/persistence/sqlite.rs:237-299 | the phases run without interruption are the one-piece commit |
| `Uri.ImmutableUri` | src/relay.rs:688-703 | the URI built byte by byte is the scheme, the escaped path and the fixed query |
| `Uri.UriNamesPathExactly` | src/relay.rs:688-703 | reading the URI back by RFC 3986 gives the original path and query if and only if the path does not start with `//` |
| `Uri.UriInjective` | src/relay.rs:688-703 | distinct paths have distinct URIs |

## Left out

- SQLite itself: PRAGMAs, schema introspection, `integrity_check`, busy timeouts, I/O errors of the relay's own COMMIT, and exhaustion of rowids. Transactions are serialized, as immediate ones are.
- Classification of a database by its schema manifest: the version and kind are parameters of `OpenAt`.
- Companion files and hot-journal recovery (`src/companion.rs`, `src/relay.rs:623-686`): file-system checks with no deep property.
- The cryptographic primitives, the Olm ratchet, JSON encoding and random generation: arbitrary functions or parameters.
- `Ledger.FetchRefinesLog` starts from a database without messages, as an empty or migrated one is.
- Protection levels of the key protector, `Debug` redaction, error texts, `src/main.rs`.
- Rollback of the state database by someone with write access to the file: the chain is over the store's own steps.
