/** The relay against its own log: a fetch returns exactly what the replies say is pending,
    and no message is created or lost. */
module Ledger {
  import opened Bytes
  import opened Capability
  import opened Schema
  import opened Commands
  import opened Runs
  import opened Consistency

  datatype Event = Event(cmd: Command, now: U64, reply: Reply)

  /** The log of the first `n` steps: commands, times and replies. */
  ghost function History(c: Crypto, db: Tables, steps: seq<Step>, n: nat): seq<Event>
    requires n <= |steps|
  {
    seq(n, i requires 0 <= i < n => EventAt(c, db, steps, i))
  }

  ghost function EventAt(c: Crypto, db: Tables, steps: seq<Step>, i: nat): Event
    requires i < |steps|
  {
    Event(steps[i].cmd, steps[i].now, ReplyAt(c, db, steps, i))
  }

  /** The event accepted a message for queue `q` that is unexpired at `t`. */
  ghost predicate Adds(e: Event, q: Blob, t: int) {
    e.cmd.Enqueue? && e.reply == Enqueued(Stored) && e.cmd.send.queueId == q && e.cmd.send.expiresAt > t
  }

  ghost predicate RemovedIn(h: seq<Event>, key: MessageKey) {
    exists k :: 0 <= k < |h| && Removes(h[k].cmd, h[k].reply, key)
  }

  /** What the log says is pending for `q` at `t`, in the order of acceptance: every send that
      was `Stored`, is unexpired at `t`, and was not acknowledged or deleted with its mailbox
      afterwards. No table is consulted. */
  ghost function Pending(h: seq<Event>, q: Blob, t: int): seq<MessageRow> {
    if h == [] then [] else PendingFirst(h[0], h[1..], q, t) + Pending(h[1..], q, t)
  }

  ghost function PendingFirst(e: Event, later: seq<Event>, q: Blob, t: int): seq<MessageRow> {
    if Adds(e, q, t) && !RemovedIn(later, RowOf(e.cmd.send).Key()) then [RowOf(e.cmd.send)] else []
  }

  ghost function SurvivesEvent(e: Event): MessageRow -> bool {
    (r: MessageRow) => !Removes(e.cmd, e.reply, r.Key())
  }

  ghost function Added(e: Event, q: Blob, t: int): seq<MessageRow> {
    if Adds(e, q, t) then [RowOf(e.cmd.send)] else []
  }

  lemma PendingFirstExtended(first: Event, later: seq<Event>, e: Event, q: Blob, t: int)
    ensures PendingFirst(first, later + [e], q, t) ==
            Select(PendingFirst(first, later, q, t), SurvivesEvent(e))
  {
    if Adds(first, q, t) {
      RemovedInExtended(later, e, RowOf(first.cmd.send).Key());
    }
  }

  lemma {:induction false} PendingExtended(h: seq<Event>, e: Event, q: Blob, t: int)
    ensures Pending(h + [e], q, t) == Select(Pending(h, q, t), SurvivesEvent(e)) + Added(e, q, t)
  {
    if h == [] {
      PendingSingle(e, q, t);
      assert [] + [e] == [e];
    } else {
      PendingExtended(h[1..], e, q, t);
      PendingUnfolds(h, e, q, t);
      var first, later := PendingFirst(h[0], h[1..], q, t), Pending(h[1..], q, t);
      SelectConcat(first, later, SurvivesEvent(e));
      Reassociate(Select(first, SurvivesEvent(e)), Select(later, SurvivesEvent(e)), Added(e, q, t));
    }
  }

  lemma PendingSingle(e: Event, q: Blob, t: int)
    ensures Pending([e], q, t) == Added(e, q, t)
  {
  }

  lemma PendingUnfolds(h: seq<Event>, e: Event, q: Blob, t: int)
    requires h != []
    ensures Pending(h + [e], q, t) ==
            Select(PendingFirst(h[0], h[1..], q, t), SurvivesEvent(e)) + Pending(h[1..] + [e], q, t)
  {
    assert (h + [e])[0] == h[0] && (h + [e])[1..] == h[1..] + [e];
    PendingFirstExtended(h[0], h[1..], e, q, t);
  }

  lemma Reassociate(a: seq<MessageRow>, b: seq<MessageRow>, c: seq<MessageRow>)
    ensures a + (b + c) == (a + b) + c
  {
  }

  lemma RemovedInExtended(h: seq<Event>, e: Event, key: MessageKey)
    ensures RemovedIn(h + [e], key) <==> RemovedIn(h, key) || Removes(e.cmd, e.reply, key)
  {
    if RemovedIn(h, key) {
      var k :| 0 <= k < |h| && Removes(h[k].cmd, h[k].reply, key);
      assert (h + [e])[k] == h[k];
    }
    if Removes(e.cmd, e.reply, key) { assert (h + [e])[|h|] == e; }
  }

  // ---- One step against the log ----

  /** The reply tells which change was made to `messages`. */
  ghost predicate Shows(e: Event, change: Change) {
    && (change.AddMessage? <==> e.reply == Enqueued(Stored))
    && (change.AddMessage? ==> e.cmd.Enqueue? && change.row == RowOf(e.cmd.send))
    && (change.BuryMessage? <==> e.reply == Acked(Deleted))
    && (change.BuryMessage? ==>
          e.cmd.Acknowledge? && change.key == MessageKey(e.cmd.ack.queueId, e.cmd.ack.messageId))
    && (change.RetireMailbox? <==> e.reply.MailboxDeleted?)
    && (change.RetireMailbox? ==> e.cmd.DeleteMailbox? && change.queueId == e.cmd.deletion.queueId)
    && !e.reply.Failed?
  }

  /** Rows of a queue, before and after a change, seen through an event that shows it. */
  lemma ChangeMatchesEvent(db: Tables, change: Change, e: Event, q: Blob, t: int)
    requires Shows(e, change)
    ensures Select(Perform(db, change).messages, InQueueAfter(q, t)) ==
            Select(Select(db.messages, InQueueAfter(q, t)), SurvivesEvent(e))
            + Added(e, q, t)
  {
    var rows, wanted := db.messages, Select(db.messages, InQueueAfter(q, t));
    if change.BuryMessage? {
      SelectCommutes(rows, HasOtherKey(change.key), InQueueAfter(q, t));
      SelectAgree(wanted, HasOtherKey(change.key), SurvivesEvent(e));
    } else if change.RetireMailbox? {
      SelectCommutes(rows, InOtherQueue(change.queueId), InQueueAfter(q, t));
      SelectAgree(wanted, InOtherQueue(change.queueId), SurvivesEvent(e));
    } else {
      SelectAll(wanted, SurvivesEvent(e));
      if change.AddMessage? {
        SelectConcat(rows, [change.row], InQueueAfter(q, t));
        assert Select([change.row], InQueueAfter(q, t)) ==
               if InQueueAfter(q, t)(change.row) then [change.row] else [];
      }
    }
  }

  lemma ReplyShowsChange(c: Crypto, db: Tables, cmd: Command, now: U64)
    requires Transact(c, db, cmd, now).Accept?
    ensures Shows(Event(cmd, now, ReplyTo(c, db, cmd, now)), Transact(c, db, cmd, now).change)
  {
  }

  lemma StepMatchesEvent(c: Crypto, db: Tables, cmd: Command, now: U64, q: Blob, t: int)
    requires now <= t
    ensures var e := Event(cmd, now, ReplyTo(c, db, cmd, now));
            Select(Next(c, db, cmd, now).messages, InQueueAfter(q, t)) ==
            Select(Select(db.messages, InQueueAfter(q, t)), SurvivesEvent(e))
            + Added(e, q, t)
  {
    var e := Event(cmd, now, ReplyTo(c, db, cmd, now));
    if Transact(c, db, cmd, now).Accept? {
      SelectTwice(db.messages, ExpiresAfter(now), InQueueAfter(q, t), InQueueAfter(q, t));
      ReplyShowsChange(c, db, cmd, now);
      ChangeMatchesEvent(Sweep(db, now), Transact(c, db, cmd, now).change, e, q, t);
    } else {
      SelectAll(Select(db.messages, InQueueAfter(q, t)), SurvivesEvent(e));
    }
  }

  lemma {:induction false} TablesMatchLog(c: Crypto, db: Tables, steps: seq<Step>, n: nat, q: Blob, t: int)
    requires Nondecreasing(steps) && n <= |steps| && db.messages == []
    requires n > 0 ==> steps[n - 1].now <= t
    ensures Select(After(c, db, steps, n).messages, InQueueAfter(q, t)) == Pending(History(c, db, steps, n), q, t)
  {
    if n == 0 {
    } else {
      TablesMatchLog(c, db, steps, n - 1, q, t);
      PendingExtended(History(c, db, steps, n - 1), EventAt(c, db, steps, n - 1), q, t);
      HistoryExtends(c, db, steps, n - 1);
      RunMatchesEvent(c, db, steps, n - 1, q, t);
    }
  }

  lemma HistoryExtends(c: Crypto, db: Tables, steps: seq<Step>, n: nat)
    requires n < |steps|
    ensures History(c, db, steps, n + 1) == History(c, db, steps, n) + [EventAt(c, db, steps, n)]
  {
  }

  lemma RunMatchesEvent(c: Crypto, db: Tables, steps: seq<Step>, n: nat, q: Blob, t: int)
    requires n < |steps| && steps[n].now <= t
    ensures Select(After(c, db, steps, n + 1).messages, InQueueAfter(q, t)) ==
            Select(Select(After(c, db, steps, n).messages, InQueueAfter(q, t)), SurvivesEvent(EventAt(c, db, steps, n)))
            + Added(EventAt(c, db, steps, n), q, t)
  {
    StepMatchesEvent(c, After(c, db, steps, n), steps[n].cmd, steps[n].now, q, t);
  }

  /** A successful fetch returns, in order of acceptance, exactly the sends that the log shows
      as pending. */
  lemma FetchRefinesLog(c: Crypto, db: Tables, steps: seq<Step>, n: nat, r: FetchRequest)
    requires Nondecreasing(steps) && n < |steps| && db.messages == []
    requires steps[n].cmd == Fetch(r) && ReplyAt(c, db, steps, n).Fetched?
    ensures ReadEnvelopes(r.queueId, Pending(History(c, db, steps, n), r.queueId, steps[n].now))
            == Some(ReplyAt(c, db, steps, n).envelopes)
  {
    var before, now := After(c, db, steps, n), steps[n].now;
    FetchedMeans(c, before, r, now);
    SelectTwice(before.messages, ExpiresAfter(now), InQueueAfter(r.queueId, now), InQueueAfter(r.queueId, now));
    TablesMatchLog(c, db, steps, n, r.queueId, now);
  }

  /** Event `i` accepted `row`, and no later one took it out. */
  ghost predicate PendingAt(h: seq<Event>, i: nat, q: Blob, t: int, row: MessageRow)
    requires i < |h|
  {
    && Adds(h[i], q, t) && row == RowOf(h[i].cmd.send)
    && forall k :: i < k < |h| ==> !Removes(h[k].cmd, h[k].reply, row.Key())
  }

  lemma {:induction false} PendingMembers(h: seq<Event>, q: Blob, t: int, row: MessageRow)
    ensures row in Pending(h, q, t) <==> exists i: nat :: i < |h| && PendingAt(h, i, q, t, row)
  {
    if h == [] {
    } else {
      PendingMembers(h[1..], q, t, row);
      assert row in PendingFirst(h[0], h[1..], q, t) <==> PendingAt(h, 0, q, t, row) by {
        assert forall k :: 0 <= k < |h[1..]| ==> h[1..][k] == h[k + 1];
        assert forall k :: 0 < k < |h| ==> h[k] == h[1..][k - 1];
      }
      forall i: nat | i < |h[1..]| ensures PendingAt(h[1..], i, q, t, row) <==> PendingAt(h, i + 1, q, t, row) {
        PendingShifts(h, i, q, t, row);
      }
      if exists i: nat :: i < |h| && PendingAt(h, i, q, t, row) {
        var i: nat :| i < |h| && PendingAt(h, i, q, t, row);
        if i > 0 { assert PendingAt(h[1..], i - 1, q, t, row) <==> PendingAt(h, (i - 1) + 1, q, t, row); }
      }
    }
  }

  lemma PendingShifts(h: seq<Event>, i: nat, q: Blob, t: int, row: MessageRow)
    requires h != [] && i < |h[1..]|
    ensures PendingAt(h[1..], i, q, t, row) <==> PendingAt(h, i + 1, q, t, row)
  {
    assert forall k :: i < k < |h[1..]| ==> h[1..][k] == h[k + 1];
    assert forall k :: i + 1 < k < |h| ==> h[k] == h[1..][k - 1];
  }

  lemma {:induction false} ReadMembers(q: QueueId, rows: seq<MessageRow>, e: StoredEnvelope)
    requires ReadEnvelopes(q, rows).Some?
    ensures e in ReadEnvelopes(q, rows).value <==> exists row :: row in rows && ReadEnvelope(q, row) == Some(e)
  {
    if rows == [] {
    } else {
      ReadMembers(q, rows[1..], e);
      assert rows == [rows[0]] + rows[1..];
      assert ReadEnvelopes(q, rows).value == [ReadEnvelope(q, rows[0]).value] + ReadEnvelopes(q, rows[1..]).value;
    }
  }

  /** Event `i` of the log stored this very envelope, and by `t` it has neither expired nor been
      acknowledged or deleted with its mailbox. */
  ghost predicate Delivers(h: seq<Event>, i: nat, q: QueueId, t: int, e: StoredEnvelope)
    requires i < |h|
  {
    && h[i].cmd == Enqueue(SendRequest(q, e.messageId, e.packet, e.expiresAt, e.senderSignature))
    && h[i].reply == Enqueued(Stored)
    && e.queueId == q && t < e.expiresAt
    && forall k :: i < k < |h| ==> !Removes(h[k].cmd, h[k].reply, MessageKey(q, e.messageId))
  }

  lemma DeliversPending(h: seq<Event>, i: nat, q: QueueId, t: int, e: StoredEnvelope)
    requires i < |h| && e.queueId == q
    ensures Delivers(h, i, q, t, e) <==>
            PendingAt(h, i, q, t, MessageRow(q, e.messageId, e.packet, e.expiresAt, e.senderSignature))
  {
    var row := MessageRow(q, e.messageId, e.packet, e.expiresAt, e.senderSignature);
    assert row.Key() == MessageKey(q, e.messageId);
  }

  /** A fetch returns exactly what was sent: an envelope is in it if and only if an earlier send
      with those very fields was stored and is still in force. */
  lemma FetchReturnsWhatWasSent(c: Crypto, db: Tables, steps: seq<Step>, n: nat, r: FetchRequest, e: StoredEnvelope)
    requires Nondecreasing(steps) && n < |steps| && db.messages == []
    requires steps[n].cmd == Fetch(r) && ReplyAt(c, db, steps, n).Fetched?
    ensures e in ReplyAt(c, db, steps, n).envelopes <==>
            exists i: nat :: i < n && Delivers(History(c, db, steps, n), i, r.queueId, steps[n].now, e)
  {
    var h, q, now := History(c, db, steps, n), r.queueId, steps[n].now;
    FetchRefinesLog(c, db, steps, n, r);
    ReadDelivers(h, q, now, e);
  }

  lemma ReadDelivers(h: seq<Event>, q: QueueId, t: int, e: StoredEnvelope)
    requires ReadEnvelopes(q, Pending(h, q, t)).Some?
    ensures e in ReadEnvelopes(q, Pending(h, q, t)).value <==> exists i: nat :: i < |h| && Delivers(h, i, q, t, e)
  {
    ReadMembers(q, Pending(h, q, t), e);
    if e in ReadEnvelopes(q, Pending(h, q, t)).value {
      var row :| row in Pending(h, q, t) && ReadEnvelope(q, row) == Some(e);
      PendingMembers(h, q, t, row);
      var i: nat :| i < |h| && PendingAt(h, i, q, t, row);
      DeliversPending(h, i, q, t, e);
    }
    if exists i: nat :: i < |h| && Delivers(h, i, q, t, e) {
      var i: nat :| i < |h| && Delivers(h, i, q, t, e);
      var row := MessageRow(q, e.messageId, e.packet, e.expiresAt, e.senderSignature);
      DeliversPending(h, i, q, t, e);
      PendingMembers(h, q, t, row);
      AllRead(q, Pending(h, q, t), row);
    }
  }

  lemma {:induction false} AllRead(q: QueueId, rows: seq<MessageRow>, row: MessageRow)
    requires ReadEnvelopes(q, rows).Some? && row in rows
    ensures ReadEnvelope(q, row).Some?
  {
    if rows[0] == row {
    } else {
      AllRead(q, rows[1..], row);
    }
  }

  // ---- Conservation ----

  /** The tables before each step and after the last. */
  ghost function States(c: Crypto, db: Tables, steps: seq<Step>): seq<Tables> {
    seq(|steps| + 1, i requires 0 <= i <= |steps| => After(c, db, steps, i))
  }

  ghost function Count(h: seq<Event>, reply: Reply): nat {
    if h == [] then 0 else Count(h[..|h| - 1], reply) + (if h[|h| - 1].reply == reply then 1 else 0)
  }

  /** Rows past their expiry when a command committed. */
  ghost function SweptAt(db: Tables, e: Event): nat {
    if e.reply.Failed? then 0 else Expired(db.messages, e.now)
  }

  /** Unexpired rows of a queue when its mailbox was deleted. */
  ghost function CascadedAt(db: Tables, e: Event): nat {
    if e.cmd.DeleteMailbox? && e.reply.MailboxDeleted?
    then Queued(db.messages, e.cmd.deletion.queueId, e.now) else 0
  }

  ghost function Swept(states: seq<Tables>, h: seq<Event>): nat
    requires |states| > |h|
  {
    if h == [] then 0
    else Swept(states, h[..|h| - 1]) + SweptAt(states[|h| - 1], h[|h| - 1])
  }

  ghost function Cascaded(states: seq<Tables>, h: seq<Event>): nat
    requires |states| > |h|
  {
    if h == [] then 0
    else Cascaded(states, h[..|h| - 1]) + CascadedAt(states[|h| - 1], h[|h| - 1])
  }

  /** How many rows of `q` are unexpired at `now`. */
  ghost function Queued(rows: seq<MessageRow>, q: Blob, now: int): nat {
    |Select(rows, InQueueAfter(q, now))|
  }

  lemma {:induction false} SweepCount(rows: seq<MessageRow>, now: int)
    ensures |Unexpired(rows, now)| + Expired(rows, now) == |rows|
  {
    if rows == [] {
    } else {
      SweepCount(rows[1..], now);
    }
  }

  lemma {:induction false} CascadeCount(rows: seq<MessageRow>, q: Blob, now: int)
    ensures |Select(Unexpired(rows, now), InOtherQueue(q))| + Queued(rows, q, now) == |Unexpired(rows, now)|
  {
    if rows == [] {
    } else {
      CascadeCount(rows[1..], q, now);
      var head := if rows[0].expiresAt > now then [rows[0]] else [];
      SelectConcat(head, Unexpired(rows[1..], now), InOtherQueue(q));
    }
  }

  lemma {:induction false} BuryCount(rows: seq<MessageRow>, key: MessageKey)
    requires Distinct(rows)
    ensures |Select(rows, HasOtherKey(key))| == if HasKey(rows, key) then |rows| - 1 else |rows|
  {
    if rows == [] {
    } else {
      BuryCount(rows[1..], key);
      assert rows == [rows[0]] + rows[1..];
      assert HasKey(rows, key) <==> rows[0].Key() == key || HasKey(rows[1..], key) by {
        assert rows[0] in rows;
      }
    }
  }

  /** One step's balance. */
  ghost predicate Balanced(before: Tables, e: Event, after: Tables) {
    |before.messages| + (if e.reply == Enqueued(Stored) then 1 else 0) ==
    (if e.reply == Acked(Deleted) then 1 else 0) + SweptAt(before, e) + CascadedAt(before, e) + |after.messages|
  }

  lemma ChangeBalances(c: Crypto, db: Tables, change: Change, e: Event)
    requires Consistent(c, db) && Grounded(c, Sweep(db, e.now), change, e.now) && Shows(e, change)
    ensures Balanced(db, e, Perform(Sweep(db, e.now), change))
  {
    SweepCount(db.messages, e.now);
    match change
    case BuryMessage(key, _) =>
      ConsistentSwept(c, db, e.now);
      BuryCount(Sweep(db, e.now).messages, key);
    case RetireMailbox(q, _, _) => CascadeCount(db.messages, q, e.now);
    case _ =>
  }

  lemma StepBalances(c: Crypto, db: Tables, cmd: Command, now: U64)
    requires Consistent(c, db)
    ensures Balanced(db, Event(cmd, now, ReplyTo(c, db, cmd, now)), Next(c, db, cmd, now))
  {
    if Transact(c, db, cmd, now).Accept? {
      ReplyShowsChange(c, db, cmd, now);
      AcceptedIsGrounded(c, db, cmd, now);
      ChangeBalances(c, db, Transact(c, db, cmd, now).change, Event(cmd, now, ReplyTo(c, db, cmd, now)));
    }
  }

  lemma {:induction false} BalancesAddUp(states: seq<Tables>, h: seq<Event>)
    requires |states| > |h|
    requires forall i :: 0 <= i < |h| ==> Balanced(states[i], h[i], states[i + 1])
    ensures |states[0].messages| + Count(h, Enqueued(Stored)) ==
            Count(h, Acked(Deleted)) + Swept(states, h) + Cascaded(states, h) + |states[|h|].messages|
  {
    if h == [] {
    } else {
      BalancesAddUp(states, h[..|h| - 1]);
      assert Balanced(states[|h| - 1], h[|h| - 1], states[|h|]);
    }
  }

  /** Messages are conserved over every run: what was there and what was stored is what was
      acknowledged, swept, cascaded away with a mailbox, or is still queued. */
  lemma Conservation(c: Crypto, db: Tables, steps: seq<Step>)
    requires Consistent(c, db)
    ensures var states, h := States(c, db, steps), History(c, db, steps, |steps|);
            |db.messages| + Count(h, Enqueued(Stored)) ==
            Count(h, Acked(Deleted)) + Swept(states, h) + Cascaded(states, h)
            + |After(c, db, steps, |steps|).messages|
  {
    var states, h := States(c, db, steps), History(c, db, steps, |steps|);
    forall i | 0 <= i < |h| ensures Balanced(states[i], h[i], states[i + 1]) {
      RunBalances(c, db, steps, i);
      assert states[i] == After(c, db, steps, i) && states[i + 1] == After(c, db, steps, i + 1);
      assert h[i] == EventAt(c, db, steps, i);
    }
    BalancesAddUp(states, h);
  }

  lemma RunBalances(c: Crypto, db: Tables, steps: seq<Step>, i: nat)
    requires Consistent(c, db) && i < |steps|
    ensures Balanced(After(c, db, steps, i), EventAt(c, db, steps, i), After(c, db, steps, i + 1))
  {
    ConsistentBefore(c, db, steps, i);
    StepBalances(c, After(c, db, steps, i), steps[i].cmd, steps[i].now);
  }

  lemma {:induction false} ConsistentBefore(c: Crypto, db: Tables, steps: seq<Step>, n: nat)
    requires Consistent(c, db) && n <= |steps|
    ensures Consistent(c, After(c, db, steps, n))
  {
    if n == 0 {
    } else {
      ConsistentBefore(c, db, steps, n - 1);
      ConsistentNext(c, After(c, db, steps, n - 1), steps[n - 1].cmd, steps[n - 1].now);
    }
  }
}
