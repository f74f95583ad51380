/** The relay's six tables as values, and what `DELETE ... WHERE` leaves of them.

    Columns are raw blobs and integers, as they are in the database; `messages` is kept in
    rowid order, which insertion always extends at the end. */
module Schema {
  import opened Bytes

  datatype Role = Receive | Manage

  datatype Mailbox = Mailbox(sendKey: Blob, receiveKey: Blob, manageKey: Blob, createdAt: int)
  datatype MessageKey = MessageKey(queueId: Blob, messageId: Blob)
  datatype NonceKey = NonceKey(queueId: Blob, role: Role, nonce: Blob)
  datatype RegistrationKey = RegistrationKey(queueId: Blob, nonce: Blob)

  datatype MessageRow = MessageRow(
    queueId: Blob, messageId: Blob, ciphertext: Blob, expiresAt: int, senderSignature: Blob)
  {
    function Key(): MessageKey { MessageKey(queueId, messageId) }
  }

  datatype Tables = Tables(
    mailboxes: map<Blob, Mailbox>,
    messages: seq<MessageRow>,
    tombstones: map<MessageKey, int>,
    requestNonces: map<NonceKey, int>,
    registrationNonces: map<RegistrationKey, int>,
    retiredQueues: map<Blob, int>)

  const EMPTY := Tables(map[], [], map[], map[], map[], map[])

  // ---- Selecting rows ----

  function Select(rows: seq<MessageRow>, keep: MessageRow -> bool): seq<MessageRow> {
    if rows == [] then []
    else (if keep(rows[0]) then [rows[0]] else []) + Select(rows[1..], keep)
  }

  function ExpiresAfter(now: int): MessageRow -> bool { (r: MessageRow) => r.expiresAt > now }
  function HasOtherKey(key: MessageKey): MessageRow -> bool { (r: MessageRow) => r.Key() != key }
  function InOtherQueue(q: Blob): MessageRow -> bool { (r: MessageRow) => r.queueId != q }
  function InQueueAfter(q: Blob, now: int): MessageRow -> bool {
    (r: MessageRow) => r.queueId == q && r.expiresAt > now
  }

  /** The one row with a key, if any. */
  function Find(rows: seq<MessageRow>, key: MessageKey): Option<MessageRow> {
    if rows == [] then None
    else if rows[0].Key() == key then Some(rows[0])
    else Find(rows[1..], key)
  }

  ghost predicate HasKey(rows: seq<MessageRow>, key: MessageKey) {
    exists r :: r in rows && r.Key() == key
  }

  lemma {:induction false} SelectMembers(rows: seq<MessageRow>, keep: MessageRow -> bool)
    ensures forall r :: r in Select(rows, keep) <==> r in rows && keep(r)
  {
    if rows == [] {
    } else {
      SelectMembers(rows[1..], keep);
      assert rows == [rows[0]] + rows[1..];
    }
  }

  lemma {:induction false} SelectConcat(a: seq<MessageRow>, b: seq<MessageRow>, keep: MessageRow -> bool)
    ensures Select(a + b, keep) == Select(a, keep) + Select(b, keep)
  {
    if a == [] {
      assert a + b == b;
    } else {
      var head := if keep(a[0]) then [a[0]] else [];
      assert (a + b)[0] == a[0] && (a + b)[1..] == a[1..] + b;
      SelectConcat(a[1..], b, keep);
      var x, y := Select(a[1..], keep), Select(b, keep);
      assert Select(a + b, keep) == head + (x + y);
      assert head + (x + y) == (head + x) + y;
    }
  }

  /** Selecting twice keeps the rows that pass both tests, in order. */
  lemma {:induction false} SelectTwice(rows: seq<MessageRow>, first: MessageRow -> bool,
                                       second: MessageRow -> bool, both: MessageRow -> bool)
    requires forall r :: r in rows ==> (both(r) <==> first(r) && second(r))
    ensures Select(Select(rows, first), second) == Select(rows, both)
  {
    if rows == [] {
    } else {
      var head := if first(rows[0]) then [rows[0]] else [];
      SelectTwice(rows[1..], first, second, both);
      SelectConcat(head, Select(rows[1..], first), second);
      assert rows[0] in rows;
    }
  }

  lemma SelectCommutes(rows: seq<MessageRow>, a: MessageRow -> bool, b: MessageRow -> bool)
    ensures Select(Select(rows, a), b) == Select(Select(rows, b), a)
  {
    var both := (r: MessageRow) => a(r) && b(r);
    SelectTwice(rows, a, b, both);
    SelectTwice(rows, b, a, both);
  }

  lemma {:induction false} SelectAgree(rows: seq<MessageRow>, a: MessageRow -> bool, b: MessageRow -> bool)
    requires forall r :: r in rows ==> a(r) == b(r)
    ensures Select(rows, a) == Select(rows, b)
  {
    if rows == [] {
    } else {
      assert rows[0] in rows;
      SelectAgree(rows[1..], a, b);
    }
  }

  lemma {:induction false} SelectAll(rows: seq<MessageRow>, keep: MessageRow -> bool)
    requires forall r :: r in rows ==> keep(r)
    ensures Select(rows, keep) == rows
  {
    if rows == [] {
    } else {
      assert rows[0] in rows;
      SelectAll(rows[1..], keep);
    }
  }

  lemma {:induction false} SelectNone(rows: seq<MessageRow>, keep: MessageRow -> bool)
    requires forall r :: r in rows ==> !keep(r)
    ensures Select(rows, keep) == []
  {
    if rows == [] {
    } else {
      assert rows[0] in rows;
      SelectNone(rows[1..], keep);
    }
  }

  lemma {:induction false} FindFinds(rows: seq<MessageRow>, key: MessageKey)
    ensures Find(rows, key).Some? <==> HasKey(rows, key)
    ensures Find(rows, key).Some? ==> Find(rows, key).value in rows && Find(rows, key).value.Key() == key
  {
    if rows == [] {
    } else {
      FindFinds(rows[1..], key);
      assert rows == [rows[0]] + rows[1..];
      assert rows[0] in rows;
    }
  }

  // ---- The expiry sweep ----

  function Unexpired(rows: seq<MessageRow>, now: int): seq<MessageRow> {
    Select(rows, ExpiresAfter(now))
  }

  function Live<K(==)>(deadlines: map<K, int>, now: int): map<K, int> {
    map k | k in deadlines && deadlines[k] > now :: deadlines[k]
  }

  /** Sweeping a table of deadlines never adds to it, and leaves its size exactly when nothing
      in it is due. */
  lemma LiveCount<K>(deadlines: map<K, int>, now: int)
    ensures |Live(deadlines, now)| <= |deadlines|
    ensures |Live(deadlines, now)| == |deadlines| <==> forall k :: k in deadlines ==> deadlines[k] > now
  {
    var live, all := Live(deadlines, now).Keys, deadlines.Keys;
    assert all == live + (all - live);
    assert |all| == |live| + |all - live|;
    if exists k :: k in deadlines && deadlines[k] <= now {
      var k :| k in deadlines && deadlines[k] <= now;
      assert k in all - live;
    } else {
      assert all - live == {};
    }
  }

  /** What `purge_expired_in` leaves. Mailboxes and retired queues never expire. */
  function Sweep(db: Tables, now: int): Tables {
    Tables(db.mailboxes, Unexpired(db.messages, now), Live(db.tombstones, now),
           Live(db.requestNonces, now), Live(db.registrationNonces, now), db.retiredQueues)
  }

  /** A later sweep makes an earlier one unnoticeable. */
  lemma SweepAbsorbs(db: Tables, earlier: int, later: int)
    requires earlier <= later
    ensures Sweep(Sweep(db, earlier), later) == Sweep(db, later)
  {
    SelectTwice(db.messages, ExpiresAfter(earlier), ExpiresAfter(later), ExpiresAfter(later));
    assert Live(Live(db.tombstones, earlier), later) == Live(db.tombstones, later);
    assert Live(Live(db.requestNonces, earlier), later) == Live(db.requestNonces, later);
    assert Live(Live(db.registrationNonces, earlier), later) == Live(db.registrationNonces, later);
  }
}
