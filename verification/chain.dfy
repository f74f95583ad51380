/** Any number of handles on one stored row, with every commit cut into its phases, crashes
    between them, and COMMITs that fail after becoming durable. */
module Chain {
  import opened Bytes
  import opened Envelope
  import opened Store

  datatype Phase =
    | Sealed(candidate: Candidate)
    | Begun(candidate: Candidate)
    | Updated(candidate: Candidate)
    | Done(candidate: Candidate)

  /** `stored` is the row in the database. `ledger` remembers, by generation, every row that has
      been durable. `writer` is the handle whose write transaction is open. */
  datatype Machine = Machine(
    stored: Option<Row>, ledger: map<int, Row>, handles: map<nat, Handle>, phases: map<nat, Phase>,
    writer: Option<nat>)

  /** A row becomes durable. */
  function Write(m: Machine, row: Row): Machine {
    m.(stored := Some(row), ledger := m.ledger[row.generation := row])
  }

  datatype Step =
    | Create(id: nat, dek: Dek, nonce: Bytes24, state: Blob, end: CommitEnd)
    | Open(id: nat)
    | SealPhase(id: nat, state: Blob, rng: Option<Bytes24>)
    | BeginPhase(id: nat, lockTaken: bool)
    | UpdatePhase(id: nat)
    | CommitPhase(id: nat, end: CommitEnd)
    | InstallPhase(id: nat)
    /** The process dies: its handle is never usable again and its transaction rolls back. */
    | Crash(id: nat)

  /** What the machine runs on: the cipher and the platform protector. */
  datatype Platform = Platform(aead: Aead, protector: Protector)

  ghost predicate Sound(f: Platform) {
    Correct(f.aead) && Unwraps(f.protector)
  }

  function Poison(m: Machine, id: nat): Machine
    requires id in m.handles
  {
    m.(handles := m.handles[id := Poisoned(m.handles[id])],
       phases := m.phases - {id},
       writer := if m.writer == Some(id) then None else m.writer)
  }

  function InPhase(m: Machine, id: nat): Option<Phase> {
    if id in m.handles && id in m.phases then Some(m.phases[id]) else None
  }

  /** The row that a handle's update writes. */
  function Written(h: Handle, candidate: Candidate): Row {
    CachedRow(Installed(h, candidate))
  }

  function DoCreate(f: Platform, m: Machine, id: nat, dek: Dek, nonce: Bytes24, state: Blob, end: CommitEnd): Machine {
    if id in m.handles || m.stored.Some? then m
    else
      match Created(f.aead, f.protector, dek, nonce, state)
      case None => m
      case Some(h) =>
        match end
        case Success => Write(m, CachedRow(h)).(handles := m.handles[id := h])
        case Lost => m
        case Uncertain => Write(m, CachedRow(h))
  }

  function DoOpen(f: Platform, m: Machine, id: nat): Machine {
    if id in m.handles || m.stored.None? then m
    else
      match Opened(f.aead, f.protector, m.stored.value)
      case None => m
      case Some(h) => m.(handles := m.handles[id := h])
  }

  function DoSeal(f: Platform, m: Machine, id: nat, state: Blob, rng: Option<Bytes24>): Machine {
    if id !in m.handles || id in m.phases || m.handles[id].poisoned then m
    else
      match SealNext(f.aead, m.handles[id], state, rng)
      case None => Poison(m, id)
      case Some(candidate) => m.(phases := m.phases[id := Sealed(candidate)])
  }

  function DoBegin(m: Machine, id: nat, lockTaken: bool): Machine {
    match InPhase(m, id)
    case Some(Sealed(candidate)) =>
      if m.writer.Some? || !lockTaken then Poison(m, id)
      else m.(phases := m.phases[id := Begun(candidate)], writer := Some(id))
    case _ => m
  }

  function DoUpdate(m: Machine, id: nat): Machine {
    match InPhase(m, id)
    case Some(Begun(candidate)) =>
      if m.stored != Some(CachedRow(m.handles[id])) then Poison(m, id)
      else m.(phases := m.phases[id := Updated(candidate)])
    case _ => m
  }

  function DoCommit(m: Machine, id: nat, end: CommitEnd): Machine {
    match InPhase(m, id)
    case Some(Updated(candidate)) =>
      var row := Written(m.handles[id], candidate);
      (match end
       case Success => Write(m, row).(phases := m.phases[id := Done(candidate)], writer := None)
       case Lost => Poison(m, id)
       case Uncertain => Write(Poison(m, id), row))
    case _ => m
  }

  function DoInstall(m: Machine, id: nat): Machine {
    match InPhase(m, id)
    case Some(Done(candidate)) =>
      m.(handles := m.handles[id := Installed(m.handles[id], candidate)], phases := m.phases - {id})
    case _ => m
  }

  function Do(f: Platform, m: Machine, step: Step): Machine {
    match step
    case Create(id, dek, nonce, state, end) => DoCreate(f, m, id, dek, nonce, state, end)
    case Open(id) => DoOpen(f, m, id)
    case SealPhase(id, state, rng) => DoSeal(f, m, id, state, rng)
    case BeginPhase(id, lockTaken) => DoBegin(m, id, lockTaken)
    case UpdatePhase(id) => DoUpdate(m, id)
    case CommitPhase(id, end) => DoCommit(m, id, end)
    case InstallPhase(id) => DoInstall(m, id)
    case Crash(id) => if id in m.handles then Poison(m, id) else m
  }

  const START := Machine(None, map[], map[], map[], None)

  ghost function After(f: Platform, steps: seq<Step>, n: nat): Machine
    requires n <= |steps|
  {
    if n == 0 then START else Do(f, After(f, steps, n - 1), steps[n - 1])
  }

  // ---- The invariant ----

  /** The handle's cached row is well formed and opens, under the protector's own unwrapped
      key, to exactly the handle's state. */
  ghost predicate Authenticated(f: Platform, h: Handle) {
    && h.binding == f.protector.binding
    && f.protector.unwrap(h.wrappedDek) == Some(h.dek)
    && MeetsDdl(CachedRow(h)) && h.generation <= I64_MAX
    && Unseal(f.aead, HeaderOf(h), h.dek, h.nonce, h.ciphertext) == Some(h.state)
  }

  /** The row was durable, as the one of its generation. */
  ghost predicate InLedger(row: Row, ledger: map<int, Row>) {
    row.generation in ledger && ledger[row.generation] == row
  }

  ghost predicate HandleInv(f: Platform, ledger: map<int, Row>, h: Handle) {
    Authenticated(f, h) && InLedger(CachedRow(h), ledger)
  }

  ghost predicate PhaseInv(f: Platform, stored: Option<Row>, ledger: map<int, Row>, writing: bool, h: Handle,
                           phase: Phase)
  {
    && !h.poisoned
    && phase.candidate.generation == h.generation + 1
    && Authenticated(f, Installed(h, phase.candidate))
    && (phase.Begun? || phase.Updated? <==> writing)
    && (phase.Updated? ==> stored == Some(CachedRow(h)))
    && (phase.Done? ==> InLedger(Written(h, phase.candidate), ledger))
  }

  /** A stored row meets the table's checks and can be reopened. */
  ghost predicate Good(f: Platform, row: Row) {
    MeetsDdl(row) && Opened(f.aead, f.protector, row).Some?
  }

  /** The ledger is exactly the generations 1, 2, ... up to the stored row. */
  ghost predicate LedgerInv(f: Platform, stored: Option<Row>, ledger: map<int, Row>) {
    match stored
    case None => ledger == map[]
    case Some(row) =>
      && Good(f, row) && InLedger(row, ledger)
      && (forall g :: g in ledger <==> 1 <= g <= row.generation)
      && (forall g :: g in ledger ==> ledger[g].generation == g)
  }

  /** One handle's part of the invariant. */
  ghost predicate OwnInv(f: Platform, m: Machine, id: nat) {
    && (id in m.handles ==> HandleInv(f, m.ledger, m.handles[id]))
    && (id in m.phases ==>
          && id in m.handles
          && PhaseInv(f, m.stored, m.ledger, m.writer == Some(id), m.handles[id], m.phases[id]))
    && (m.writer == Some(id) ==> id in m.phases)
  }

  ghost predicate Inv(f: Platform, m: Machine) {
    && LedgerInv(f, m.stored, m.ledger)
    && forall id :: OwnInv(f, m, id)
  }

  // ---- Preservation ----

  /** An authenticated handle's row is good, and reopening it gives the handle back. */
  lemma AuthenticatedReopens(f: Platform, h: Handle)
    requires Authenticated(f, h)
    ensures Opened(f.aead, f.protector, CachedRow(h)) == Some(h.(poisoned := false))
    ensures Good(f, CachedRow(h))
  {
  }

  lemma OpenedIsAuthenticated(f: Platform, row: Row)
    requires Good(f, row)
    ensures Authenticated(f, Opened(f.aead, f.protector, row).value)
    ensures CachedRow(Opened(f.aead, f.protector, row).value) == row
    ensures !Opened(f.aead, f.protector, row).value.poisoned
  {
  }

  lemma CreatedIsAuthenticated(f: Platform, dek: Dek, nonce: Bytes24, state: Blob)
    requires Sound(f) && Created(f.aead, f.protector, dek, nonce, state).Some?
    ensures Authenticated(f, Created(f.aead, f.protector, dek, nonce, state).value)
  {
    var h := Created(f.aead, f.protector, dek, nonce, state).value;
    UnsealUndoesSeal(f.aead, HeaderOf(h), dek, nonce, state);
  }

  lemma SealedIsAuthenticated(f: Platform, h: Handle, state: Blob, rng: Option<Bytes24>)
    requires Sound(f) && Authenticated(f, h) && SealNext(f.aead, h, state, rng).Some?
    ensures var candidate := SealNext(f.aead, h, state, rng).value;
            candidate.generation == h.generation + 1 && Authenticated(f, Installed(h, candidate))
  {
    var candidate := SealNext(f.aead, h, state, rng).value;
    UnsealUndoesSeal(f.aead, HeaderOf(Installed(h, candidate)), h.dek, rng.value, state);
  }

  /** `next` differs from `m` at most in what belongs to `id`, and in a row written on top while
      `id` was the writer. */
  ghost predicate OnlyTouches(m: Machine, next: Machine, id: nat) {
    && (|| (next.stored == m.stored && next.ledger == m.ledger)
        || (&& m.writer == Some(id) && m.stored.Some? && next.stored.Some?
            && next.stored.value.generation == m.stored.value.generation + 1
            && next.ledger == m.ledger[next.stored.value.generation := next.stored.value]))
    && (forall i :: i != id ==>
          && (i in next.handles <==> i in m.handles)
          && (i in next.handles ==> next.handles[i] == m.handles[i])
          && (i in next.phases <==> i in m.phases)
          && (i in next.phases ==> next.phases[i] == m.phases[i])
          && (next.writer == Some(i) <==> m.writer == Some(i)))
  }

  lemma OtherKept(f: Platform, m: Machine, next: Machine, id: nat, i: nat)
    requires LedgerInv(f, m.stored, m.ledger) && OnlyTouches(m, next, id) && i != id && OwnInv(f, m, i)
    ensures OwnInv(f, next, i)
  {
  }

  lemma OthersKept(f: Platform, m: Machine, next: Machine, id: nat)
    requires Inv(f, m) && LedgerInv(f, next.stored, next.ledger) && OnlyTouches(m, next, id) && OwnInv(f, next, id)
    ensures Inv(f, next)
  {
    forall i ensures OwnInv(f, next, i) {
      if i != id {
        assert OwnInv(f, m, i);
        OtherKept(f, m, next, id, i);
      }
    }
  }

  lemma PoisonKeepsInv(f: Platform, m: Machine, id: nat)
    requires Inv(f, m) && id in m.handles
    ensures Inv(f, Poison(m, id))
  {
    assert OwnInv(f, m, id);
    OthersKept(f, m, Poison(m, id), id);
  }

  lemma NothingBeforeCreation(f: Platform, m: Machine, id: nat)
    requires m.stored == None && LedgerInv(f, m.stored, m.ledger) && OwnInv(f, m, id)
    ensures id !in m.handles && id !in m.phases && m.writer != Some(id)
  {
  }

  lemma CreateKeepsInv(f: Platform, m: Machine, id: nat, dek: Dek, nonce: Bytes24, state: Blob, end: CommitEnd)
    requires Sound(f) && Inv(f, m)
    ensures Inv(f, DoCreate(f, m, id, dek, nonce, state, end))
  {
    var next := DoCreate(f, m, id, dek, nonce, state, end);
    if m.stored == None && Created(f.aead, f.protector, dek, nonce, state).Some? && end != Lost {
      CreatedIsAuthenticated(f, dek, nonce, state);
      AuthenticatedReopens(f, Created(f.aead, f.protector, dek, nonce, state).value);
      assert OwnInv(f, m, id);
      forall i ensures OwnInv(f, next, i) {
        assert OwnInv(f, m, i);
        NothingBeforeCreation(f, m, i);
      }
    }
  }

  lemma OpenKeepsInv(f: Platform, m: Machine, id: nat)
    requires Inv(f, m)
    ensures Inv(f, DoOpen(f, m, id))
  {
    if id !in m.handles && m.stored.Some? {
      OpenedIsAuthenticated(f, m.stored.value);
      assert OwnInv(f, m, id);
      OthersKept(f, m, DoOpen(f, m, id), id);
    }
  }

  lemma SealKeepsInv(f: Platform, m: Machine, id: nat, state: Blob, rng: Option<Bytes24>)
    requires Sound(f) && Inv(f, m)
    ensures Inv(f, DoSeal(f, m, id, state, rng))
  {
    if id in m.handles && id !in m.phases && !m.handles[id].poisoned {
      assert OwnInv(f, m, id);
      if SealNext(f.aead, m.handles[id], state, rng).None? {
        PoisonKeepsInv(f, m, id);
      } else {
        SealedIsAuthenticated(f, m.handles[id], state, rng);
        OthersKept(f, m, DoSeal(f, m, id, state, rng), id);
      }
    }
  }

  lemma BeginKeepsInv(f: Platform, m: Machine, id: nat, lockTaken: bool)
    requires Inv(f, m)
    ensures Inv(f, DoBegin(m, id, lockTaken))
  {
    assert OwnInv(f, m, id);
    if InPhase(m, id).Some? && InPhase(m, id).value.Sealed? {
      if m.writer.Some? || !lockTaken {
        PoisonKeepsInv(f, m, id);
      } else {
        OthersKept(f, m, DoBegin(m, id, lockTaken), id);
      }
    }
  }

  lemma UpdateKeepsInv(f: Platform, m: Machine, id: nat)
    requires Inv(f, m)
    ensures Inv(f, DoUpdate(m, id))
  {
    assert OwnInv(f, m, id);
    if InPhase(m, id).Some? && InPhase(m, id).value.Begun? {
      if m.stored != Some(CachedRow(m.handles[id])) {
        PoisonKeepsInv(f, m, id);
      } else {
        OthersKept(f, m, DoUpdate(m, id), id);
      }
    }
  }

  /** A durable write goes on top of the row its handle had authenticated. */
  lemma WriteGoesOnTop(f: Platform, m: Machine, id: nat)
    requires Inv(f, m) && InPhase(m, id).Some? && InPhase(m, id).value.Updated?
    ensures var row := Written(m.handles[id], m.phases[id].candidate);
            && m.writer == Some(id) && m.stored == Some(CachedRow(m.handles[id]))
            && row.generation == m.stored.value.generation + 1
            && LedgerInv(f, Write(m, row).stored, Write(m, row).ledger)
  {
    assert OwnInv(f, m, id);
    AuthenticatedReopens(f, Installed(m.handles[id], m.phases[id].candidate));
  }

  lemma CommitKeepsInv(f: Platform, m: Machine, id: nat, end: CommitEnd)
    requires Inv(f, m)
    ensures Inv(f, DoCommit(m, id, end))
  {
    assert OwnInv(f, m, id);
    if InPhase(m, id).Some? && InPhase(m, id).value.Updated? {
      if end == Lost {
        PoisonKeepsInv(f, m, id);
      } else {
        WriteGoesOnTop(f, m, id);
        OthersKept(f, m, DoCommit(m, id, end), id);
      }
    }
  }

  lemma InstallKeepsInv(f: Platform, m: Machine, id: nat)
    requires Inv(f, m)
    ensures Inv(f, DoInstall(m, id))
  {
    assert OwnInv(f, m, id);
    if InPhase(m, id).Some? && InPhase(m, id).value.Done? {
      OthersKept(f, m, DoInstall(m, id), id);
    }
  }

  lemma StepKeepsInv(f: Platform, m: Machine, step: Step)
    requires Sound(f) && Inv(f, m)
    ensures Inv(f, Do(f, m, step))
  {
    match step
    case Create(id, dek, nonce, state, end) => CreateKeepsInv(f, m, id, dek, nonce, state, end);
    case Open(id) => OpenKeepsInv(f, m, id);
    case SealPhase(id, state, rng) => SealKeepsInv(f, m, id, state, rng);
    case BeginPhase(id, lockTaken) => BeginKeepsInv(f, m, id, lockTaken);
    case UpdatePhase(id) => UpdateKeepsInv(f, m, id);
    case CommitPhase(id, end) => CommitKeepsInv(f, m, id, end);
    case InstallPhase(id) => InstallKeepsInv(f, m, id);
    case Crash(id) => if id in m.handles { PoisonKeepsInv(f, m, id); }
  }

  lemma {:induction false} InvAlways(f: Platform, steps: seq<Step>, n: nat)
    requires Sound(f) && n <= |steps|
    ensures Inv(f, After(f, steps, n))
  {
    if n == 0 {
    } else {
      InvAlways(f, steps, n - 1);
      StepKeepsInv(f, After(f, steps, n - 1), steps[n - 1]);
    }
  }

  // ---- Theorems ----

  /** In every run the durable generations are 1, 2, 3, ... up to the stored row, with nothing
      skipped; and the ledger never forgets or rewrites one, so nothing forks. */
  lemma GenerationsCountUp(f: Platform, steps: seq<Step>, n: nat)
    requires Sound(f) && n <= |steps| && After(f, steps, n).stored.Some?
    ensures var m := After(f, steps, n);
            && (forall g :: g in m.ledger <==> 1 <= g <= m.stored.value.generation)
            && InLedger(m.stored.value, m.ledger)
  {
    InvAlways(f, steps, n);
  }

  /** No lost update: a step leaves the row alone, or creates the first, or is a COMMIT that
      replaces exactly the row its handle had authenticated by one of the next generation. */
  lemma OnlyTheHolderReplaces(f: Platform, m: Machine, step: Step)
    requires Sound(f) && Inv(f, m)
    ensures var next := Do(f, m, step);
            || (next.stored == m.stored && next.ledger == m.ledger)
            || (&& m.stored.None? && step.Create?
                && next.stored.Some? && next.stored.value.generation == 1)
            || (&& step.CommitPhase? && step.end != Lost && step.id in m.handles && step.id in m.phases
                && m.stored == Some(CachedRow(m.handles[step.id]))
                && next.stored == Some(Written(m.handles[step.id], m.phases[step.id].candidate))
                && next.stored.value.generation == m.stored.value.generation + 1
                && next.ledger == m.ledger[next.stored.value.generation := next.stored.value])
  {
    if step.CommitPhase? && InPhase(m, step.id).Some? && InPhase(m, step.id).value.Updated? {
      WriteGoesOnTop(f, m, step.id);
    }
  }

  lemma LedgerKept(f: Platform, m: Machine, step: Step, row: Row)
    requires Sound(f) && Inv(f, m) && InLedger(row, m.ledger)
    ensures InLedger(row, Do(f, m, step).ledger)
  {
    OnlyTheHolderReplaces(f, m, step);
  }

  lemma StoredIsHighest(f: Platform, stored: Option<Row>, ledger: map<int, Row>, row: Row)
    requires LedgerInv(f, stored, ledger) && InLedger(row, ledger)
    ensures stored.Some? && row.generation <= stored.value.generation
    ensures row.generation == stored.value.generation ==> row == stored.value
  {
  }

  /** A row that was durable stays the only one of its generation for the rest of the run. */
  lemma NoFork(f: Platform, steps: seq<Step>, i: nat, j: nat)
    requires Sound(f) && i <= j <= |steps| && After(f, steps, i).stored.Some?
    ensures InLedger(After(f, steps, i).stored.value, After(f, steps, j).ledger)
    ensures var a, b := After(f, steps, i).stored, After(f, steps, j).stored;
            b.Some? && a.value.generation <= b.value.generation && (a.value.generation == b.value.generation ==> a == b)
  {
    var row := After(f, steps, i).stored.value;
    LedgerAlways(f, steps, i);
    LedgerKeptOver(f, steps, i, j, row);
    LedgerAlways(f, steps, j);
    StoredIsHighest(f, After(f, steps, j).stored, After(f, steps, j).ledger, row);
  }

  lemma LedgerAlways(f: Platform, steps: seq<Step>, n: nat)
    requires Sound(f) && n <= |steps|
    ensures LedgerInv(f, After(f, steps, n).stored, After(f, steps, n).ledger)
  {
    InvAlways(f, steps, n);
  }

  lemma LedgerKeptAt(f: Platform, steps: seq<Step>, n: nat, row: Row)
    requires Sound(f) && n < |steps| && InLedger(row, After(f, steps, n).ledger)
    ensures InLedger(row, After(f, steps, n + 1).ledger)
  {
    InvAlways(f, steps, n);
    LedgerKept(f, After(f, steps, n), steps[n], row);
  }

  lemma {:induction false} LedgerKeptOver(f: Platform, steps: seq<Step>, i: nat, j: nat, row: Row)
    requires Sound(f) && i <= j <= |steps| && InLedger(row, After(f, steps, i).ledger)
    ensures InLedger(row, After(f, steps, j).ledger)
  {
    if i == j {
    } else {
      LedgerKeptOver(f, steps, i, j - 1, row);
      LedgerKeptAt(f, steps, j - 1, row);
    }
  }

  /** The durable generation after `n` steps; 0 before there is one. */
  ghost function Generation(f: Platform, steps: seq<Step>, n: nat): int
    requires n <= |steps|
  {
    var stored := After(f, steps, n).stored;
    if stored.None? then 0 else stored.value.generation
  }

  lemma GenerationNeverDrops(f: Platform, steps: seq<Step>, i: nat, j: nat)
    requires Sound(f) && i <= j <= |steps|
    ensures Generation(f, steps, i) <= Generation(f, steps, j)
  {
    if After(f, steps, i).stored.Some? {
      NoFork(f, steps, i, j);
    } else {
      LedgerAlways(f, steps, j);
      if After(f, steps, j).stored.Some? { StoredIsPositive(f, After(f, steps, j)); }
    }
  }

  lemma StoredIsPositive(f: Platform, m: Machine)
    requires LedgerInv(f, m.stored, m.ledger) && m.stored.Some?
    ensures m.stored.value.generation >= 1
  {
  }

  /** The step changes the durable row. */
  ghost predicate Writes(f: Platform, steps: seq<Step>, i: nat)
    requires i < |steps|
  {
    After(f, steps, i + 1).stored != After(f, steps, i).stored
  }

  lemma ChangeMovesUp(f: Platform, steps: seq<Step>, i: nat)
    requires Sound(f) && i < |steps| && Writes(f, steps, i)
    ensures Generation(f, steps, i + 1) == Generation(f, steps, i) + 1
  {
    InvAlways(f, steps, i);
    OnlyTheHolderReplaces(f, After(f, steps, i), steps[i]);
  }

  /** At most one commit per generation becomes durable: of two that do, each moves the
      generation by one and the later writes a higher one. */
  lemma OneCommitPerGeneration(f: Platform, steps: seq<Step>, i: nat, j: nat)
    requires Sound(f) && i < j < |steps| && Writes(f, steps, i) && Writes(f, steps, j)
    ensures Generation(f, steps, i) + 1 == Generation(f, steps, i + 1)
    ensures Generation(f, steps, i + 1) < Generation(f, steps, j) + 1 == Generation(f, steps, j + 1)
  {
    ChangeMovesUp(f, steps, i);
    GenerationNeverDrops(f, steps, i + 1, j);
    ChangeMovesUp(f, steps, j);
  }

  /** A handle whose commit failed stays unusable, and has no commit under way. */
  lemma {:induction false} PoisonIsForever(f: Platform, steps: seq<Step>, i: nat, j: nat, id: nat)
    requires Sound(f) && i <= j <= |steps|
    requires id in After(f, steps, i).handles && After(f, steps, i).handles[id].poisoned
    ensures id in After(f, steps, j).handles && After(f, steps, j).handles[id].poisoned
    ensures id !in After(f, steps, j).phases
  {
    if i == j {
    } else {
      PoisonIsForever(f, steps, i, j - 1, id);
      PoisonedStays(f, After(f, steps, j - 1), steps[j - 1], id);
    }
    InvAlways(f, steps, j);
    assert OwnInv(f, After(f, steps, j), id);
    PoisonedIsIdle(f, After(f, steps, j), id);
  }

  lemma PoisonedIsIdle(f: Platform, m: Machine, id: nat)
    requires OwnInv(f, m, id) && id in m.handles && m.handles[id].poisoned
    ensures id !in m.phases
  {
  }

  lemma PoisonedStays(f: Platform, m: Machine, step: Step, id: nat)
    requires id in m.handles && m.handles[id].poisoned && id !in m.phases
    ensures id in Do(f, m, step).handles && Do(f, m, step).handles[id].poisoned
  {
  }

  /** However a COMMIT ends, the stored row opens to the complete old state or the complete new
      one: the old one if nothing became durable, the new one otherwise, reported or not. The
      handle is poisoned exactly when failure was reported. */
  lemma OldOrNewState(f: Platform, m: Machine, id: nat, end: CommitEnd)
    requires Inv(f, m) && InPhase(m, id).Some? && InPhase(m, id).value.Updated?
    ensures var next := Do(f, m, CommitPhase(id, end));
            && (next.handles[id].poisoned <==> end != Success)
            && next.stored.Some? && Good(f, next.stored.value)
            && var reopened := Opened(f.aead, f.protector, next.stored.value).value;
               if end == Lost
               then reopened.state == m.handles[id].state && reopened.generation == m.handles[id].generation
               else reopened.state == m.phases[id].candidate.state
                    && reopened.generation == m.handles[id].generation + 1
  {
    WriteGoesOnTop(f, m, id);
    assert OwnInv(f, m, id);
    AuthenticatedReopens(f, m.handles[id]);
    AuthenticatedReopens(f, Installed(m.handles[id], m.phases[id].candidate));
  }

  /** No commit goes past the last generation: at `i64::MAX` the seal fails, the handle is
      poisoned and the row stays. */
  lemma LastGeneration(f: Platform, m: Machine, id: nat, state: Blob, rng: Option<Bytes24>)
    requires id in m.handles && id !in m.phases && !m.handles[id].poisoned
    requires m.handles[id].generation == I64_MAX
    ensures Do(f, m, SealPhase(id, state, rng)) == Poison(m, id)
  {
  }

  /** Once the last generation is durable the stored row never changes again, whatever any handle
      does. */
  lemma {:induction false} LastGenerationIsFinal(f: Platform, steps: seq<Step>, i: nat, j: nat)
    requires Sound(f) && i <= j <= |steps| && Generation(f, steps, i) == I64_MAX
    ensures After(f, steps, j).stored == After(f, steps, i).stored
  {
    if i == j {
    } else {
      LastGenerationIsFinal(f, steps, i, j - 1);
      NothingAfterLast(f, steps, j - 1);
    }
  }

  lemma NothingAfterLast(f: Platform, steps: seq<Step>, n: nat)
    requires Sound(f) && n < |steps| && Generation(f, steps, n) == I64_MAX
    ensures !Writes(f, steps, n)
  {
    GenerationFits(f, steps, n + 1);
    if Writes(f, steps, n) { ChangeMovesUp(f, steps, n); }
  }

  lemma GenerationFits(f: Platform, steps: seq<Step>, n: nat)
    requires Sound(f) && n <= |steps|
    ensures 0 <= Generation(f, steps, n) <= I64_MAX
  {
    LedgerAlways(f, steps, n);
  }

  /** What is stored can be reopened, at any point of any run: a fresh handle on the stored row
      is usable and its state is the authenticated content of that row. */
  lemma StoredRowReopens(f: Platform, steps: seq<Step>, n: nat, id: nat)
    requires Sound(f) && n <= |steps|
    requires After(f, steps, n).stored.Some? && id !in After(f, steps, n).handles
    ensures var m := After(f, steps, n);
            var next := Do(f, m, Open(id));
            && id in next.handles && !next.handles[id].poisoned
            && Some(CachedRow(next.handles[id])) == m.stored
            && Authenticated(f, next.handles[id])
  {
    InvAlways(f, steps, n);
    OpenedIsAuthenticated(f, After(f, steps, n).stored.value);
  }

  /** A handle only ever caches a row that was durable, and its state is the AEAD opening of
      that row. */
  lemma HandleStateIsAuthentic(f: Platform, steps: seq<Step>, n: nat, id: nat)
    requires Sound(f) && n <= |steps| && id in After(f, steps, n).handles
    ensures Authenticated(f, After(f, steps, n).handles[id])
    ensures InLedger(CachedRow(After(f, steps, n).handles[id]), After(f, steps, n).ledger)
  {
    InvAlways(f, steps, n);
    assert OwnInv(f, After(f, steps, n), id);
  }

  /** Whatever a handle lets its owner read, at any point of any run, is what opening a row that
      was durable yields; and reading is refused for good once it has been refused. */
  lemma ReadStateWasDurable(f: Platform, steps: seq<Step>, i: nat, j: nat, id: nat)
    requires Sound(f) && i <= j <= |steps| && id in After(f, steps, i).handles
    ensures var h := After(f, steps, i).handles[id];
            Readable(h).Ok? ==>
              && InLedger(CachedRow(h), After(f, steps, j).ledger)
              && Opened(f.aead, f.protector, CachedRow(h)) == Some(h)
              && h.state == Readable(h).value
    ensures Readable(After(f, steps, i).handles[id]).Err? ==>
              id in After(f, steps, j).handles && Readable(After(f, steps, j).handles[id]).Err?
  {
    var h := After(f, steps, i).handles[id];
    if h.poisoned {
      PoisonIsForever(f, steps, i, j, id);
    } else {
      HandleStateIsAuthentic(f, steps, i, id);
      AuthenticatedReopens(f, h);
      LedgerKeptOver(f, steps, i, j, CachedRow(h));
    }
  }

  /** What a successful commit was given is what is read back: the handle holds the state, and so
      does whoever opens the row it left. */
  lemma CommittedReadsBack(f: Platform, h: Handle, row: Option<Row>, state: Blob, nonce: Option<Bytes24>,
                           begins: bool, end: CommitEnd)
    requires Sound(f) && Authenticated(f, h)
    ensures var (next, stored, ok) := Committed(f.aead, h, row, state, nonce, begins, end);
            ok ==> && next.state == state && stored.Some?
                   && Opened(f.aead, f.protector, stored.value) == Some(next)
  {
    if !h.poisoned && SealNext(f.aead, h, state, nonce).Some? {
      CommitsExactly(f.aead, h, row, state, nonce, begins, end);
      SealedIsAuthenticated(f, h, state, nonce);
      AuthenticatedReopens(f, Installed(h, SealNext(f.aead, h, state, nonce).value));
    }
  }

  /** However a creation ends, the database is empty as before, or holds generation 1 and opens to
      the complete given state; there is a handle exactly when success was reported. */
  lemma CreationEnds(f: Platform, m: Machine, id: nat, dek: Dek, nonce: Bytes24, state: Blob, end: CommitEnd)
    requires Sound(f) && m.stored.None? && id !in m.handles
    requires Created(f.aead, f.protector, dek, nonce, state).Some?
    ensures var next := Do(f, m, Create(id, dek, nonce, state, end));
            && (id in next.handles <==> end == Success)
            && (end == Lost ==> next == m)
            && (end != Lost ==>
                  && next.stored.Some? && next.stored.value.generation == 1
                  && Opened(f.aead, f.protector, next.stored.value).Some?
                  && var reopened := Opened(f.aead, f.protector, next.stored.value).value;
                     reopened.state == state && (end == Success ==> next.handles[id] == reopened))
  {
    CreatedIsAuthenticated(f, dek, nonce, state);
    AuthenticatedReopens(f, Created(f.aead, f.protector, dek, nonce, state).value);
  }

  /** A crash ends its handle for good, with nothing under way and the write lock free, and leaves
      the stored row and every other handle alone. */
  lemma CrashRollsBack(f: Platform, m: Machine, id: nat)
    requires id in m.handles
    ensures var next := Do(f, m, Crash(id));
            && next.handles == m.handles[id := Poisoned(m.handles[id])] && next.handles[id].poisoned
            && next.phases == m.phases - {id} && next.writer != Some(id)
            && next.stored == m.stored && next.ledger == m.ledger
  {
  }

  lemma CandidateKept(f: Platform, m: Machine, step: Step, id: nat)
    requires id in m.phases && id in Do(f, m, step).phases
    ensures Do(f, m, step).phases[id].candidate == m.phases[id].candidate
  {
  }

  lemma CandidateBegins(f: Platform, m: Machine, step: Step, id: nat)
    requires id !in m.phases && id in Do(f, m, step).phases
    ensures step.SealPhase? && step.id == id
    ensures var candidate := Do(f, m, step).phases[id].candidate;
            step.state == candidate.state && step.rng == Some(candidate.nonce)
  {
  }

  /** Step `i` began the commit that `id` has under way after `n` steps, with this state and nonce. */
  ghost predicate Began(f: Platform, steps: seq<Step>, i: nat, n: nat, id: nat)
    requires n <= |steps|
  {
    && i < n && id !in After(f, steps, i).phases
    && (forall k :: i < k <= n ==> id in After(f, steps, k).phases)
    && steps[i].SealPhase? && steps[i].id == id
    && var candidate := After(f, steps, n).phases[id].candidate;
       steps[i].state == candidate.state && steps[i].rng == Some(candidate.nonce)
  }

  lemma {:induction false} CommitHasBeginning(f: Platform, steps: seq<Step>, n: nat, id: nat) returns (i: nat)
    requires n <= |steps| && id in After(f, steps, n).phases
    ensures Began(f, steps, i, n, id)
  {
    if n == 0 {
      assert false;
    } else if id in After(f, steps, n - 1).phases {
      i := CommitHasBeginning(f, steps, n - 1, id);
      CandidateKept(f, After(f, steps, n - 1), steps[n - 1], id);
    } else {
      i := n - 1;
      CandidateBegins(f, After(f, steps, n - 1), steps[n - 1], id);
    }
  }

  /** The stored row was made durable by step `j`, out of the state given to step `i`. */
  ghost predicate MadeFrom(f: Platform, steps: seq<Step>, i: nat, j: nat, row: Row)
    requires j < |steps|
  {
    && After(f, steps, j + 1).stored == Some(row)
    && Opened(f.aead, f.protector, row).Some?
    && var state := Opened(f.aead, f.protector, row).value.state;
       || (steps[j].Create? && i == j && steps[j].state == state)
       || (steps[j].CommitPhase? && steps[j].end != Lost && Began(f, steps, i, j, steps[j].id)
           && steps[i].state == state)
  }

  /** Whatever is stored, at any point of any run, opens to exactly the state that was given to the
      creation, or to the seal phase of the commit, that wrote it. */
  lemma {:induction false} StoredStateWasGiven(f: Platform, steps: seq<Step>, n: nat) returns (i: nat, j: nat)
    requires Sound(f) && n <= |steps| && After(f, steps, n).stored.Some?
    ensures j < n && MadeFrom(f, steps, i, j, After(f, steps, n).stored.value)
  {
    if n == 0 {
      assert false;
    } else if !Writes(f, steps, n - 1) {
      i, j := StoredStateWasGiven(f, steps, n - 1);
    } else {
      j := n - 1;
      i := WriteWasGiven(f, steps, j);
    }
  }

  lemma WriteWasGiven(f: Platform, steps: seq<Step>, j: nat) returns (i: nat)
    requires Sound(f) && j < |steps| && Writes(f, steps, j)
    ensures After(f, steps, j + 1).stored.Some?
    ensures MadeFrom(f, steps, i, j, After(f, steps, j + 1).stored.value)
  {
    var m, step := After(f, steps, j), steps[j];
    InvAlways(f, steps, j);
    OnlyTheHolderReplaces(f, m, step);
    if step.Create? {
      i := j;
      CreatedIsAuthenticated(f, step.dek, step.nonce, step.state);
      AuthenticatedReopens(f, Created(f.aead, f.protector, step.dek, step.nonce, step.state).value);
    } else {
      i := CommitHasBeginning(f, steps, j, step.id);
      OldOrNewState(f, m, step.id, step.end);
    }
  }

  /** Run alone, the phases do what the one-piece commit does. */
  lemma PhasesComposeToCommit(f: Platform, m: Machine, id: nat, state: Blob, rng: Option<Bytes24>, begins: bool,
                              end: CommitEnd)
    requires id in m.handles && id !in m.phases && m.writer.None?
    ensures var (h, row, _) := Committed(f.aead, m.handles[id], m.stored, state, rng, begins, end);
            var done := DoInstall(DoCommit(Prepared(f, m, id, state, rng, begins), id, end), id);
            && done.handles == m.handles[id := h] && done.stored == row
            && done.phases == m.phases && done.writer == None
  {
    var h := m.handles[id];
    var sealed := if h.poisoned then None else SealNext(f.aead, h, state, rng);
    if sealed.Some? && begins && m.stored == Some(CachedRow(h)) {
      PreparedUpdates(f, m, id, state, rng);
      FinishAlone(m, id, sealed.value, end);
    } else {
      PreparedFails(f, m, id, state, rng, begins);
    }
  }

  /** The phases before COMMIT, with nothing in between. */
  function Prepared(f: Platform, m: Machine, id: nat, state: Blob, rng: Option<Bytes24>, begins: bool): Machine {
    DoUpdate(DoBegin(DoSeal(f, m, id, state, rng), id, begins), id)
  }

  function Holding(m: Machine, id: nat, candidate: Candidate): Machine {
    m.(phases := m.phases[id := Updated(candidate)], writer := Some(id))
  }

  lemma PreparedUpdates(f: Platform, m: Machine, id: nat, state: Blob, rng: Option<Bytes24>)
    requires id in m.handles && id !in m.phases && m.writer.None? && !m.handles[id].poisoned
    requires SealNext(f.aead, m.handles[id], state, rng).Some? && m.stored == Some(CachedRow(m.handles[id]))
    ensures Prepared(f, m, id, state, rng, true) == Holding(m, id, SealNext(f.aead, m.handles[id], state, rng).value)
  {
  }

  lemma PreparedFails(f: Platform, m: Machine, id: nat, state: Blob, rng: Option<Bytes24>, begins: bool)
    requires id in m.handles && id !in m.phases && m.writer.None?
    requires m.handles[id].poisoned || SealNext(f.aead, m.handles[id], state, rng).None? || !begins
             || m.stored != Some(CachedRow(m.handles[id]))
    ensures Prepared(f, m, id, state, rng, begins) == m.(handles := m.handles[id := Poisoned(m.handles[id])])
  {
    assert m.phases - {id} == m.phases;
    if m.handles[id].poisoned { assert m.handles[id := Poisoned(m.handles[id])] == m.handles; }
  }

  lemma FinishAlone(m: Machine, id: nat, candidate: Candidate, end: CommitEnd)
    requires id in m.handles && id !in m.phases && m.writer.None?
    ensures var done := DoInstall(DoCommit(Holding(m, id, candidate), id, end), id);
            var h := m.handles[id];
            && done.handles == m.handles[id := if end == Success then Installed(h, candidate) else Poisoned(h)]
            && done.stored == (if end == Lost then m.stored else Some(Written(h, candidate)))
            && done.phases == m.phases && done.writer == None
  {
    assert m.phases[id := Updated(candidate)] - {id} == m.phases;
  }
}
