/** The one-row snapshot store: what a row must satisfy, and a store handle. */
module Store {
  import opened Bytes
  import opened LabErrors
  import opened Envelope

  datatype Row = Row(
    profileId: Blob, generation: int, envelopeVersion: int, stateSchemaVersion: int,
    cryptoSuite: int, keyRef: Blob, wrappedDek: Blob, nonce: Blob, ciphertext: Blob)

  /** The `CHECK`s of the table. */
  predicate MeetsDdl(row: Row) {
    && |row.profileId| == 16
    && row.generation >= 1
    && row.envelopeVersion == 1 && row.stateSchemaVersion == 1 && row.cryptoSuite == 1
    && |row.keyRef| == 16
    && 1 <= |row.wrappedDek| <= 8192
    && |row.nonce| == 24
    && 16 <= |row.ciphertext| <= 8_388_608
  }

  /** The platform's key protector: the binding it holds, and how it wraps a key. */
  datatype Protector = Protector(
    binding: ProfileBinding,
    wrap: Dek -> Option<Blob>,
    unwrap: Blob -> Option<Dek>)

  ghost predicate Unwraps(p: Protector) {
    forall dek: Dek {:trigger p.wrap(dek)} :: p.wrap(dek).Some? ==> p.unwrap(p.wrap(dek).value) == Some(dek)
  }

  /** A handle's fields. `nonce` and `ciphertext` cache the row it last authenticated. */
  datatype Handle = Handle(
    binding: ProfileBinding, dek: Dek, wrappedDek: Blob, nonce: Bytes24, ciphertext: Blob,
    generation: U64, state: Blob, poisoned: bool)

  /** The row a handle believes is stored: what its update requires of every column. */
  function CachedRow(h: Handle): Row {
    Row(h.binding.profileId, h.generation, ENVELOPE_VERSION, STATE_SCHEMA_VERSION, CRYPTO_SUITE,
        h.binding.keyRef, h.wrappedDek, h.nonce, h.ciphertext)
  }

  function HeaderOf(h: Handle): Header {
    Header(h.binding, h.generation, h.wrappedDek)
  }

  /** What a handle lets its owner read. */
  function Readable(h: Handle): Result<Blob> {
    if h.poisoned then Err(Storage) else Ok(h.state)
  }

  // ---- Creating and opening ----

  /** The first handle and its row, from a fresh key and nonce; `None` is a `Storage` error. */
  function Created(a: Aead, p: Protector, dek: Dek, nonce: Bytes24, state: Blob): Option<Handle> {
    match p.wrap(dek)
    case None => None
    case Some(wrapped) =>
      if |wrapped| < 1 || |wrapped| > MAX_WRAPPED_DEK_BYTES then None
      else
        match Seal(a, Header(p.binding, 1, wrapped), dek, nonce, state)
        case None => None
        case Some(ciphertext) =>
          if |ciphertext| < 16 then None
          else Some(Handle(p.binding, dek, wrapped, nonce, ciphertext, 1, state, false))
  }

  /** `read_row`: bounds first, then the independently held binding. */
  predicate ReadsBack(row: Row, binding: ProfileBinding) {
    && |row.profileId| == 16
    && 1 <= row.generation <= I64_MAX
    && row.envelopeVersion == ENVELOPE_VERSION
    && row.stateSchemaVersion == STATE_SCHEMA_VERSION
    && row.cryptoSuite == CRYPTO_SUITE
    && |row.keyRef| == 16
    && 1 <= |row.wrappedDek| <= MAX_WRAPPED_DEK_BYTES
    && |row.nonce| == 24
    && 16 <= |row.ciphertext| <= MAX_CIPHERTEXT_BYTES
    && row.profileId == binding.profileId && row.keyRef == binding.keyRef
  }

  /** `open`: the row is read, its key unwrapped and its state authenticated. */
  function Opened(a: Aead, p: Protector, row: Row): Option<Handle> {
    if !ReadsBack(row, p.binding) then None
    else
      match p.unwrap(row.wrappedDek)
      case None => None
      case Some(dek) =>
        match Unseal(a, Header(p.binding, row.generation, row.wrappedDek), dek, row.nonce, row.ciphertext)
        case None => None
        case Some(state) =>
          Some(Handle(p.binding, dek, row.wrappedDek, row.nonce, row.ciphertext, row.generation,
                      state, false))
  }

  /** A store is created exactly when the key wraps within its bound and the state can be sealed;
      its first handle holds the given state at generation 1. */
  lemma CreatesExactly(a: Aead, p: Protector, dek: Dek, nonce: Bytes24, state: Blob)
    requires Correct(a)
    ensures Created(a, p, dek, nonce, state) ==
            if p.wrap(dek).None? || !(1 <= |p.wrap(dek).value| <= 8_192) || |state| > 8_388_592 then None
            else
              match a.encrypt(dek, nonce, Header(p.binding, 1, p.wrap(dek).value), state)
              case None => None
              case Some(sealed) => Some(Handle(p.binding, dek, p.wrap(dek).value, nonce, sealed, 1, state, false))
  {
    if p.wrap(dek).Some? { SealsExactly(a, Header(p.binding, 1, p.wrap(dek).value), dek, nonce, state); }
  }

  /** A row opens exactly when every column is in its bounds, the profile and key reference are the
      protector's own, the key unwraps, and the ciphertext decrypts under the row's own columns;
      the handle then holds those columns and the decrypted state. */
  lemma OpensExactly(a: Aead, p: Protector, row: Row)
    ensures Opened(a, p, row).Some? <==>
            && InBounds(row) && row.profileId == p.binding.profileId && row.keyRef == p.binding.keyRef
            && p.unwrap(row.wrappedDek).Some?
            && a.decrypt(p.unwrap(row.wrappedDek).value, row.nonce,
                         Header(p.binding, row.generation, row.wrappedDek), row.ciphertext).Some?
    ensures Opened(a, p, row).Some? ==>
            var dek := p.unwrap(row.wrappedDek).value;
            Opened(a, p, row).value ==
            Handle(p.binding, dek, row.wrappedDek, row.nonce, row.ciphertext, row.generation,
                   a.decrypt(dek, row.nonce, Header(p.binding, row.generation, row.wrappedDek), row.ciphertext).value,
                   false)
  {
  }

  ghost predicate InBounds(row: Row) {
    && 1 <= row.generation <= I64_MAX
    && row.envelopeVersion == 1 && row.stateSchemaVersion == 1 && row.cryptoSuite == 1
    && 1 <= |row.wrappedDek| <= 8_192 && |row.nonce| == 24 && 16 <= |row.ciphertext| <= 8_388_608
  }

  /** A tampered row does not open. `made` are the snapshots sealed under the key that the row's
      wrapped key unwraps to; a row that opens is one of them in its profile, key reference,
      generation, wrapped-key hash, nonce and ciphertext. */
  lemma OnlySealedRowsOpen(p: AeadPrimitives, protector: Protector, made: set<Snapshot>, row: Row)
    requires Opened(OverHeaders(p), protector, row).Some?
    requires protector.unwrap(row.wrappedDek).Some? ==> Unforged(p, protector.unwrap(row.wrappedDek).value, made)
    ensures exists s :: s in made && SealedAs(p, s, row)
  {
    var h := Opened(OverHeaders(p), protector, row).value;
    OnlySealedSnapshotsOpen(p, h.dek, made, HeaderOf(h), h.nonce, h.ciphertext);
    var s :| s in made && s.nonce == h.nonce && s.ciphertext == h.ciphertext && s.header.binding == h.binding
             && s.header.generation == h.generation && p.hash(s.header.wrappedDek) == p.hash(h.wrappedDek);
    assert SealedAs(p, s, row);
  }

  ghost predicate SealedAs(p: AeadPrimitives, s: Snapshot, row: Row) {
    && s.header.binding.profileId == row.profileId && s.header.binding.keyRef == row.keyRef
    && s.header.generation == row.generation && p.hash(s.header.wrappedDek) == p.hash(row.wrappedDek)
    && s.nonce == row.nonce && s.ciphertext == row.ciphertext
  }

  // ---- Committing ----

  /** A sealed replacement, not yet written. */
  datatype Candidate = Candidate(generation: U64, state: Blob, nonce: Bytes24, ciphertext: Blob)

  /** The seal phase of a commit. The nonce is missing when the random source failed. */
  function SealNext(a: Aead, h: Handle, state: Blob, nonce: Option<Bytes24>): Option<Candidate> {
    if h.generation == U64_MAX || nonce.None? then None
    else
      match Seal(a, Header(h.binding, h.generation + 1, h.wrappedDek), h.dek, nonce.value, state)
      case None => None
      case Some(ciphertext) =>
        if |ciphertext| < 16 || h.generation + 1 > I64_MAX then None
        else Some(Candidate(h.generation + 1, state, nonce.value, ciphertext))
  }

  function Installed(h: Handle, candidate: Candidate): Handle {
    h.(generation := candidate.generation, state := candidate.state, nonce := candidate.nonce,
       ciphertext := candidate.ciphertext)
  }

  function Poisoned(h: Handle): Handle {
    h.(poisoned := true)
  }

  /** How a COMMIT ends: it can succeed, fail, or report a failure after becoming durable. */
  datatype CommitEnd = Success | Lost | Uncertain

  /** One whole commit, uninterrupted: the handle and the row afterwards, and whether it
      reported success. */
  function Committed(a: Aead, h: Handle, row: Option<Row>, state: Blob, nonce: Option<Bytes24>, begins: bool,
                     end: CommitEnd): (Handle, Option<Row>, bool)
  {
    if h.poisoned then (h, row, false)
    else
      match SealNext(a, h, state, nonce)
      case None => (Poisoned(h), row, false)
      case Some(candidate) =>
        if !begins || row != Some(CachedRow(h)) then (Poisoned(h), row, false)
        else
          var written := Some(CachedRow(Installed(h, candidate)));
          match end
          case Success => (Installed(h, candidate), written, true)
          case Lost => (Poisoned(h), row, false)
          case Uncertain => (Poisoned(h), written, false)
  }

  /** The handle a commit would leave: it takes a usable handle below the last generation, a nonce,
      a state within the limit that encrypts, and a transaction that finds the cached row stored. */
  ghost function Successor(a: Aead, h: Handle, row: Option<Row>, state: Blob, nonce: Option<Bytes24>,
                           begins: bool): Option<Handle>
  {
    if h.poisoned || h.generation >= I64_MAX || nonce.None? || |state| > 8_388_592 then None
    else if !begins || row != Some(CachedRow(h)) then None
    else
      match a.encrypt(h.dek, nonce.value, Header(h.binding, h.generation + 1, h.wrappedDek), state)
      case None => None
      case Some(sealed) =>
        Some(Handle(h.binding, h.dek, h.wrappedDek, nonce.value, sealed, h.generation + 1, state, false))
  }

  /** A commit succeeds exactly when there is a successor and COMMIT reports success; handle and row
      then hold the given state under the given nonce at the next generation. Otherwise the
      handle is poisoned with its other fields as they were, and the row is as it was unless a
      COMMIT became durable without saying so. */
  lemma CommitsExactly(a: Aead, h: Handle, row: Option<Row>, state: Blob, nonce: Option<Bytes24>, begins: bool,
                       end: CommitEnd)
    requires Correct(a) && 1 <= h.generation && 1 <= |h.wrappedDek| <= 8_192
    ensures var next := Successor(a, h, row, state, nonce, begins);
            Committed(a, h, row, state, nonce, begins, end) ==
            if next.None? || end == Lost then (Poisoned(h), row, false)
            else if end == Success then (next.value, Some(CachedRow(next.value)), true)
            else (Poisoned(h), Some(CachedRow(next.value)), false)
  {
    if h.generation < U64_MAX && nonce.Some? {
      SealsExactly(a, Header(h.binding, h.generation + 1, h.wrappedDek), h.dek, nonce.value, state);
    }
  }

  class Database {
    var row: Option<Row>

    constructor ()
      ensures row == None
    {
      row := None;
    }
  }

  class ClientStateStore {
    const database: Database
    const a: Aead
    const binding: ProfileBinding
    const dek: Dek
    const wrappedDek: Blob
    var nonce: Bytes24
    var ciphertext: Blob
    var generation: U64
    var state: Blob
    var poisoned: bool

    function View(): Handle
      reads this
    {
      Handle(binding, dek, wrappedDek, nonce, ciphertext, generation, state, poisoned)
    }

    constructor (database: Database, a: Aead, h: Handle)
      ensures this.database == database && this.a == a && View() == h
    {
      this.database, this.a := database, a;
      binding, dek, wrappedDek := h.binding, h.dek, h.wrappedDek;
      nonce, ciphertext, generation, state, poisoned := h.nonce, h.ciphertext, h.generation, h.state, h.poisoned;
    }

    /** `state()`: refused once any commit of this handle has failed. */
    method State() returns (r: Result<Blob>)
      ensures r == Readable(View())
    {
      r := if poisoned then Err(Storage) else Ok(state);
    }

    /** `commit_with_rng`: any failure poisons the handle. */
    method Commit(newState: Blob, rng: Option<Bytes24>, begins: bool, end: CommitEnd) returns (r: Result<()>)
      modifies this, database
      ensures (View(), database.row, r.Ok?)
              == Committed(a, old(View()), old(database.row), newState, rng, begins, end)
      ensures r.Err? ==> r == Err(Storage) && poisoned && state == old(state) && generation == old(generation)
      ensures r.Ok? ==> state == newState && Some(nonce) == rng && generation == old(generation) + 1
    {
      if poisoned {
        return Err(Storage);
      }
      r := CommitInner(newState, rng, begins, end);
      if r.Err? {
        poisoned := true;
      }
    }

    /** `commit_inner`: seal, begin, compare and update, COMMIT, and only then install. */
    method CommitInner(newState: Blob, rng: Option<Bytes24>, begins: bool, end: CommitEnd) returns (r: Result<()>)
      requires !poisoned
      modifies this`nonce, this`ciphertext, this`generation, this`state, database
      ensures var (h, row, ok) := Committed(a, old(View()), old(database.row), newState, rng, begins, end);
              && database.row == row
              && (ok ==> r == Ok(()) && View() == h)
              && (!ok ==> r == Err(Storage) && View() == old(View()) && h == Poisoned(old(View())))
    {
      if generation == U64_MAX || rng.None? {
        return Err(Storage);
      }
      var nextGeneration := generation + 1;
      var sealed := Seal(a, Header(binding, nextGeneration, wrappedDek), dek, rng.value, newState);
      if sealed.None? || |sealed.value| < 16 || |sealed.value| > MAX_CIPHERTEXT_BYTES {
        return Err(Storage);
      }
      if nextGeneration > I64_MAX {
        return Err(Storage);
      }
      if !begins {
        return Err(Storage);
      }
      var image := database.row;
      var changed := 0;
      if image.Some? {
        var row := image.value;
        if row.generation == generation && row.profileId == binding.profileId && row.keyRef == binding.keyRef
           && row.envelopeVersion == ENVELOPE_VERSION && row.stateSchemaVersion == STATE_SCHEMA_VERSION
           && row.cryptoSuite == CRYPTO_SUITE && row.wrappedDek == wrappedDek && row.nonce == nonce
           && row.ciphertext == ciphertext {
          image := Some(row.(generation := nextGeneration, nonce := rng.value, ciphertext := sealed.value));
          changed := 1;
        }
      }
      if changed != 1 {
        return Err(Storage);
      }
      if end != Lost {
        database.row := image;
      }
      if end != Success {
        return Err(Storage);
      }
      generation, state, nonce, ciphertext := nextGeneration, newState, rng.value, sealed.value;
      return Ok(());
    }
  }

  /** `create_with_rng`: an empty database receives generation one. `dek` and `nonce` are missing
      when the random source failed; an uncertain COMMIT leaves a row and no handle. */
  method CreateStore(database: Database, a: Aead, p: Protector, state: Blob, dek: Option<Dek>,
                     nonce: Option<Bytes24>, begins: bool, end: CommitEnd)
    returns (r: Result<ClientStateStore>)
    modifies database
    ensures r.Err? ==> r.error == Storage
    ensures r.Ok? <==> old(database.row).None? && dek.Some? && nonce.Some? && begins && end == Success
                       && Created(a, p, dek.value, nonce.value, state).Some?
    ensures r.Ok? ==> && fresh(r.value) && r.value.database == database && r.value.a == a
                      && Some(r.value.View()) == Created(a, p, dek.value, nonce.value, state)
                      && database.row == Some(CachedRow(r.value.View()))
                      && r.value.state == state && r.value.generation == 1
    ensures r.Err? ==> database.row == old(database.row)
                       || (end == Uncertain && old(database.row).None? && dek.Some? && nonce.Some?
                           && Created(a, p, dek.value, nonce.value, state).Some?
                           && database.row == Some(CachedRow(Created(a, p, dek.value, nonce.value, state).value)))
  {
    if database.row.Some? || dek.None? {
      return Err(Storage);
    }
    var wrapped := p.wrap(dek.value);
    if wrapped.None? || |wrapped.value| < 1 || |wrapped.value| > MAX_WRAPPED_DEK_BYTES || nonce.None? {
      return Err(Storage);
    }
    var sealed := Seal(a, Header(p.binding, 1, wrapped.value), dek.value, nonce.value, state);
    if sealed.None? || |sealed.value| < 16 || |sealed.value| > MAX_CIPHERTEXT_BYTES || !begins {
      return Err(Storage);
    }
    var h := Handle(p.binding, dek.value, wrapped.value, nonce.value, sealed.value, 1, state, false);
    if end != Lost {
      database.row := Some(CachedRow(h));
    }
    if end != Success {
      return Err(Storage);
    }
    var store := new ClientStateStore(database, a, h);
    return Ok(store);
  }

  /** `open`: nothing is written, and a handle is made exactly when the row authenticates. */
  method OpenStore(database: Database, a: Aead, p: Protector) returns (r: Result<ClientStateStore>)
    ensures r.Err? ==> r.error == Storage
    ensures r.Ok? <==> database.row.Some? && Opened(a, p, database.row.value).Some?
    ensures r.Ok? ==> && fresh(r.value) && r.value.database == database && r.value.a == a
                      && Some(r.value.View()) == Opened(a, p, database.row.value)
  {
    if database.row.None? || !ReadsBack(database.row.value, p.binding) {
      return Err(Storage);
    }
    var row := database.row.value;
    var dek := p.unwrap(row.wrappedDek);
    if dek.None? {
      return Err(Storage);
    }
    var state := Unseal(a, Header(p.binding, row.generation, row.wrappedDek), dek.value, row.nonce, row.ciphertext);
    if state.None? {
      return Err(Storage);
    }
    var store := new ClientStateStore(database, a, Handle(p.binding, dek.value, row.wrappedDek, row.nonce,
                                                          row.ciphertext, row.generation, state.value, false));
    return Ok(store);
  }
}
