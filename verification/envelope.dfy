/** The sealed envelope of one client-state snapshot. */
module Envelope {
  import opened Bytes
  import opened LabErrors
  import opened Framing
  import opened Capability

  const ENVELOPE_VERSION := 1
  const CRYPTO_SUITE := 1
  const STATE_SCHEMA_VERSION := 1
  const MAX_CIPHERTEXT_BYTES := 8_388_608
  const MAX_PLAINTEXT_BYTES := MAX_CIPHERTEXT_BYTES - 16
  const MAX_WRAPPED_DEK_BYTES := 8_192
  const STATE_DOMAIN := Ascii("secure-messenger-lab/client-state")
  const VODOZEMAC_VERSION := Ascii("0.10.0")

  type Bytes16 = b: Blob | |b| == 16 witness seq(16, _ => 0)
  type Bytes24 = b: Blob | |b| == 24 witness seq(24, _ => 0)
  type Dek = b: Blob | |b| == 32 witness seq(32, _ => 0)

  datatype ProfileBinding = ProfileBinding(profileId: Bytes16, keyRef: Bytes16)

  /** The header that the associated data authenticates. */
  datatype Header = Header(binding: ProfileBinding, generation: U64, wrappedDek: Blob)

  /** SHA-256 and XChaCha20-Poly1305 over (key, nonce, associated data, message). */
  datatype AeadPrimitives = AeadPrimitives(
    hash: Blob -> Digest,
    encrypt: (Blob, Blob, Blob, Blob) -> Option<Blob>,
    decrypt: (Blob, Blob, Blob, Blob) -> Option<Blob>)

  /** The same, over (key, nonce, header, message). */
  datatype Aead = Aead(
    encrypt: (Blob, Blob, Header, Blob) -> Option<Blob>,
    decrypt: (Blob, Blob, Header, Blob) -> Option<Blob>)

  function OverHeaders(p: AeadPrimitives): Aead {
    Aead((key: Blob, nonce: Blob, h: Header, m: Blob) => p.encrypt(key, nonce, AadBytes(p, h), m),
         (key: Blob, nonce: Blob, h: Header, m: Blob) => p.decrypt(key, nonce, AadBytes(p, h), m))
  }

  function AadParts(p: AeadPrimitives, h: Header): seq<Blob> {
    [STATE_DOMAIN,
     BigEndian(ENVELOPE_VERSION, 8),
     BigEndian(CRYPTO_SUITE, 8),
     h.binding.profileId,
     BigEndian(h.generation, 8),
     h.binding.keyRef,
     p.hash(h.wrappedDek),
     PROTOCOL_DOMAIN,
     VODOZEMAC_VERSION,
     BigEndian(STATE_SCHEMA_VERSION, 8)]
  }

  function AadBytes(p: AeadPrimitives, h: Header): Blob {
    Frames(4, AadParts(p, h))
  }

  /** `aad`: every part behind a `u32` length; a part too long for one is an error. */
  method Aad(p: AeadPrimitives, h: Header) returns (r: Result<Blob>)
    ensures r == Ok(AadBytes(p, h))
  {
    var parts := AadParts(p, h);
    AadPartsFit(p, h);
    var encoded: Blob := [];
    for i := 0 to |parts|
      invariant encoded == Frames(4, parts[..i])
    {
      var part := parts[i];
      PowersOf256();
      if |part| > 0xFFFF_FFFF {
        return Err(Storage);
      }
      encoded := encoded + BigEndian(|part|, 4);
      encoded := encoded + part;
      assert parts[..i + 1] == parts[..i] + [part];
      FramesAppend(4, parts[..i], part);
    }
    assert parts[..|parts|] == parts;
    return Ok(encoded);
  }

  lemma AadPartsFit(p: AeadPrimitives, h: Header)
    ensures Fits(4, AadParts(p, h))
  {
    PowersOf256();
  }

  /** The associated data pins the profile, the key reference, the generation and the hash of
      the wrapped key. */
  lemma AadInjective(p: AeadPrimitives, a: Header, b: Header)
    requires AadBytes(p, a) == AadBytes(p, b)
    ensures a.binding == b.binding && a.generation == b.generation
    ensures p.hash(a.wrappedDek) == p.hash(b.wrappedDek)
  {
    AadPartsFit(p, a);
    AadPartsFit(p, b);
    FramesInjective(4, AadParts(p, a), AadParts(p, b));
    var x, y := AadParts(p, a), AadParts(p, b);
    assert x[3] == y[3] && x[4] == y[4] && x[5] == y[5] && x[6] == y[6];
    U64BytesInjective(a.generation, b.generation);
  }

  // ---- Sealing and opening ----

  predicate HeaderOk(h: Header, plaintextLength: int) {
    && 1 <= h.generation <= I64_MAX
    && 1 <= |h.wrappedDek| <= MAX_WRAPPED_DEK_BYTES
    && plaintextLength <= MAX_PLAINTEXT_BYTES
  }

  /** `seal`; every failure is `Storage`. */
  function Seal(a: Aead, h: Header, dek: Dek, nonce: Bytes24, plaintext: Blob): Option<Blob> {
    if !HeaderOk(h, |plaintext|) then None
    else
      match a.encrypt(dek, nonce, h, plaintext)
      case None => None
      case Some(ciphertext) => if |ciphertext| > MAX_CIPHERTEXT_BYTES then None else Some(ciphertext)
  }

  /** `open`; every failure is `Storage`. */
  function Unseal(a: Aead, h: Header, dek: Dek, nonce: Bytes24, ciphertext: Blob): Option<Blob> {
    if |ciphertext| < 16 || |ciphertext| > MAX_CIPHERTEXT_BYTES then None
    else if !HeaderOk(h, |ciphertext| - 16) then None
    else a.decrypt(dek, nonce, h, ciphertext)
  }

  /** Decryption undoes encryption, which adds a 16-byte tag. */
  ghost predicate Correct(a: Aead) {
    forall key, nonce, h, m {:trigger a.encrypt(key, nonce, h, m)} ::
      a.encrypt(key, nonce, h, m).Some? ==>
        && |a.encrypt(key, nonce, h, m).value| == |m| + 16
        && a.decrypt(key, nonce, h, a.encrypt(key, nonce, h, m).value) == Some(m)
  }

  lemma UnsealUndoesSeal(a: Aead, h: Header, dek: Dek, nonce: Bytes24, plaintext: Blob)
    requires Correct(a) && Seal(a, h, dek, nonce, plaintext).Some?
    ensures Unseal(a, h, dek, nonce, Seal(a, h, dek, nonce, plaintext).value) == Some(plaintext)
  {
  }

  /** Sealing succeeds exactly within the limits: a generation an `i64` can hold, a wrapped key of 1
      to 8192 bytes and a state of at most 8388592. */
  lemma SealsExactly(a: Aead, h: Header, dek: Dek, nonce: Bytes24, plaintext: Blob)
    requires Correct(a)
    ensures Seal(a, h, dek, nonce, plaintext) ==
            if 1 <= h.generation <= I64_MAX && 1 <= |h.wrappedDek| <= 8_192 && |plaintext| <= 8_388_592
            then a.encrypt(dek, nonce, h, plaintext) else None
  {
  }

  /** Opening is decryption, within the limits that sealing keeps. */
  lemma UnsealsExactly(a: Aead, h: Header, dek: Dek, nonce: Bytes24, ciphertext: Blob)
    ensures Unseal(a, h, dek, nonce, ciphertext) ==
            if 16 <= |ciphertext| <= 8_388_608 && 1 <= h.generation <= I64_MAX && 1 <= |h.wrappedDek| <= 8_192
            then a.decrypt(dek, nonce, h, ciphertext) else None
  {
  }

  /** A seal that was made: the header, nonce and ciphertext of one snapshot. */
  datatype Snapshot = Snapshot(header: Header, nonce: Bytes24, ciphertext: Blob)

  /** Under the key, nothing decrypts but what was sealed: no ciphertext is accepted except with
      the nonce and the associated data of a snapshot that produced it. */
  ghost predicate Unforged(p: AeadPrimitives, dek: Dek, made: set<Snapshot>) {
    forall nonce: Bytes24, aad: Blob, ciphertext: Blob {:trigger p.decrypt(dek, nonce, aad, ciphertext)} ::
      p.decrypt(dek, nonce, aad, ciphertext).Some? ==>
        exists s :: s in made && Carries(p, s, nonce, aad, ciphertext)
  }

  ghost predicate Carries(p: AeadPrimitives, s: Snapshot, nonce: Bytes24, aad: Blob, ciphertext: Blob) {
    s.nonce == nonce && s.ciphertext == ciphertext && AadBytes(p, s.header) == aad
  }

  /** What opens was sealed as it stands: a row whose profile, key reference, generation,
      wrapped-key hash, nonce or ciphertext differs from every snapshot made does not open. */
  lemma OnlySealedSnapshotsOpen(p: AeadPrimitives, dek: Dek, made: set<Snapshot>, h: Header,
                                nonce: Bytes24, ciphertext: Blob)
    requires Unforged(p, dek, made)
    requires Unseal(OverHeaders(p), h, dek, nonce, ciphertext).Some?
    ensures exists s :: s in made && s.nonce == nonce && s.ciphertext == ciphertext
                        && s.header.binding == h.binding && s.header.generation == h.generation
                        && p.hash(s.header.wrappedDek) == p.hash(h.wrappedDek)
  {
    assert p.decrypt(dek, nonce, AadBytes(p, h), ciphertext).Some?;
    var s :| s in made && Carries(p, s, nonce, AadBytes(p, h), ciphertext);
    AadInjective(p, s.header, h);
  }
}
