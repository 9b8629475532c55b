// Envelope encryption of content versions and their storage, over an abstract authenticated cipher.
module ContentEnvelope {
  import opened Options
  import opened BitStreams
  import opened StorageReferences

  type Bytes = seq<Byte>

  // ---------------------------------------------------------------- the primitives

  datatype Sealed = Sealed(body: Bytes, tag: Bytes)

  /** Authenticated cipher, plaintext hash, and the keyed digest behind the references. */
  datatype Crypto = Crypto(
    seal: (Bytes, Bytes, Bytes) -> Sealed,
    unseal: (Bytes, Bytes, Sealed) -> Option<Bytes>,
    hash: Bytes -> string,
    keyedDigest: (Bytes, Bytes, string) -> Bytes)

  const TAG := 16
  const IV := 12

  /** Opening inverts sealing; tags have 16 bytes, digests 32. Nothing else is assumed. */
  ghost predicate Lawful(c: Crypto) {
    && (forall key, iv, p :: |c.seal(key, iv, p).tag| == TAG && c.unseal(key, iv, c.seal(key, iv, p)) == Some(p))
    && (forall key, x, h :: |c.keyedDigest(key, x, h)| == 32)
  }

  // ---------------------------------------------------------------- iv, body, tag

  function Joined(iv: Bytes, s: Sealed): Bytes {
    iv + s.body + s.tag
  }

  function IvOf(w: Bytes): Bytes
    requires |w| >= TAG + IV
  {
    w[..IV]
  }

  function SealedOf(w: Bytes): Sealed
    requires |w| >= TAG + IV
  {
    Sealed(w[IV..|w| - TAG], w[|w| - TAG..])
  }

  /** The layout loses nothing: parts and whole determine each other. */
  lemma LayoutRoundTrip(iv: Bytes, s: Sealed, w: Bytes)
    ensures |iv| == IV && |s.tag| == TAG ==>
              |Joined(iv, s)| >= TAG + IV && IvOf(Joined(iv, s)) == iv && SealedOf(Joined(iv, s)) == s
    ensures |iv| == 12 && |s.tag| == 16 ==>
              var w := Joined(iv, s);
              |w| >= 28 && w[..12] == iv && w[|w| - 16..] == s.tag && w[12..|w| - 16] == s.body
    ensures |w| >= TAG + IV ==> Joined(IvOf(w), SealedOf(w)) == w
  {
    if |w| >= TAG + IV {
      assert w == w[..IV] + w[IV..|w| - TAG] + w[|w| - TAG..];
    }
  }

  datatype KeyProvider = KeyProvider(masterKey: Bytes, keyId: string)

  function WrapKey(c: Crypto, keys: KeyProvider, dek: Bytes, iv: Bytes): Bytes {
    Joined(iv, c.seal(keys.masterKey, iv, dek))
  }

  function UnwrapKey(c: Crypto, keys: KeyProvider, wrapped: Bytes, keyId: string): Outcome<Bytes> {
    if keyId != keys.keyId || |wrapped| < TAG + IV then Threw
    else
      match c.unseal(keys.masterKey, IvOf(wrapped), SealedOf(wrapped))
      case None => Threw
      case Some(dek) => Returned(dek)
  }

  /** A wrapped key comes back under its own key id, and under no other. */
  lemma UnwrapInvertsWrap(c: Crypto, keys: KeyProvider, dek: Bytes, iv: Bytes, keyId: string)
    requires Lawful(c) && |iv| == IV
    ensures UnwrapKey(c, keys, WrapKey(c, keys, dek, iv), keyId) == if keyId == keys.keyId then Returned(dek) else Threw
    ensures |WrapKey(c, keys, dek, iv)| > 0
  {
    assert c.unseal(keys.masterKey, iv, c.seal(keys.masterKey, iv, dek)) == Some(dek);
    LayoutRoundTrip(iv, c.seal(keys.masterKey, iv, dek), []);
  }

  /** Too little material for iv and tag, or another key id, and nothing is opened. */
  lemma UnwrapRefuses(c: Crypto, keys: KeyProvider, wrapped: Bytes, keyId: string)
    requires |wrapped| < 28 || keyId != keys.keyId
    ensures UnwrapKey(c, keys, wrapped, keyId) == Threw
  {
  }

  // ---------------------------------------------------------------- envelopes and versions

  datatype Envelope = Envelope(keyId: string, wrappedKey: Bytes, iv: Bytes, tag: Bytes)

  /** The stored JSON column, which may have any shape. */
  datatype RawEnvelope =
    | NotAnObject
    | Fields(alg: Option<string>, keyId: Option<string>, wrappedKey: Option<Bytes>, iv: Option<Bytes>,
             tag: Option<Bytes>)

  predicate Filled<T>(o: Option<seq<T>>) {
    o.Some? && |o.value| > 0
  }

  function ParseEnvelope(raw: RawEnvelope): Outcome<Envelope> {
    if raw.NotAnObject? || raw.alg != Some("AES-256-GCM") then Threw
    else if !Filled(raw.keyId) || !Filled(raw.wrappedKey) || !Filled(raw.iv) || !Filled(raw.tag) then Threw
    else Returned(Envelope(raw.keyId.value, raw.wrappedKey.value, raw.iv.value, raw.tag.value))
  }

  function RawOf(e: Envelope): RawEnvelope {
    Fields(Some("AES-256-GCM"), Some(e.keyId), Some(e.wrappedKey), Some(e.iv), Some(e.tag))
  }

  /** A stored envelope is usable exactly with the one known algorithm and all four fields non-empty. */
  lemma ParsesExactly(raw: RawEnvelope)
    ensures ParseEnvelope(raw).Returned? <==>
              && raw.Fields? && raw.alg == Some("AES-256-GCM")
              && raw.keyId.Some? && raw.keyId.value != "" && raw.wrappedKey.Some? && raw.wrappedKey.value != []
              && raw.iv.Some? && raw.iv.value != [] && raw.tag.Some? && raw.tag.value != []
    ensures forall e | ParseEnvelope(raw) == Returned(e) :: RawOf(e) == raw
  {
  }

  /** The bytes of a validated upload, and the random bytes drawn while storing it. */
  datatype Upload = Upload(data: Bytes, dek: Bytes, iv: Bytes, wrapIv: Bytes)

  predicate WellDrawn(u: Upload) {
    |u.dek| == 32 && |u.iv| == IV && |u.wrapIv| == IV
  }

  datatype Version = Version(sizeBytes: nat, contentHash: string, reference: string, encryption: RawEnvelope)

  function CiphertextOf(c: Crypto, u: Upload): Bytes {
    c.seal(u.dek, u.iv, u.data).body
  }

  function EnvelopeOf(c: Crypto, keys: KeyProvider, u: Upload): Envelope {
    Envelope(keys.keyId, WrapKey(c, keys, u.dek, u.wrapIv), u.iv, c.seal(u.dek, u.iv, u.data).tag)
  }

  function ReferenceOf(c: Crypto, keys: KeyProvider, u: Upload): string
    requires |c.keyedDigest(keys.masterKey, CiphertextOf(c, u), c.hash(u.data))| == 32
  {
    ContentReference(c.keyedDigest(keys.masterKey, CiphertextOf(c, u), c.hash(u.data)))
  }

  ghost function VersionOf(c: Crypto, keys: KeyProvider, u: Upload): Version
    requires Lawful(c)
  {
    Version(|u.data|, c.hash(u.data), ReferenceOf(c, keys, u), RawOf(EnvelopeOf(c, keys, u)))
  }

  function DecryptBuffer(c: Crypto, keys: KeyProvider, ciphertext: Bytes, e: Envelope): Outcome<Bytes> {
    match UnwrapKey(c, keys, e.wrappedKey, e.keyId)
    case Threw => Threw
    case Returned(dek) =>
      match c.unseal(dek, e.iv, Sealed(ciphertext, e.tag))
      case None => Threw
      case Some(plaintext) => Returned(plaintext)
  }

  type Objects = map<string, Bytes>

  function Load(c: Crypto, keys: KeyProvider, objects: Objects, v: Version): Outcome<Bytes> {
    match ParseEnvelope(v.encryption)
    case Threw => Threw
    case Returned(e) =>
      if !SafeReference(v.reference) || v.reference !in objects then Threw
      else DecryptBuffer(c, keys, objects[v.reference], e)
  }

  /** The version decrypts to content of the recorded hash and size. */
  predicate Verifies(c: Crypto, keys: KeyProvider, objects: Objects, v: Version) {
    var p := Load(c, keys, objects, v);
    p.Returned? && c.hash(p.value) == v.contentHash && |p.value| == v.sizeBytes
  }

  datatype IntegrityState = INTEGRITY_VERIFIED | INTEGRITY_MISMATCH | CONTENT_UNAVAILABLE | VERIFICATION_ERROR

  // ---------------------------------------------------------------- the content service

  class ContentStore {
    const c: Crypto
    const keys: KeyProvider
    var objects: Objects

    constructor (c: Crypto, keys: KeyProvider)
      ensures this.c == c && this.keys == keys && objects == map[]
    {
      this.c, this.keys := c, keys;
      objects := map[];
    }

    method Put(reference: string, data: Bytes) returns (stored: bool)
      modifies this
      ensures stored <==> SafeReference(reference)
      ensures objects == if stored then old(objects)[reference := data] else old(objects)
    {
      stored := SafeReference(reference);
      if stored { objects := objects[reference := data]; }
    }

    /** The provider's read: a refused reference throws, a missing object is reported as unavailable. */
    method Get(reference: string) returns (found: Outcome<Option<Bytes>>)
      ensures found.Threw? <==> !SafeReference(reference)
      ensures found.Returned? ==> found.value == if reference in objects then Some(objects[reference]) else None
    {
      if !SafeReference(reference) { return Threw; }
      if reference !in objects { return Returned(None); }
      return Returned(Some(objects[reference]));
    }

    method EncryptAndStore(u: Upload) returns (v: Version)
      requires Lawful(c) && WellDrawn(u)
      modifies this
      ensures v == VersionOf(c, keys, u) && SafeReference(v.reference)
      ensures objects == old(objects)[v.reference := CiphertextOf(c, u)]
    {
      var cipher := c.seal(u.dek, u.iv, u.data);
      var wrapped := u.wrapIv;
      var wrappedBody := c.seal(keys.masterKey, u.wrapIv, u.dek);
      wrapped := wrapped + wrappedBody.body + wrappedBody.tag;
      var contentHash := c.hash(u.data);
      var reference := DeriveContentReference(c.keyedDigest(keys.masterKey, cipher.body, contentHash));
      var stored := Put(reference, cipher.body);
      v := Version(|u.data|, contentHash, reference,
                   Fields(Some("AES-256-GCM"), Some(keys.keyId), Some(wrapped), Some(u.iv), Some(cipher.tag)));
    }

    method LoadVersionPlaintext(v: Version) returns (plaintext: Outcome<Bytes>)
      ensures plaintext == Load(c, keys, objects, v)
    {
      var envelope := ParseEnvelope(v.encryption);
      if envelope.Threw? { return Threw; }
      var found := Get(v.reference);
      if found.Threw? || found.value.None? { return Threw; }
      plaintext := DecryptBuffer(c, keys, found.value.value, envelope.value);
    }

    /** The verdict says exactly whether the version can be decrypted to content of the recorded hash and size. */
    method VerifyVersionIntegrity(v: Version) returns (state: IntegrityState)
      ensures var p := Load(c, keys, objects, v);
              && (state == INTEGRITY_VERIFIED <==>
                    p.Returned? && c.hash(p.value) == v.contentHash && |p.value| == v.sizeBytes)
              && (state == INTEGRITY_MISMATCH <==>
                    p.Returned? && !(c.hash(p.value) == v.contentHash && |p.value| == v.sizeBytes))
      ensures state == INTEGRITY_VERIFIED <==> Verifies(c, keys, objects, v)
      ensures state == CONTENT_UNAVAILABLE <==>
              ParseEnvelope(v.encryption).Returned? && SafeReference(v.reference) && v.reference !in objects
    {
      var envelope := ParseEnvelope(v.encryption);
      if envelope.Threw? { return VERIFICATION_ERROR; }
      var found := Get(v.reference);
      if found.Threw? { return VERIFICATION_ERROR; }
      if found.value.None? { return CONTENT_UNAVAILABLE; }
      var plaintext := DecryptBuffer(c, keys, found.value.value, envelope.value);
      if plaintext.Threw? { return VERIFICATION_ERROR; }
      var verified := c.hash(plaintext.value) == v.contentHash && |plaintext.value| == v.sizeBytes;
      return if verified then INTEGRITY_VERIFIED else INTEGRITY_MISMATCH;
    }
  }

  // ---------------------------------------------------------------- round trips over runs

  /** While its object is in place, a version loads to its own plaintext, exactly if the key id is not empty. */
  lemma OwnObjectLoads(c: Crypto, keys: KeyProvider, objects: Objects, u: Upload)
    requires Lawful(c) && WellDrawn(u)
    requires ReferenceOf(c, keys, u) in objects && objects[ReferenceOf(c, keys, u)] == CiphertextOf(c, u)
    ensures Load(c, keys, objects, VersionOf(c, keys, u)) == if keys.keyId != "" then Returned(u.data) else Threw
  {
    var e := EnvelopeOf(c, keys, u);
    UnwrapInvertsWrap(c, keys, u.dek, u.wrapIv, keys.keyId);
    ContentReferencesAreSafe(c.keyedDigest(keys.masterKey, CiphertextOf(c, u), c.hash(u.data)));
    assert |c.seal(u.dek, u.iv, u.data).tag| == TAG;
    assert c.unseal(u.dek, u.iv, c.seal(u.dek, u.iv, u.data)) == Some(u.data);
    assert c.seal(u.dek, u.iv, u.data) == Sealed(CiphertextOf(c, u), e.tag);
  }

  ghost function ObjectsAfter(c: Crypto, keys: KeyProvider, uploads: seq<Upload>): Objects
    requires Lawful(c)
  {
    if uploads == [] then map[]
    else
      var last := uploads[|uploads| - 1];
      ObjectsAfter(c, keys, uploads[..|uploads| - 1])[ReferenceOf(c, keys, last) := CiphertextOf(c, last)]
  }

  /** The last upload that was stored under the reference of upload i. */
  ghost predicate LastUnderReference(c: Crypto, keys: KeyProvider, uploads: seq<Upload>, i: nat, j: nat)
    requires Lawful(c) && i < |uploads|
  {
    && i <= j < |uploads| && ReferenceOf(c, keys, uploads[j]) == ReferenceOf(c, keys, uploads[i])
    && forall k | j < k < |uploads| :: ReferenceOf(c, keys, uploads[k]) != ReferenceOf(c, keys, uploads[i])
  }

  lemma LastStoresItsObject(c: Crypto, keys: KeyProvider, uploads: seq<Upload>)
    requires Lawful(c) && uploads != []
    ensures var n := |uploads| - 1;
            ObjectsAfter(c, keys, uploads) ==
            ObjectsAfter(c, keys, uploads[..n])[ReferenceOf(c, keys, uploads[n]) := CiphertextOf(c, uploads[n])]
  {
  }

  lemma {:induction false} ObjectOfTheLastUpload(c: Crypto, keys: KeyProvider, uploads: seq<Upload>, i: nat, j: nat)
    requires Lawful(c) && i < |uploads| && LastUnderReference(c, keys, uploads, i, j)
    ensures var objects, r := ObjectsAfter(c, keys, uploads), ReferenceOf(c, keys, uploads[i]);
            r in objects && objects[r] == CiphertextOf(c, uploads[j])
  {
    var n := |uploads| - 1;
    LastStoresItsObject(c, keys, uploads);
    if j < n {
      var before := uploads[..n];
      assert before[i] == uploads[i] && before[j] == uploads[j];
      assert ReferenceOf(c, keys, uploads[n]) != ReferenceOf(c, keys, uploads[i]);
      assert LastUnderReference(c, keys, before, i, j);
      ObjectOfTheLastUpload(c, keys, before, i, j);
    }
  }

  /** With a full tag, what opens is what was sealed: no other ciphertext opens to the same plaintext under this tag. */
  ghost predicate Authentic(c: Crypto) {
    forall key, iv, s: Sealed, p :: |s.tag| == TAG && c.unseal(key, iv, s) == Some(p) ==> c.seal(key, iv, p) == s
  }

  /** Nothing is loaded with a malformed envelope, an unsafe reference or without an object. */
  lemma NothingToLoad(c: Crypto, keys: KeyProvider, objects: Objects, v: Version)
    requires ParseEnvelope(v.encryption).Threw? || !SafeReference(v.reference) || v.reference !in objects
    ensures Load(c, keys, objects, v) == Threw
  {
  }

  /** Any other ciphertext in its place, and the version does not load to its plaintext. */
  lemma OtherObjectDoesNotLoad(c: Crypto, keys: KeyProvider, objects: Objects, u: Upload)
    requires Lawful(c) && Authentic(c) && WellDrawn(u)
    requires ReferenceOf(c, keys, u) in objects && objects[ReferenceOf(c, keys, u)] != CiphertextOf(c, u)
    ensures Load(c, keys, objects, VersionOf(c, keys, u)) != Returned(u.data)
  {
    var e, found := EnvelopeOf(c, keys, u), objects[ReferenceOf(c, keys, u)];
    UnwrapInvertsWrap(c, keys, u.dek, u.wrapIv, keys.keyId);
    assert |c.seal(u.dek, u.iv, u.data).tag| == TAG;
    assert c.unseal(u.dek, u.iv, Sealed(found, e.tag)) != Some(u.data);
  }

  /**
   * After any sequence of uploads under one master key, a stored version loads to its own plaintext if and only if the
   * key id is not empty and the last upload under its reference had the same ciphertext.
   */
  lemma VersionIsReadableExactly(c: Crypto, keys: KeyProvider, uploads: seq<Upload>, i: nat, j: nat)
    requires Lawful(c) && Authentic(c) && i < |uploads| && WellDrawn(uploads[i])
    requires LastUnderReference(c, keys, uploads, i, j)
    ensures var loaded := Load(c, keys, ObjectsAfter(c, keys, uploads), VersionOf(c, keys, uploads[i]));
            loaded == Returned(uploads[i].data) <==>
            keys.keyId != "" && CiphertextOf(c, uploads[j]) == CiphertextOf(c, uploads[i])
  {
    ObjectOfTheLastUpload(c, keys, uploads, i, j);
    if CiphertextOf(c, uploads[j]) == CiphertextOf(c, uploads[i]) {
      OwnObjectLoads(c, keys, ObjectsAfter(c, keys, uploads), uploads[i]);
    } else {
      OtherObjectDoesNotLoad(c, keys, ObjectsAfter(c, keys, uploads), uploads[i]);
    }
  }

  ghost predicate Lasts(c: Crypto, keys: KeyProvider, uploads: seq<Upload>, i: nat)
    requires Lawful(c) && i < |uploads|
  {
    forall j | i < j < |uploads| && ReferenceOf(c, keys, uploads[j]) == ReferenceOf(c, keys, uploads[i]) ::
      CiphertextOf(c, uploads[j]) == CiphertextOf(c, uploads[i])
  }

  lemma {:induction false} SomeUploadIsLast(c: Crypto, keys: KeyProvider, uploads: seq<Upload>, i: nat, from: nat)
    returns (j: nat)
    requires Lawful(c) && i <= from < |uploads|
             && ReferenceOf(c, keys, uploads[from]) == ReferenceOf(c, keys, uploads[i])
    ensures LastUnderReference(c, keys, uploads, i, j)
    decreases |uploads| - from
  {
    j := from;
    if k :| from < k < |uploads| && ReferenceOf(c, keys, uploads[k]) == ReferenceOf(c, keys, uploads[i]) {
      j := SomeUploadIsLast(c, keys, uploads, i, k);
    }
  }

  /**
   * So each stored version whose reference was not reused for another ciphertext loads to its own plaintext and
   * verifies; here nothing is assumed of the cipher but that opening inverts sealing.
   */
  lemma EveryVersionStaysReadable(c: Crypto, keys: KeyProvider, uploads: seq<Upload>, i: nat)
    requires Lawful(c) && keys.keyId != "" && i < |uploads| && WellDrawn(uploads[i])
    requires Lasts(c, keys, uploads, i)
    ensures var v := VersionOf(c, keys, uploads[i]);
            && Load(c, keys, ObjectsAfter(c, keys, uploads), v) == Returned(uploads[i].data)
            && Verifies(c, keys, ObjectsAfter(c, keys, uploads), v)
  {
    var j := SomeUploadIsLast(c, keys, uploads, i, i);
    ObjectOfTheLastUpload(c, keys, uploads, i, j);
    OwnObjectLoads(c, keys, ObjectsAfter(c, keys, uploads), uploads[i]);
  }

  /** References are shared only by equal digests, so only a digest collision on 30 bytes can overwrite a version. */
  lemma OverwritingNeedsACollision(c: Crypto, keys: KeyProvider, uploads: seq<Upload>, i: nat)
    requires Lawful(c) && i < |uploads|
    requires forall j | i < j < |uploads| && CiphertextOf(c, uploads[j]) != CiphertextOf(c, uploads[i]) ::
               c.keyedDigest(keys.masterKey, CiphertextOf(c, uploads[j]), c.hash(uploads[j].data))[..30] !=
               c.keyedDigest(keys.masterKey, CiphertextOf(c, uploads[i]), c.hash(uploads[i].data))[..30]
    ensures Lasts(c, keys, uploads, i)
  {
    forall j | i < j < |uploads| && ReferenceOf(c, keys, uploads[j]) == ReferenceOf(c, keys, uploads[i])
      ensures CiphertextOf(c, uploads[j]) == CiphertextOf(c, uploads[i])
    {
      ReferencesAgreeExactly(c.keyedDigest(keys.masterKey, CiphertextOf(c, uploads[j]), c.hash(uploads[j].data)),
                             c.keyedDigest(keys.masterKey, CiphertextOf(c, uploads[i]), c.hash(uploads[i].data)));
    }
  }
}
