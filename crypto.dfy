/**
 * The envelope codec: a string is sealed with AES-256-GCM under a hex key and
 * a 12-byte IV, and stored as base64(IV ‖ tag ‖ ciphertext). Decryption splits
 * the decoded bytes at the fixed offsets 12 and 28.
 */
module Crypto {
  import opened Wrappers
  import opened Tokens
  import opened Primitives

  const IV_LENGTH: nat := 12
  const KEY_LENGTH: nat := 32
  const HEADER_LENGTH: nat := IV_LENGTH + TAG_LENGTH

  /** The key is the hex decoding of the configured string, with no derivation. */
  function KeyBytes(P: Primitives, key: string): Bytes {
    P.hexDecode(key)
  }

  /** Buffer.concat([iv, authTag, ciphertext]). */
  function Envelope(iv: Bytes, tag: Bytes, ciphertext: Bytes): (e: Bytes)
    ensures |e| == |iv| + |tag| + |ciphertext|
  {
    iv + tag + ciphertext
  }

  /** Buffer.slice(lo, hi) for non-negative bounds: both are clamped to the length. */
  function Slice(b: Bytes, lo: nat, hi: nat): (s: Bytes)
    requires lo <= hi
    ensures |s| == (if hi <= |b| then hi else |b|) - (if lo <= |b| then lo else |b|)
  {
    var h := if hi <= |b| then hi else |b|;
    var l := if lo <= |b| then lo else |b|;
    b[l..h]
  }

  datatype Parts = Parts(iv: Bytes, tag: Bytes, ciphertext: Bytes)

  /** The three slices decryptString takes of the decoded envelope. */
  function Split(b: Bytes): (p: Parts)
    ensures |b| >= HEADER_LENGTH ==> |p.iv| == IV_LENGTH && |p.tag| == TAG_LENGTH
    ensures |b| >= HEADER_LENGTH ==> Envelope(p.iv, p.tag, p.ciphertext) == b
    ensures |b| < HEADER_LENGTH ==> |p.tag| < TAG_LENGTH && p.ciphertext == []
    ensures |p.iv| == 0 <==> |b| == 0
  {
    Parts(Slice(b, 0, IV_LENGTH), Slice(b, IV_LENGTH, HEADER_LENGTH), Slice(b, HEADER_LENGTH, |b| + HEADER_LENGTH))
  }

  /** Splitting at 12 and 28 recovers exactly what was concatenated. */
  lemma SplitEnvelope(iv: Bytes, tag: Bytes, ciphertext: Bytes)
    requires |iv| == IV_LENGTH && |tag| == TAG_LENGTH
    ensures Split(Envelope(iv, tag, ciphertext)) == Parts(iv, tag, ciphertext)
  {
    var b := Envelope(iv, tag, ciphertext);
    assert b[..IV_LENGTH] == iv;
    assert b[IV_LENGTH..HEADER_LENGTH] == tag;
    assert b[HEADER_LENGTH..] == ciphertext;
  }

  /** Tag lengths that decipher.setAuthTag accepts for GCM. */
  predicate AcceptedTagLength(n: nat) {
    n == 4 || n == 8 || 12 <= n <= 16
  }

  /** encryptString, with the random IV as a parameter. */
  function EncryptString(P: Primitives, plaintext: string, key: string, iv: Bytes): (r: Result<string, Error>)
    requires |iv| == IV_LENGTH
    // createCipheriv accepts exactly the 32-byte keys; any other key is its only error.
    ensures r.Success? <==> |KeyBytes(P, key)| == KEY_LENGTH
    ensures r.Failure? ==> r.error == InvalidKeyLength
  {
    var k := KeyBytes(P, key);
    if |k| != KEY_LENGTH then Failure(InvalidKeyLength)
    else
      var sealed := P.seal(k, iv, P.utf8Encode(plaintext));
      var encrypted := P.hexEncode(sealed.ciphertext);
      Success(P.base64Encode(Envelope(iv, sealed.tag, P.hexDecode(encrypted))))
  }

  /**
   * decryptString. The checks happen in the order Node performs them:
   * createDecipheriv refuses an empty IV before it looks at the key, then
   * setAuthTag the tag's length, then final() the authentication.
   */
  function DecryptString(P: Primitives, encrypted: string, key: string): Result<string, Error> {
    var k := KeyBytes(P, key);
    var parts := Split(P.base64Decode(encrypted));
    if |parts.iv| == 0 then Failure(InvalidIvLength)
    else if |k| != KEY_LENGTH then Failure(InvalidKeyLength)
    else if !AcceptedTagLength(|parts.tag|) then Failure(InvalidTagLength)
    else
      match P.open(k, parts.iv, parts.tag, parts.ciphertext)
      case None => Failure(Unauthenticated)
      case Some(m) => Success(P.utf8Decode(m))
  }

  /** JSON.parse of a stored token record. */
  function ParseRecord(P: Primitives, s: string): Result<TokenRecord, Error> {
    match P.parse(s)
    case None => Failure(MalformedJson)
    case Some(r) => Success(r)
  }

  /** encryptObject: the record's JSON, encrypted. */
  function EncryptObject(P: Primitives, r: TokenRecord, key: string, iv: Bytes): (e: Result<string, Error>)
    requires |iv| == IV_LENGTH
    ensures e.Success? <==> |KeyBytes(P, key)| == KEY_LENGTH
    ensures e.Failure? ==> e.error == InvalidKeyLength
  {
    EncryptString(P, P.stringify(r), key, iv)
  }

  /** decryptObject: the plaintext's JSON. */
  function DecryptObject(P: Primitives, encrypted: string, key: string): Result<TokenRecord, Error> {
    match DecryptString(P, encrypted, key)
    case Failure(e) => Failure(e)
    case Success(s) => ParseRecord(P, s)
  }

  // ---------------------------------------------------------------------------
  // Properties

  /**
   * Encryption succeeds exactly for a 32-byte key, and the decoded envelope is
   * the IV, then the 16-byte tag, then the ciphertext: 28 + |ciphertext| bytes.
   */
  lemma EnvelopeLayout(P: Primitives, plaintext: string, key: string, iv: Bytes)
    requires Sound(P) && |iv| == IV_LENGTH
    ensures EncryptString(P, plaintext, key, iv).Success? <==> |KeyBytes(P, key)| == KEY_LENGTH
    ensures EncryptString(P, plaintext, key, iv).Success? ==>
      var b := P.base64Decode(EncryptString(P, plaintext, key, iv).value);
      var sealed := P.seal(KeyBytes(P, key), iv, P.utf8Encode(plaintext));
      && |b| == HEADER_LENGTH + |sealed.ciphertext|
      && b[..IV_LENGTH] == iv
      && b[IV_LENGTH..HEADER_LENGTH] == sealed.tag
      && b[HEADER_LENGTH..] == sealed.ciphertext
      && Split(b) == Parts(iv, sealed.tag, sealed.ciphertext)
  {
    var k := KeyBytes(P, key);
    if |k| == KEY_LENGTH {
      var sealed := P.seal(k, iv, P.utf8Encode(plaintext));
      var b := Envelope(iv, sealed.tag, sealed.ciphertext);
      assert P.hexDecode(P.hexEncode(sealed.ciphertext)) == sealed.ciphertext;
      assert P.base64Decode(P.base64Encode(b)) == b;
      SplitEnvelope(iv, sealed.tag, sealed.ciphertext);
    }
  }

  /** decryptString(encryptString(p, k, iv), k) == p, whatever the IV. */
  lemma RoundTrip(P: Primitives, plaintext: string, key: string, iv: Bytes)
    requires Sound(P) && |iv| == IV_LENGTH && |KeyBytes(P, key)| == KEY_LENGTH
    ensures EncryptString(P, plaintext, key, iv).Success?
    ensures DecryptString(P, EncryptString(P, plaintext, key, iv).value, key) == Success(plaintext)
  {
    EnvelopeLayout(P, plaintext, key, iv);
    var k := KeyBytes(P, key);
    var m := P.utf8Encode(plaintext);
    var sealed := P.seal(k, iv, m);
    assert P.open(k, iv, sealed.tag, sealed.ciphertext) == Some(m);
  }

  /** encryptObject and decryptObject round-trip a token record. */
  lemma ObjectRoundTrip(P: Primitives, r: TokenRecord, key: string, iv: Bytes)
    requires Sound(P) && |iv| == IV_LENGTH && |KeyBytes(P, key)| == KEY_LENGTH
    ensures EncryptObject(P, r, key, iv).Success?
    ensures DecryptObject(P, EncryptObject(P, r, key, iv).value, key) == Success(r)
  {
    RoundTrip(P, P.stringify(r), key, iv);
  }

  /**
   * Authenticity: decryption yields a plaintext only when the key is a 32-byte
   * key and the decoded envelope is exactly IV ‖ seal(key, IV, m) for bytes m
   * that decode to that plaintext. A wrong key or altered tag or ciphertext is
   * accepted only if the altered bytes are themselves such a sealing.
   */
  lemma Authentic(P: Primitives, encrypted: string, key: string)
    requires Sound(P)
    ensures DecryptString(P, encrypted, key).Success? ==>
      var b := P.base64Decode(encrypted);
      var k := KeyBytes(P, key);
      && |k| == KEY_LENGTH
      && |b| >= HEADER_LENGTH
      && exists m :: P.utf8Decode(m) == DecryptString(P, encrypted, key).value
                  && b == Envelope(b[..IV_LENGTH], P.seal(k, b[..IV_LENGTH], m).tag, P.seal(k, b[..IV_LENGTH], m).ciphertext)
  {
    var b := P.base64Decode(encrypted);
    var k := KeyBytes(P, key);
    var parts := Split(b);
    if DecryptString(P, encrypted, key).Success? {
      var m := P.open(k, parts.iv, parts.tag, parts.ciphertext).value;
      assert P.seal(k, parts.iv, m) == Sealed(parts.tag, parts.ciphertext);
      assert |b| >= HEADER_LENGTH;
      assert parts.iv == b[..IV_LENGTH];
    }
  }

  /**
   * Which check refuses an envelope: an empty one fails on its IV whatever the
   * key, one with fewer than four tag bytes on the tag, and a plaintext comes
   * only out of a 32-byte key. decryptObject passes these errors on, and
   * refuses a plaintext that is not a record's JSON as malformed.
   */
  lemma DecryptionOrder(P: Primitives, encrypted: string, key: string)
    ensures |P.base64Decode(encrypted)| == 0 ==> DecryptString(P, encrypted, key) == Failure(InvalidIvLength)
    ensures 0 < |P.base64Decode(encrypted)| < IV_LENGTH + 4 && |KeyBytes(P, key)| == KEY_LENGTH ==>
      DecryptString(P, encrypted, key) == Failure(InvalidTagLength)
    ensures DecryptString(P, encrypted, key).Success? ==> |KeyBytes(P, key)| == KEY_LENGTH
    ensures DecryptString(P, encrypted, key).Failure? ==>
      DecryptObject(P, encrypted, key) == Failure(DecryptString(P, encrypted, key).error)
    ensures DecryptString(P, encrypted, key).Success? && P.parse(DecryptString(P, encrypted, key).value).None? ==>
      DecryptObject(P, encrypted, key) == Failure(MalformedJson)
    ensures DecryptObject(P, encrypted, key).Success? ==>
      P.parse(DecryptString(P, encrypted, key).value) == Some(DecryptObject(P, encrypted, key).value)
  {
  }

  /**
   * A key that does not hex-decode to 32 bytes is refused on both sides; only
   * an empty envelope is refused first, for its IV.
   */
  lemma UnusableKey(P: Primitives, plaintext: string, encrypted: string, key: string, iv: Bytes)
    requires |iv| == IV_LENGTH && |KeyBytes(P, key)| != KEY_LENGTH
    ensures EncryptString(P, plaintext, key, iv) == Failure(InvalidKeyLength)
    ensures |P.base64Decode(encrypted)| > 0 ==>
      DecryptString(P, encrypted, key) == Failure(InvalidKeyLength) && DecryptObject(P, encrypted, key) == Failure(InvalidKeyLength)
    ensures |P.base64Decode(encrypted)| == 0 ==> DecryptObject(P, encrypted, key) == Failure(InvalidIvLength)
  {
  }

  /** An envelope shorter than IV and tag never yields a plaintext. */
  lemma ShortEnvelopeRejected(P: Primitives, encrypted: string, key: string)
    requires Sound(P) && |P.base64Decode(encrypted)| < HEADER_LENGTH
    ensures DecryptString(P, encrypted, key).Failure?
  {
    Authentic(P, encrypted, key);
  }
}
