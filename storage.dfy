/**
 * The token store: a keyed store of id → blob, where a blob is the record's
 * JSON, sealed into an envelope when an encryption key is configured. The
 * file backend keeps one JSON document and rewrites it whole on every save;
 * the relational and ORM backends keep one row per id and upsert it.
 */
module Storage {
  import opened Wrappers
  import opened Tokens
  import opened Primitives
  import opened Crypto

  /** The configured backend; any other configured name selects no backend. */
  datatype Backend = File | Postgres | Prisma | Unconfigured

  /** encryptPayload: plain JSON when no key is configured, an envelope otherwise. */
  function EncryptPayload(P: Primitives, key: string, r: TokenRecord, iv: Bytes): (b: Result<string, Error>)
    requires |iv| == IV_LENGTH
    // Writing fails exactly when a key is configured that AES-256 cannot use, and then on the key.
    ensures b.Failure? <==> !UsableKey(P, key)
    ensures b.Failure? ==> b.error == InvalidKeyLength
  {
    if key == "" then Success(P.stringify(r)) else EncryptObject(P, r, key, iv)
  }

  /** decryptPayload: the inverse choice. */
  function DecryptPayload(P: Primitives, key: string, blob: string): (r: Result<TokenRecord, Error>)
  {
    if key == "" then ParseRecord(P, blob) else DecryptObject(P, blob, key)
  }

  /** No key, or a key that hex-decodes to the 32 bytes AES-256 needs. */
  predicate UsableKey(P: Primitives, key: string) {
    key == "" || |KeyBytes(P, key)| == KEY_LENGTH
  }

  /** With a usable key every record is written as a non-empty blob that reads back as itself. */
  lemma PayloadRoundTrip(P: Primitives, key: string, r: TokenRecord, iv: Bytes)
    requires Sound(P) && |iv| == IV_LENGTH && UsableKey(P, key)
    ensures EncryptPayload(P, key, r, iv).Success?
    ensures EncryptPayload(P, key, r, iv).value != ""
    ensures DecryptPayload(P, key, EncryptPayload(P, key, r, iv).value) == Success(r)
  {
    if key != "" {
      ObjectRoundTrip(P, r, key, iv);
      EnvelopeLayout(P, P.stringify(r), key, iv);
      var b := P.base64Decode(EncryptPayload(P, key, r, iv).value);
      assert |b| > 0;
    } else {
      assert |P.stringify(r)| > 0;
    }
  }

  /**
   * Anything that reads back under a key can be written under that key; with
   * no key the blob is plain JSON, and JSON that is not a record is the only error.
   */
  lemma ReadableImpliesUsableKey(P: Primitives, key: string, blob: string)
    ensures DecryptPayload(P, key, blob).Success? ==> UsableKey(P, key)
    ensures key == "" && DecryptPayload(P, key, blob).Failure? ==> DecryptPayload(P, key, blob).error == MalformedJson
  {
    DecryptionOrder(P, blob, key);
  }

  /** A relational or ORM query fails when the database is offline or does not answer that query. */
  predicate DatabaseRefuses(backend: Backend, online: bool, answered: bool) {
    (backend == Postgres || backend == Prisma) && !(online && answered)
  }

  predicate NoDuplicates(s: seq<string>) {
    forall i, j :: 0 <= i < j < |s| ==> s[i] != s[j]
  }

  class TokenStore {
    const prims: Primitives
    const backend: Backend
    /** ENCRYPTION_KEY; "" means encryption is off. */
    const encryptionKey: string
    /** File backend: the data file exists and parses as a JSON object. */
    var readable: bool
    /** Relational and ORM backends: the connection and its queries succeed. */
    var online: bool
    /** The document (file backend) or the table (other backends): id → blob. */
    var entries: map<string, string>
    /** The order in which the ids come back when listed. */
    var order: seq<string>

    ghost predicate Valid()
      reads this
    {
      && Sound(prims)
      && NoDuplicates(order)
      && (forall id :: id in entries <==> id in order)
      && (!readable ==> entries == map[])
      && (backend != File ==> readable)
    }

    /** A store whose data file does not exist yet, or whose table is empty. */
    constructor (P: Primitives, backend: Backend, encryptionKey: string, online: bool)
      requires Sound(P)
      ensures Valid()
      ensures this.prims == P && this.backend == backend && this.encryptionKey == encryptionKey
      ensures this.online == online && entries == map[] && order == []
      ensures readable == (backend != File)
    {
      this.prims := P;
      this.backend := backend;
      this.encryptionKey := encryptionKey;
      this.online := online;
      this.readable := backend != File;
      this.entries := map[];
      this.order := [];
    }

    /** getTokens. */
    function Get(id: string): (g: Result<Option<TokenRecord>, Error>)
      reads this
    {
      match backend
      case File =>
        if readable && id in entries && entries[id] != "" then
          match DecryptPayload(prims, encryptionKey, entries[id])
          case Success(r) => Success(Some(r))
          case Failure(_) => Success(None)
        else Success(None)
      case Postgres | Prisma =>
        if !online then Failure(StorageUnavailable)
        else if id in entries then
          match DecryptPayload(prims, encryptionKey, entries[id])
          case Success(r) => Success(Some(r))
          case Failure(e) => Failure(e)
        else Success(None)
      case Unconfigured => Success(None)
    }

    /** listIds. */
    function ListIds(): (ids: Result<seq<string>, Error>)
      requires Valid()
      reads this
      ensures ids.Failure? <==> (backend == Postgres || backend == Prisma) && !online
      ensures ids.Success? ==> NoDuplicates(ids.value)
      ensures ids.Success? && backend != Unconfigured ==> forall id :: id in ids.value <==> id in entries
      ensures backend == Unconfigured || (backend == File && !readable) ==> ids == Success([])
    {
      match backend
      case File => Success(if readable then order else [])
      case Postgres | Prisma => if online then Success(order) else Failure(StorageUnavailable)
      case Unconfigured => Success([])
    }

    /** The state after the blob for `id` has been written, starting from an empty document if the file was unreadable. */
    twostate predicate Written(id: string, blob: string)
      reads this
    {
      && readable
      && online == old(online)
      && entries == (if old(readable) then old(entries) else map[])[id := blob]
      && order == (if old(readable) && id in old(entries) then old(order)
                   else (if old(readable) then old(order) else []) + [id])
    }

    twostate predicate Unmodified()
      reads this
    {
      readable == old(readable) && online == old(online) && entries == old(entries) && order == old(order)
    }

    /**
     * What a save does: no-op on an unconfigured backend; nothing written when
     * the payload cannot be encrypted or the database does not answer the
     * write; else one blob written under `id`.
     */
    twostate predicate SaveEffect(id: string, r: TokenRecord, iv: Bytes, answered: bool, new res: Outcome<Error>)
      requires |iv| == IV_LENGTH
      reads this
    {
      var blob := EncryptPayload(prims, encryptionKey, r, iv);
      if backend == Unconfigured then res == Pass && Unmodified()
      else if blob.Failure? then res == Fail(blob.error) && Unmodified()
      else if DatabaseRefuses(backend, old(online), answered) then res == Fail(StorageUnavailable) && Unmodified()
      else res == Pass && Written(id, blob.value)
    }

    /**
     * saveTokens, with the envelope's random IV as a parameter. `answered` says
     * whether the database answers this write's query; a connection that drops
     * after an earlier read makes it false.
     */
    method SaveTokens(id: string, r: TokenRecord, iv: Bytes, answered: bool) returns (res: Outcome<Error>)
      requires Valid() && |iv| == IV_LENGTH
      modifies this
      ensures Valid()
      ensures SaveEffect(id, r, iv, answered, res)
      ensures res.Pass? && backend != Unconfigured ==> Get(id) == Success(Some(r))
      ensures forall other :: other != id ==> Get(other) == old(Get(other))
      ensures res.Pass? && backend != Unconfigured ==> ListIds().Success? && id in ListIds().value
    {
      if backend == Unconfigured {
        return Pass;
      }
      // The payload is encrypted before the file or the database is touched.
      var blob := EncryptPayload(prims, encryptionKey, r, iv);
      if blob.Failure? {
        return Fail(blob.error);
      }
      if DatabaseRefuses(backend, online, answered) {
        return Fail(StorageUnavailable);
      }
      PayloadRoundTrip(prims, encryptionKey, r, iv);
      Put(id, blob.value);
      res := Pass;
    }

    /** The write itself: the file backend rewrites the whole document, the others upsert one row. */
    method Put(id: string, blob: string)
      requires Valid() && backend != Unconfigured && (backend == File || online)
      modifies this
      ensures Valid() && Written(id, blob)
      ensures forall other :: other != id ==> Get(other) == old(Get(other))
    {
      if backend == File {
        // Read the whole document; a missing or unparsable file reads as {}.
        var data: map<string, string> := map[];
        var keys: seq<string> := [];
        if readable {
          data, keys := entries, order;
        }
        if id !in data {
          keys := keys + [id];
        }
        data := data[id := blob];
        // Write the whole document back.
        readable, entries, order := true, data, keys;
      } else {
        // INSERT ... ON CONFLICT (id) DO UPDATE, or upsert.
        if id !in entries {
          order := order + [id];
        }
        entries := entries[id := blob];
      }
    }

    /** updateTokens delegates to saveTokens and promises exactly the same. */
    method UpdateTokens(id: string, r: TokenRecord, iv: Bytes, answered: bool) returns (res: Outcome<Error>)
      requires Valid() && |iv| == IV_LENGTH
      modifies this
      ensures Valid()
      ensures SaveEffect(id, r, iv, answered, res)
      ensures res.Pass? && backend != Unconfigured ==> Get(id) == Success(Some(r))
      ensures forall other :: other != id ==> Get(other) == old(Get(other))
      ensures res.Pass? && backend != Unconfigured ==> ListIds().Success? && id in ListIds().value
    {
      res := SaveTokens(id, r, iv, answered);
    }
  }

  /** What getTokens promises about the blob stored under `id`. */
  lemma GetSpec(store: TokenStore, id: string)
    // The file backend and an unconfigured backend never throw; the database backends throw while offline.
    ensures store.backend == File ==> store.Get(id).Success?
    ensures store.backend == Unconfigured ==> store.Get(id) == Success(None)
    ensures (store.backend == Postgres || store.backend == Prisma) && !store.online ==> store.Get(id) == Failure(StorageUnavailable)
    // A missing id is null, never an error, unless the database is unreachable.
    ensures id !in store.entries && (store.backend == File || store.online) ==> store.Get(id) == Success(None)
    // A record is only ever what the stored blob decrypts to.
    ensures store.Get(id).Success? && store.Get(id).value.Some? ==>
      id in store.entries && DecryptPayload(store.prims, store.encryptionKey, store.entries[id]) == Success(store.Get(id).value.value)
    // File backend: a failing decrypt reads as null.
    ensures store.backend == File && id in store.entries && DecryptPayload(store.prims, store.encryptionKey, store.entries[id]).Failure? ==>
      store.Get(id) == Success(None)
    // Relational and ORM backends: a failing decrypt propagates.
    ensures (store.backend == Postgres || store.backend == Prisma) && store.online && id in store.entries ==>
      store.Get(id).Failure? == DecryptPayload(store.prims, store.encryptionKey, store.entries[id]).Failure?
    ensures store.Get(id).Failure? && store.online ==> store.Get(id).error == DecryptPayload(store.prims, store.encryptionKey, store.entries[id]).error
  {
  }

  /** An id that listIds does not return reads as null. */
  lemma UnlistedRead(store: TokenStore, ids: seq<string>)
    requires store.Valid() && store.ListIds() == Success(ids)
    ensures forall x :: x !in ids ==> store.Get(x) == Success(None)
  {
    forall x | x !in ids
      ensures store.Get(x) == Success(None)
    {
      if store.backend != Unconfigured && (store.backend != File || store.readable) {
        assert x !in store.entries;
      }
    }
  }

  /** Writing a key twice leaves only the second value. */
  lemma OverwriteKey(m: map<string, string>, k: string, v1: string, v2: string)
    ensures m[k := v1][k := v2] == m[k := v2]
  {
  }

  /**
   * Saving the same id twice replaces the first blob entirely: the document
   * holds one entry under `id`, the second record's, and no trace of the first.
   */
  method SaveTwice(store: TokenStore, id: string, r1: TokenRecord, r2: TokenRecord, iv1: Bytes, iv2: Bytes)
    returns (res1: Outcome<Error>, res2: Outcome<Error>)
    requires store.Valid() && |iv1| == IV_LENGTH && |iv2| == IV_LENGTH
    requires store.backend != Unconfigured && (store.backend == File || store.online)
    requires UsableKey(store.prims, store.encryptionKey)
    modifies store
    ensures res1 == Pass && res2 == Pass
    ensures store.entries ==
      (if old(store.readable) then old(store.entries) else map[])[id := EncryptPayload(store.prims, store.encryptionKey, r2, iv2).value]
    ensures store.Get(id) == Success(Some(r2))
  {
    ghost var base := if store.readable then store.entries else map[];
    ghost var blob1 := EncryptPayload(store.prims, store.encryptionKey, r1, iv1).value;
    ghost var blob2 := EncryptPayload(store.prims, store.encryptionKey, r2, iv2).value;
    res1 := store.SaveTokens(id, r1, iv1, true);
    assert res1 == Pass && store.readable && store.entries == base[id := blob1];
    res2 := store.SaveTokens(id, r2, iv2, true);
    assert store.entries == base[id := blob1][id := blob2];
    // The second write replaces the first.
    OverwriteKey(base, id, blob1, blob2);
  }
}
