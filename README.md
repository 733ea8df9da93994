# OAuth token lifecycle: a Dafny model

This project models the token lifecycle of the spoton-maps server:

- **Envelope codec.** Token records are sealed with AES-256-GCM and stored as base64(IV ‖ tag ‖ ciphertext).
- **Token store.** A keyed store with a JSON-file, a relational and an ORM backend, plus the case where no backend is configured.
- **Refresher.** It exchanges a record's refresh token at the provider and writes back the new access token and expiry.
- **Refresh runner.** A cron sweep over every stored id, and a manual `/refresh/:id` endpoint.
- **Cloud Run worker gate.** It checks a shared secret, then an id, then runs one refresh.
- **Docs script.** It rewrites or inserts a `<!-- GENERATED_AT:... -->` marker in the docs README.

The library primitives are parameters, not models of the libraries:

- AES-GCM seal and open;
- base64, hex and UTF-8;
- `JSON.stringify`/`JSON.parse` of a token record.

They are the fields of a `Primitives.Primitives` value. Every property about the codec or the store assumes the laws in `Primitives.Sound`:

- each decoder inverts its encoder;
- non-empty bytes have a non-empty base64 encoding;
- every record's JSON is non-empty;
- the tag has 16 bytes;
- opening inverts sealing;
- opening accepts only what sealing produced (an idealised authenticated cipher).

`Primitives.Reference` is a toy instance proved `Sound`, so the hypotheses are consistent.

Other inputs are parameters as well:

- the random IV of each encryption;
- the clock (`Date.now()`);
- the provider's token endpoint, as a function from request to answer;
- the state of the file or database, and whether the database answers each write.

The store is a class, `Storage.TokenStore`. Its fields are:

- whether the data file is readable;
- whether the database answers;
- the map from id to blob;
- the listing order.

Reads are functions of that state (`Get`, `ListIds`). Writes are methods whose postconditions give the whole new state (`SaveTokens`, `UpdateTokens`). The refresh, the sweep and the manual endpoint are methods over that store. The worker's endpoint, `Worker.HandleRefreshRequest`, is a pure function that takes the refresh's outcome as a parameter.

Modules, in dependency order: `Wrappers`, `Tokens`, `Primitives`, `Crypto`, `Storage`, `Refresh`, `Http`, `Runner`, `Text`, `Worker`, `Docs`.

Where the system's specification and its code disagree, the model follows the code:

- The stored record has no `id` field. The id exists only as the key (server.js:91-98).
- A successful refresh does not guarantee a *different* access token, nor an expiry later than the *previous* one. It stores whatever the provider returned, and the expiry is `now + expires_in * 1000`. The model proves the new expiry is later than *now* when the lifetime is positive (`Refresh.ExpiryIsLater`).
- A refresh rewrites the record through `saveTokens`, which for the file backend rewrites the whole document. That is a read-modify-write, not an atomic update.

## Model

| member | source | states |
|---|---|---|
| Tokens.TokenRecord | server.js:91-98 | The stored record: access token, optional refresh token, expiry in epoch milliseconds, scope and token type, and creation time; it has no id field, since the id is only the key |
| Crypto.EncryptString | lib/crypto.js:13-24 | Encryption succeeds exactly for a key that hex-decodes to 32 bytes, and its only error is the key-length error |
| Crypto.EncryptObject | lib/crypto.js:55-57 | Encrypting a record succeeds exactly for a 32-byte key, and fails only on the key |
| Crypto.DecryptionOrder | lib/crypto.js:32-68 | decryptString refuses an empty envelope for its IV whatever the key, under a 32-byte key an envelope with fewer than four tag bytes for its tag, and yields a plaintext only under a 32-byte key; decryptObject passes those errors on and refuses a plaintext that does not parse as a record |
| Crypto.Split | lib/crypto.js:34-38 | Slicing the decoded envelope at 12 and 28: on 28 or more bytes, a 12-byte IV and a 16-byte tag whose concatenation with the rest is the input; on fewer, a short tag and no ciphertext; an empty IV exactly for empty input |
| Crypto.SplitEnvelope | lib/crypto.js:22-38 | Splitting IV ‖ tag ‖ ciphertext with a 12-byte IV and a 16-byte tag recovers exactly the three parts |
| Crypto.EnvelopeLayout | lib/crypto.js:13-24 | Encryption succeeds iff the key hex-decodes to 32 bytes; the decoded envelope is then IV, then the 16-byte tag, then the ciphertext, 28 + ciphertext bytes long |
| Crypto.RoundTrip | lib/crypto.js:13-47 | decryptString(encryptString(p, key, iv), key) == p for every plaintext, usable key and IV |
| Crypto.ObjectRoundTrip | lib/crypto.js:55-68 | decryptObject(encryptObject(r)) == r for every token record |
| Crypto.Authentic | lib/crypto.js:32-47 | A successful decryption implies a 32-byte key, an envelope of at least 28 bytes, and an envelope that is exactly IV ‖ seal(key, IV, m) for some m that decodes to the returned plaintext |
| Crypto.UnusableKey | lib/crypto.js:14-40 | A key that does not decode to 32 bytes makes encryptString fail with the key-length error, and decryptString and decryptObject too on any non-empty envelope; an empty envelope fails on its IV first |
| Crypto.ShortEnvelopeRejected | lib/crypto.js:34-44 | Under the idealised full-tag cipher, an envelope shorter than IV plus tag never decrypts |
| Storage.PayloadRoundTrip | lib/storage.js:29-40 | Without a key, or with a usable key, every record is written as a non-empty blob that decryptPayload turns back into the record |
| Storage.EncryptPayload | lib/storage.js:29-32 | encryptPayload fails iff a key is configured that does not decode to 32 bytes, and then with the key-length error |
| Storage.ReadableImpliesUsableKey | lib/storage.js:37-40 | decryptPayload: a blob that decrypts under the configured key proves that key can also encrypt; without a key, malformed JSON is the only error |
| Storage.GetSpec | lib/storage.js:81-107 | getTokens: the file backend never throws; no backend reads null; an offline database throws; a missing id is null; a record is only what the stored blob decrypts to; the file backend turns a decrypt failure into null; the database backends propagate it |
| Storage.TokenStore.ListIds | lib/storage.js:119-139 | Fails exactly when a database backend is unreachable; otherwise lists each stored id once and only stored ids; [] with no backend or an unreadable file |
| Storage.TokenStore.SaveTokens | lib/storage.js:45-76 | No-op with no backend; nothing written on an unusable key, checked first, or when the database does not answer the write; otherwise one blob written under the id (the file backend starts from {} when the file is unreadable), the id reads back as the record, is listed, and every other id reads as before |
| Storage.TokenStore.Put | lib/storage.js:48-75 | The write itself: the file branch rewrites the whole document with the id set, the database branches upsert one row; every other id reads as before |
| Storage.TokenStore.UpdateTokens | lib/storage.js:112-114 | Exactly the promise of saveTokens |
| Storage.UnlistedRead | lib/storage.js:119-139 | Every id that a successful listIds does not return reads as null |
| Storage.SaveTwice | lib/storage.js:52-61 | Saving one id twice replaces the blob entirely: the document holds the second record's blob under the id, and the id reads back as the second record |
| Refresh.Refreshed | lib/refresh.js:40-44 | The written record is the stored one with only the access token and the expiry replaced |
| Refresh.ProviderRefreshTokenIgnored | lib/refresh.js:40-44 | A refresh token in the provider's answer has no effect on what is written |
| Refresh.ExpiryIsLater | lib/refresh.js:43 | With a positive lifetime the new expiry is strictly later than the clock reading |
| Refresh.DecideRequest | lib/refresh.js:12-31 | The provider is called iff a record was found with a truthy refresh token, with that token and grant_type refresh_token; otherwise the error is the read's, "not found", or "no refresh token" |
| Refresh.DecideResult | lib/refresh.js:33-44 | The refresh succeeds iff the provider answered with a truthy access token, giving the refreshed record; otherwise the provider's error or "Unknown error", or the transport failure |
| Refresh.Decide | lib/refresh.js:11-44 | A record comes only out of an answer of the provider, and carries that answer's access token |
| Refresh.Completed | lib/refresh.js:40-46 | The refresh's result: the decision's, except that a refreshed record whose write the database refuses ends in the storage error |
| Refresh.RefreshTokenById | lib/refresh.js:11-48 | Sends the decided request, if any; if the decision fails or the database refuses the write, the store is unchanged; otherwise the refreshed record is written under the id and reads back; every other id reads as before |
| Runner.TryRefresh | refresh-runner.js:22-27 | One guarded refresh: its outcome is the refresh's result, the id reads as the refreshed record or as before, other ids and the listing are unchanged |
| Runner.RefreshEach | refresh-runner.js:21-28 | Over a duplicate-free listing, the i-th id is refreshed with the i-th provider, clock, IV and database answer, each outcome is recorded, and each id ends as its own refresh left it, independent of the others |
| Runner.ScheduledRefresh | refresh-runner.js:14-34 | A failing listing stops the sweep with no write; otherwise every listed id is attempted exactly once in listing order, a failing refresh does not stop the sweep, and unlisted ids read as before |
| Runner.ManualRefresh | refresh-runner.js:41-50 | The endpoint replies 200 with "Token id refreshed" or 500 with the error's message, with the refresh's effect on the store |
| Http.RefreshReply | refresh-runner.js:45-48 | Status 200 iff the refresh completed, with the success message; otherwise 500 with the error's message |
| Text.IndexOf | workers/refresh-worker.js:23 | Finds a position iff the pattern occurs, and then it is the leftmost occurrence |
| Text.ReplaceFirst | workers/refresh-worker.js:23 | String replace with a string pattern: unchanged when the pattern does not occur, otherwise exactly the leftmost occurrence is replaced |
| Text.ReplacePrefix | workers/refresh-worker.js:23 | A string that begins with the pattern loses exactly that prefix |
| Worker.Authorized | workers/refresh-worker.js:22-27 | The check passes whenever the secret or the header is unset or empty; when both are set, it passes exactly when the header minus its first "Bearer " is the secret |
| Worker.HandleRefreshRequest | workers/refresh-worker.js:16-39 | 403 iff the secret and the header are both truthy and the header minus its first "Bearer " differs from the secret; 400 iff authorized with a falsy id; the refresh runs exactly once, on the id, iff both checks pass, and its outcome decides 200 or 500 |
| Worker.AuthBeforeId | workers/refresh-worker.js:22-31 | An unauthorized request is 403 and runs no refresh, whatever its id |
| Worker.CheckSkipped | workers/refresh-worker.js:22 | With no secret or no header the check passes and a request with an id reaches the refresh |
| Worker.BearerAccepted | workers/refresh-worker.js:23-24 | "Bearer " followed by the secret is accepted |
| Worker.BearerRemovedAnywhere | workers/refresh-worker.js:23 | The first "Bearer " is removed wherever it occurs: for any x without a 'B' and any y, the header x + "Bearer " + y passes for the secret x + y |
| Worker.BareSecretAccepted | workers/refresh-worker.js:23-24 | The bare secret as header passes when it contains no "Bearer " |
| Docs.FindMarker | scripts/generate-docs.js:22-26 | The regex's first match: the leftmost marker start followed by the nearest end marker, across newlines; no match anywhere when it returns none |
| Docs.MarkerIsFound | scripts/generate-docs.js:22-26 | Text that contains a full marker always has a match |
| Docs.SplitLines | scripts/generate-docs.js:30 | Splitting yields at least one line, and no line holds a newline |
| Docs.JoinSplit | scripts/generate-docs.js:30-36 | Joining the split lines with "\n" gives the text with every "\r\n" turned into "\n" |
| Docs.FindInsertAt | scripts/generate-docs.js:31-34 | The slot just after the first heading among the first min(10, n) lines, or 0 when none of them is a heading |
| Docs.SlotUnique | scripts/generate-docs.js:31-34 | That slot is unique |
| Docs.JoinContains | scripts/generate-docs.js:35-36 | A line spliced into the lines appears in the joined text |
| Docs.UpdateDocsContent | scripts/generate-docs.js:19-37 | With a match, exactly that match is replaced by the new marker and everything else is kept; otherwise the marker becomes a new line at the heading slot, the other lines keep their order, and the lines are rejoined with "\n"; the output always contains the marker, and a later run takes the replace branch |

## Left out

- I/O failures other than an unreadable data file, an unreachable database or a database write that goes unanswered are not modelled: mkdir and writeFile errors, and a failing initBackend connect.
- Concurrency is not modelled. Interleaved sweeps and endpoint calls can race on the file backend's read-modify-write; the model runs one operation at a time.
- The cron schedule, the HTTP servers, `/health`, dotenv and the log lines are not modelled. The sweep body is modelled as the callback one tick runs.
- `initBackend` is not modelled beyond the backend choice and whether its database answers.
- The ORM's `tenantId: 'default-tenant'` column is not stored, since no read returns it.
- The order of ids from the file backend is insertion order. `Object.keys` would list integer-like keys first. For the database backends, the row order of a query without ORDER BY is modelled as insertion order.
- The file backend's document is a map from id to blob. A data file that parses but is not an object, or that holds non-string values, is not modelled. Ids are strings, and prototype keys such as `__proto__` are not treated specially.
- Crypto.Authentic: the idealised cipher accepts only full 16-byte tags. Node also verifies a truncated tag of 4, 8 or 12 to 15 bytes against a prefix of the real one; the model rejects those.
- Crypto.ShortEnvelopeRejected: holds only under the idealised full-tag cipher. Node can open a 16-, 20- or 24-to-27-byte envelope whose truncated tag matches, such as a real encryption of "" cut to 16 bytes; the model refuses every envelope under 28 bytes.
- Numbers are unbounded integers, not JavaScript doubles. `expiresAt` and `expires_in` are exact beyond 2^53, where JavaScript rounds them. `Primitives.Sound` assumes `JSON.parse(JSON.stringify(r))` returns `r` at every size. A non-integer or string `expires_in` cannot be expressed.
- Strings are sequences of characters that the UTF-8 primitives round-trip. JavaScript strings are UTF-16 and may hold lone surrogates, which UTF-8 encoding replaces, so such a string does not survive encryption unchanged.
- Library error messages are fixed placeholder strings. The application's own messages are exact.
- Docs.UpdateDocsContent: the replacement string is taken literally. JavaScript expands `$` patterns in it, so the timestamp is required to hold no `$`. That is always so for the ISO timestamp the script passes.
- Refresh.Refreshed: record fields beyond the six the callback writes are not carried through the spread. The client id and secret are plain strings; unset environment variables would send "undefined".
- Worker.HandleRefreshRequest: the id is the body's `id` field as a string or absent. Non-string JSON ids, and exceptions other than the refresh's, are not modelled.
- The random IV, `Date.now()`, `new Date().toISOString()` and the provider's answer are parameters.
- The docs script's file read and write, and `process.exit` on a read failure, are not modelled. Only the transform of the text is.
