/**
 * The token record persisted under an opaque id, and the errors the token
 * lifecycle can raise.
 */
module Tokens {
  import opened Wrappers

  /**
   * The record the authorization-code callback builds (server.js:91-98).
   * `refreshToken` is None when the provider sent none (stored as JSON null);
   * `expiresAt` is None when the lifetime was missing, because `now + NaN`
   * serialises as null; `scope` and `tokenType` are None when the provider
   * omitted them (undefined fields vanish from the JSON).
   */
  datatype TokenRecord = TokenRecord(
    accessToken: string,
    refreshToken: Option<string>,
    expiresAt: Option<int>,
    scope: Option<string>,
    tokenType: Option<string>,
    createdAt: string)

  /** JavaScript truthiness of a string-or-absent value: absent and "" are falsy. */
  predicate Truthy(s: Option<string>) {
    s.Some? && s.value != ""
  }

  datatype Error =
    | InvalidKeyLength        // createCipheriv/createDecipheriv reject a key that is not 32 bytes
    | InvalidIvLength         // createDecipheriv rejects an empty IV
    | InvalidTagLength        // setAuthTag rejects a tag of unsupported length
    | Unauthenticated         // decipher.final: the GCM tag does not verify
    | MalformedJson           // JSON.parse throws
    | StorageUnavailable      // a relational/ORM query or connection fails
    | TokenNotFound(id: string)
    | NoRefreshToken(id: string)
    | RefreshRejected(detail: string)
    | ExchangeFailed(reason: string)  // fetch or response.json() rejects

  /** The `error.message` a caller sees. Library errors get a fixed description. */
  function Message(e: Error): string {
    match e
    case InvalidKeyLength => "Invalid key length"
    case InvalidIvLength => "Invalid initialization vector"
    case InvalidTagLength => "Invalid authentication tag length"
    case Unauthenticated => "Unsupported state or unable to authenticate data"
    case MalformedJson => "Unexpected token in JSON"
    case StorageUnavailable => "Connection terminated unexpectedly"
    case TokenNotFound(id) => "Token not found: " + id
    case NoRefreshToken(id) => "No refresh token available for " + id
    case RefreshRejected(detail) => "Failed to refresh token: " + detail
    case ExchangeFailed(reason) => reason
  }
}
