/**
 * Refreshing one stored token (section 6 of RFC 6749): read the record, check
 * it can be refreshed, exchange its refresh token once at the provider's token
 * endpoint, and write back the record with the new access token and expiry.
 */
module Refresh {
  import opened Wrappers
  import opened Tokens
  import opened Primitives
  import opened Crypto
  import opened Storage

  const TOKEN_ENDPOINT := "https://oauth2.googleapis.com/token"
  const REFRESH_GRANT := "refresh_token"

  /** GOOGLE_CLIENT_ID and GOOGLE_CLIENT_SECRET. */
  datatype Credentials = Credentials(clientId: string, clientSecret: string)

  /** The form-encoded POST sent to the token endpoint. */
  datatype TokenRequest = TokenRequest(
    endpoint: string,
    clientId: string,
    clientSecret: string,
    refreshToken: string,
    grantType: string)

  /** The fields of the provider's JSON answer that the refresher reads. */
  datatype TokenResponse = TokenResponse(
    accessToken: Option<string>,
    expiresIn: Option<int>,
    refreshToken: Option<string>,
    error: Option<string>)

  /** The provider's answer, or the rejection of fetch or response.json(). */
  datatype Exchange = Answered(body: TokenResponse) | Unreachable(reason: string)

  function ExchangeRequest(creds: Credentials, refreshToken: string): TokenRequest {
    TokenRequest(TOKEN_ENDPOINT, creds.clientId, creds.clientSecret, refreshToken, REFRESH_GRANT)
  }

  /** `Date.now() + expires_in * 1000`; a missing lifetime gives NaN, stored as null. */
  function NewExpiry(now: int, expiresIn: Option<int>): Option<int> {
    match expiresIn
    case None => None
    case Some(seconds) => Some(now + seconds * 1000)
  }

  /** The record written back: the old record with its access token and expiry replaced. */
  function Refreshed(rec: TokenRecord, body: TokenResponse, now: int): (r: TokenRecord)
    requires Truthy(body.accessToken)
    ensures r.accessToken == body.accessToken.value
    ensures r.expiresAt == NewExpiry(now, body.expiresIn)
    // The refresh token, scope, token type and creation time are kept.
    ensures r.refreshToken == rec.refreshToken && r.scope == rec.scope
    ensures r.tokenType == rec.tokenType && r.createdAt == rec.createdAt
  {
    rec.(accessToken := body.accessToken.value, expiresAt := NewExpiry(now, body.expiresIn))
  }

  /** `data.error || 'Unknown error'`. */
  function RejectionDetail(body: TokenResponse): string {
    if Truthy(body.error) then body.error.value else "Unknown error"
  }

  /** The request sent, if any, and the record to write or the error to throw. */
  datatype Decision = Decision(request: Option<TokenRequest>, result: Result<TokenRecord, Error>)

  /** refreshTokenById as a function of what getTokens returned, the provider and the clock. */
  function Decide(found: Result<Option<TokenRecord>, Error>, id: string, creds: Credentials,
                  provider: TokenRequest -> Exchange, now: int): (d: Decision)
    // A record is produced only from an answer of the provider, and carries that answer's access token.
    ensures d.result.Success? ==> d.request.Some? && provider(d.request.value).Answered?
    ensures d.result.Success? ==>
      Truthy(provider(d.request.value).body.accessToken) &&
      d.result.value.accessToken == provider(d.request.value).body.accessToken.value
  {
    match found
    case Failure(e) => Decision(None, Failure(e))
    case Success(None) => Decision(None, Failure(TokenNotFound(id)))
    case Success(Some(rec)) =>
      if !Truthy(rec.refreshToken) then Decision(None, Failure(NoRefreshToken(id)))
      else
        var request := ExchangeRequest(creds, rec.refreshToken.value);
        match provider(request)
        case Unreachable(reason) => Decision(Some(request), Failure(ExchangeFailed(reason)))
        case Answered(body) =>
          if !Truthy(body.accessToken) then Decision(Some(request), Failure(RefreshRejected(RejectionDetail(body))))
          else Decision(Some(request), Success(Refreshed(rec, body, now)))
  }

  // ---------------------------------------------------------------------------
  // Properties of the decision

  /** A refresh token returned by the provider is ignored. */
  lemma ProviderRefreshTokenIgnored(rec: TokenRecord, b1: TokenResponse, b2: TokenResponse, now: int)
    requires Truthy(b1.accessToken) && b1.accessToken == b2.accessToken && b1.expiresIn == b2.expiresIn
    ensures Refreshed(rec, b1, now) == Refreshed(rec, b2, now)
  {
  }

  /** A positive lifetime puts the new expiry strictly after now. */
  lemma ExpiryIsLater(now: int, seconds: int)
    requires seconds > 0
    ensures NewExpiry(now, Some(seconds)).Some? && NewExpiry(now, Some(seconds)).value > now
  {
  }

  /**
   * The provider is called exactly when a record was found and has a truthy
   * refresh token, and the call sends that token with grant_type=refresh_token.
   * Otherwise the error is the unknown id, the missing refresh token, or what
   * the read threw.
   */
  lemma DecideRequest(found: Result<Option<TokenRecord>, Error>, id: string, creds: Credentials,
                      provider: TokenRequest -> Exchange, now: int)
    ensures var d := Decide(found, id, creds, provider, now);
      && (d.request.Some? <==> found.Success? && found.value.Some? && Truthy(found.value.value.refreshToken))
      && (d.request.Some? ==> d.request.value == ExchangeRequest(creds, found.value.value.refreshToken.value)
                              && d.request.value.grantType == "refresh_token")
      && (found.Failure? ==> d.result == Failure(found.error))
      && (found == Success(None) ==> d.result == Failure(TokenNotFound(id)))
      && (found.Success? && found.value.Some? && !Truthy(found.value.value.refreshToken) ==>
            d.result == Failure(NoRefreshToken(id)))
  {
  }

  /**
   * The refresh succeeds exactly when the provider answered with a truthy
   * access token, and then the result is the found record refreshed with that
   * answer; without an access token the error carries the provider's message.
   */
  lemma DecideResult(found: Result<Option<TokenRecord>, Error>, id: string, creds: Credentials,
                     provider: TokenRequest -> Exchange, now: int)
    ensures var d := Decide(found, id, creds, provider, now);
      && (d.result.Success? <==> d.request.Some? && provider(d.request.value).Answered?
                                 && Truthy(provider(d.request.value).body.accessToken))
      && (d.result.Success? ==> d.result.value == Refreshed(found.value.value, provider(d.request.value).body, now))
      && (d.request.Some? && provider(d.request.value).Answered? && !Truthy(provider(d.request.value).body.accessToken) ==>
            d.result == Failure(RefreshRejected(RejectionDetail(provider(d.request.value).body))))
      && (d.request.Some? && provider(d.request.value).Unreachable? ==>
            d.result == Failure(ExchangeFailed(provider(d.request.value).reason)))
  {
  }

  // ---------------------------------------------------------------------------
  // The stateful refresh

  /**
   * The refresh's final result: the decision, unless the refreshed record's
   * write is refused by the database, which throws instead.
   */
  function Completed(d: Decision, writeRefused: bool): (r: Result<TokenRecord, Error>)
    ensures r.Success? <==> d.result.Success? && !writeRefused
    ensures r.Success? ==> r.value == d.result.value
    ensures d.result.Failure? ==> r == d.result
    ensures d.result.Success? && writeRefused ==> r == Failure(StorageUnavailable)
  {
    if d.result.Success? && writeRefused then Failure(StorageUnavailable) else d.result
  }

  /**
   * refreshTokenById, with the provider's answer, `Date.now()` and the IV of
   * the written envelope as parameters; `answered` says whether the database
   * answers the write's query. On any error nothing is written; on success
   * exactly one write, to `id`, stores the refreshed record.
   */
  method RefreshTokenById(store: TokenStore, id: string, creds: Credentials,
                          provider: TokenRequest -> Exchange, now: int, iv: Bytes, answered: bool)
    returns (res: Outcome<Error>, sent: Option<TokenRequest>)
    requires store.Valid() && |iv| == IV_LENGTH
    modifies store
    ensures store.Valid()
    ensures var d := Decide(old(store.Get(id)), id, creds, provider, now);
      var f := Completed(d, DatabaseRefuses(store.backend, old(store.online), answered));
      && sent == d.request
      && res == ToOutcome(f)
      && (f.Failure? ==> store.Unmodified())
      && (f.Success? ==>
            && store.Written(id, EncryptPayload(store.prims, store.encryptionKey, f.value, iv).value)
            && store.Get(id) == Success(Some(f.value)))
    ensures forall other :: other != id ==> store.Get(other) == old(store.Get(other))
  {
    var found := store.Get(id);
    if found.Failure? {
      return Fail(found.error), None;
    }
    if found.value.None? {
      return Fail(TokenNotFound(id)), None;
    }
    var tokenData := found.value.value;
    if !Truthy(tokenData.refreshToken) {
      return Fail(NoRefreshToken(id)), None;
    }
    var request := ExchangeRequest(creds, tokenData.refreshToken.value);
    sent := Some(request);
    var response := provider(request);
    if response.Unreachable? {
      return Fail(ExchangeFailed(response.reason)), sent;
    }
    var data := response.body;
    if !Truthy(data.accessToken) {
      return Fail(RefreshRejected(RejectionDetail(data))), sent;
    }
    var updated := Refreshed(tokenData, data, now);
    // The record was read back, so its key is usable: the write fails only if the database refuses it.
    ReadableImpliesUsableKey(store.prims, store.encryptionKey, store.entries[id]);
    res := store.UpdateTokens(id, updated, iv, answered);
  }
}
