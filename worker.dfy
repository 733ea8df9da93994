/**
 * The Cloud Run worker's `POST /refresh` handler: a shared-secret check on
 * the Authorization header, then an id check, then one refresh.
 */
module Worker {
  import opened Wrappers
  import opened Tokens
  import opened Text
  import opened Http

  const BEARER: string := "Bearer "

  /** The reply, and the id the refresh was invoked with, if it was invoked. */
  datatype WorkerReply = WorkerReply(reply: Reply, invoked: Option<string>)

  /**
   * The header passes the check: the check is skipped when TASK_SECRET or
   * the header is unset or empty; otherwise the header with its first
   * "Bearer " removed must equal the secret.
   */
  function Authorized(taskSecret: Option<string>, authorization: Option<string>): (ok: bool)
    ensures !Truthy(taskSecret) || !Truthy(authorization) ==> ok
    ensures Truthy(taskSecret) && Truthy(authorization) ==>
      (ok <==> ReplaceFirst(authorization.value, BEARER, "") == taskSecret.value)
  {
    !(Truthy(taskSecret) && Truthy(authorization)) ||
    ReplaceFirst(authorization.value, BEARER, "") == taskSecret.value
  }

  /**
   * The handler, with the refresh's outcome for each id as a parameter.
   * `id` is the body's `id` field, `authorization` the header.
   */
  function HandleRefreshRequest(taskSecret: Option<string>, authorization: Option<string>, id: Option<string>,
                                refresh: string -> Outcome<Error>): (w: WorkerReply)
    // 403 exactly when both are set and the stripped header differs from the secret.
    ensures w.reply.status == 403 <==>
      Truthy(taskSecret) && Truthy(authorization) && ReplaceFirst(authorization.value, BEARER, "") != taskSecret.value
    ensures w.reply.status == 403 ==> w.reply.body == Problem("Unauthorized")
    // 400 exactly when the check passes but no id was sent.
    ensures w.reply.status == 400 <==> Authorized(taskSecret, authorization) && !Truthy(id)
    ensures w.reply.status == 400 ==> w.reply.body == Problem("Token ID required")
    // The refresh runs once, on the given id, exactly when both checks pass.
    ensures w.invoked.Some? <==> Authorized(taskSecret, authorization) && Truthy(id)
    ensures w.invoked.Some? ==> w.invoked == id && w.reply == RefreshReply(id.value, refresh(id.value))
  {
    if Truthy(taskSecret) && Truthy(authorization) && ReplaceFirst(authorization.value, BEARER, "") != taskSecret.value then
      WorkerReply(Reply(403, Problem("Unauthorized")), None)
    else if !Truthy(id) then
      WorkerReply(Reply(400, Problem("Token ID required")), None)
    else
      WorkerReply(RefreshReply(id.value, refresh(id.value)), id)
  }

  /** The 403 decision does not look at the id: an unauthorized request without an id is still 403. */
  lemma AuthBeforeId(taskSecret: Option<string>, authorization: Option<string>, id: Option<string>,
                     refresh: string -> Outcome<Error>)
    requires !Authorized(taskSecret, authorization)
    ensures HandleRefreshRequest(taskSecret, authorization, id, refresh).reply == Reply(403, Problem("Unauthorized"))
    ensures HandleRefreshRequest(taskSecret, authorization, id, refresh).invoked == None
  {
  }

  /** With no secret configured, or no header sent, any request with an id reaches the refresh. */
  lemma CheckSkipped(taskSecret: Option<string>, authorization: Option<string>, id: string,
                     refresh: string -> Outcome<Error>)
    requires !Truthy(taskSecret) || !Truthy(authorization)
    requires id != ""
    ensures HandleRefreshRequest(taskSecret, authorization, Some(id), refresh) ==
      WorkerReply(RefreshReply(id, refresh(id)), Some(id))
  {
  }

  /** The header "Bearer <secret>" is accepted. */
  lemma BearerAccepted(secret: string)
    requires secret != ""
    ensures Authorized(Some(secret), Some(BEARER + secret))
  {
    ReplacePrefix(BEARER, secret);
  }

  /**
   * The prefix is removed wherever it first occurs, not only at the start:
   * for any `x` with no 'B' and any `y`, the header x + "Bearer " + y is
   * accepted for the secret x + y (so "xBearer y" passes for "xy").
   */
  lemma BearerRemovedAnywhere(x: string, y: string)
    requires 'B' !in x
    ensures ReplaceFirst(x + BEARER + y, BEARER, "") == x + y
    ensures x + y != "" ==> Authorized(Some(x + y), Some(x + BEARER + y))
  {
    var s := x + BEARER + y;
    forall j: nat | j < |x|
      ensures !OccursAt(s, BEARER, j)
    {
      assert s[j] == x[j];
    }
    assert OccursAt(s, BEARER, |x|) by {
      assert s[|x|..|x| + |BEARER|] == BEARER;
    }
    assert s[..|x|] + "" + s[|x| + |BEARER|..] == x + y;
  }

  /** A header that is the bare secret passes as long as the secret holds no "Bearer ". */
  lemma BareSecretAccepted(secret: string)
    requires secret != "" && !Contains(secret, BEARER)
    ensures Authorized(Some(secret), Some(secret))
  {
  }
}
