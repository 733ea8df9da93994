/**
 * The refresh runner: the scheduled sweep over every stored id, and the
 * manual `/refresh/:id` endpoint.
 */
module Runner {
  import opened Wrappers
  import opened Tokens
  import opened Primitives
  import opened Crypto
  import opened Storage
  import opened Refresh
  import opened Http

  /** What a sweep leaves in its log: the listing error, or each id tried and its outcome. */
  datatype SweepReport =
    | ListingFailed(error: Error)
    | Swept(attempted: seq<string>, outcomes: seq<Outcome<Error>>)

  /** What getTokens returns for an id after its refresh: the refreshed record, or what it returned before. */
  function AfterRefresh(before: Result<Option<TokenRecord>, Error>, result: Result<TokenRecord, Error>): Result<Option<TokenRecord>, Error> {
    if result.Success? then Success(Some(result.value)) else before
  }

  /** What getTokens returns for each of `ids`, in order. */
  ghost function ReadAll(store: TokenStore, ids: seq<string>): (rs: seq<Result<Option<TokenRecord>, Error>>)
    reads store
    ensures |rs| == |ids| && forall j :: 0 <= j < |ids| ==> rs[j] == store.Get(ids[j])
  {
    seq(|ids|, j requires 0 <= j < |ids| reads store => store.Get(ids[j]))
  }

  /** The result each refresh of a sweep over `ids` reaches, given what each read returns. */
  ghost function PlanAll(pre: seq<Result<Option<TokenRecord>, Error>>, ids: seq<string>, creds: Credentials,
                         providers: nat -> (TokenRequest -> Exchange), clock: nat -> int,
                         backend: Backend, online: bool, answers: nat -> bool): (ds: seq<Result<TokenRecord, Error>>)
    requires |pre| == |ids|
    ensures |ds| == |ids| && forall j :: 0 <= j < |ids| ==>
      ds[j] == Completed(Decide(pre[j], ids[j], creds, providers(j), clock(j)), DatabaseRefuses(backend, online, answers(j)))
  {
    seq(|ids|, j requires 0 <= j < |ids| =>
      Completed(Decide(pre[j], ids[j], creds, providers(j), clock(j)), DatabaseRefuses(backend, online, answers(j))))
  }

  /** One iteration of the sweep: the refresh inside its try/catch, whose outcome is only logged. */
  method TryRefresh(store: TokenStore, id: string, creds: Credentials,
                    provider: TokenRequest -> Exchange, now: int, iv: Bytes, answered: bool)
    returns (res: Outcome<Error>)
    requires store.Valid() && |iv| == IV_LENGTH
    modifies store
    ensures store.Valid()
    ensures var f := Completed(Decide(old(store.Get(id)), id, creds, provider, now),
                               DatabaseRefuses(store.backend, old(store.online), answered));
      res == ToOutcome(f) && store.Get(id) == AfterRefresh(old(store.Get(id)), f)
    ensures forall other :: other != id ==> store.Get(other) == old(store.Get(other))
    ensures store.readable == old(store.readable) && store.online == old(store.online)
    ensures store.entries.Keys == old(store.entries.Keys) && store.order == old(store.order)
  {
    var sent;
    res, sent := RefreshTokenById(store, id, creds, provider, now, iv, answered);
  }

  /** The body of the sweep's loop: the refresh of `ids[i]`, with the ids before it already refreshed. */
  method SweepStep(store: TokenStore, ids: seq<string>, i: nat, creds: Credentials,
                   provider: TokenRequest -> Exchange, now: int, iv: Bytes, answered: bool,
                   ghost pre: seq<Result<Option<TokenRecord>, Error>>, ghost plans: seq<Result<TokenRecord, Error>>)
    returns (res: Outcome<Error>)
    requires store.Valid() && NoDuplicates(ids) && |iv| == IV_LENGTH
    requires i < |ids| == |pre| == |plans|
    requires plans[i] == Completed(Decide(pre[i], ids[i], creds, provider, now), DatabaseRefuses(store.backend, store.online, answered))
    requires forall j :: 0 <= j < |ids| ==> store.Get(ids[j]) == if j < i then AfterRefresh(pre[j], plans[j]) else pre[j]
    modifies store
    ensures store.Valid()
    ensures res == ToOutcome(plans[i])
    ensures forall j :: 0 <= j < |ids| ==> store.Get(ids[j]) == if j < i + 1 then AfterRefresh(pre[j], plans[j]) else pre[j]
    ensures store.readable == old(store.readable) && store.online == old(store.online)
    ensures store.entries.Keys == old(store.entries.Keys) && store.order == old(store.order)
  {
    assert store.Get(ids[i]) == pre[i];
    res := TryRefresh(store, ids[i], creds, provider, now, iv, answered);
    forall j | 0 <= j < |ids| && j != i
      ensures store.Get(ids[j]) == old(store.Get(ids[j]))
    {
      assert ids[j] != ids[i];
    }
  }

  /** The loop of the sweep: each id of a duplicate-free listing refreshed once, in order. */
  method RefreshEach(store: TokenStore, ids: seq<string>, creds: Credentials,
                     providers: nat -> (TokenRequest -> Exchange), clock: nat -> int, ivs: nat -> Bytes,
                     answers: nat -> bool)
    returns (outcomes: seq<Outcome<Error>>)
    requires store.Valid() && NoDuplicates(ids)
    requires forall i :: |ivs(i)| == IV_LENGTH
    modifies store
    ensures store.Valid()
    ensures |outcomes| == |ids|
    ensures forall i :: 0 <= i < |ids| ==>
      var f := Completed(Decide(old(store.Get(ids[i])), ids[i], creds, providers(i), clock(i)),
                         DatabaseRefuses(store.backend, old(store.online), answers(i)));
      outcomes[i] == ToOutcome(f) && store.Get(ids[i]) == AfterRefresh(old(store.Get(ids[i])), f)
    ensures store.readable == old(store.readable) && store.online == old(store.online)
    ensures store.entries.Keys == old(store.entries.Keys) && store.order == old(store.order)
  {
    ghost var pre := ReadAll(store, ids);
    ghost var plans := PlanAll(pre, ids, creds, providers, clock, store.backend, store.online, answers);
    outcomes := [];
    var i := 0;
    while i < |ids|
      invariant 0 <= i <= |ids|
      invariant store.Valid()
      invariant |outcomes| == i
      invariant forall j :: 0 <= j < i ==> outcomes[j] == ToOutcome(plans[j])
      // The ids before `i` have been refreshed, the rest are untouched.
      invariant forall j :: 0 <= j < |ids| ==> store.Get(ids[j]) == if j < i then AfterRefresh(pre[j], plans[j]) else pre[j]
      invariant store.readable == old(store.readable) && store.online == old(store.online)
      invariant store.entries.Keys == old(store.entries.Keys) && store.order == old(store.order)
    {
      var res := SweepStep(store, ids, i, creds, providers(i), clock(i), ivs(i), answers(i), pre, plans);
      outcomes := outcomes + [res];
      i := i + 1;
    }
  }

  /**
   * The cron callback body. The i-th refresh of the sweep sees the provider
   * `providers(i)`, the clock reading `clock(i)` and the IV `ivs(i)`, and its
   * write is answered by the database exactly when `answers(i)`. No error
   * escapes: a failing listing stops the sweep before any refresh, a failing
   * refresh is recorded and the sweep goes on with the next id.
   */
  method ScheduledRefresh(store: TokenStore, creds: Credentials, providers: nat -> (TokenRequest -> Exchange),
                          clock: nat -> int, ivs: nat -> Bytes, answers: nat -> bool)
    returns (report: SweepReport)
    requires store.Valid()
    requires forall i :: |ivs(i)| == IV_LENGTH
    modifies store
    ensures store.Valid()
    ensures old(store.ListIds()).Failure? ==>
      report == ListingFailed(old(store.ListIds()).error) && store.Unmodified()
    ensures old(store.ListIds()).Success? ==>
      report.Swept? && report.attempted == old(store.ListIds()).value && |report.outcomes| == |report.attempted|
    ensures report.Swept? ==> forall i :: 0 <= i < |report.attempted| ==>
      var f := Completed(Decide(old(store.Get(report.attempted[i])), report.attempted[i], creds, providers(i), clock(i)),
                         DatabaseRefuses(store.backend, old(store.online), answers(i)));
      report.outcomes[i] == ToOutcome(f) && store.Get(report.attempted[i]) == AfterRefresh(old(store.Get(report.attempted[i])), f)
    ensures report.Swept? ==> forall x :: x !in report.attempted ==> store.Get(x) == old(store.Get(x))
  {
    var listing := store.ListIds();
    if listing.Failure? {
      return ListingFailed(listing.error);
    }
    var ids := listing.value;
    UnlistedRead(store, ids);
    var outcomes := RefreshEach(store, ids, creds, providers, clock, ivs, answers);
    UnlistedRead(store, ids);
    report := Swept(ids, outcomes);
  }

  /** The `/refresh/:id` handler: the refresh's effect, reported as 200 or as 500 with the error's message. */
  method ManualRefresh(store: TokenStore, id: string, creds: Credentials,
                       provider: TokenRequest -> Exchange, now: int, iv: Bytes, answered: bool)
    returns (reply: Reply)
    requires store.Valid() && |iv| == IV_LENGTH
    modifies store
    ensures store.Valid()
    ensures var f := Completed(Decide(old(store.Get(id)), id, creds, provider, now),
                               DatabaseRefuses(store.backend, old(store.online), answered));
      && reply == RefreshReply(id, ToOutcome(f))
      && store.Get(id) == AfterRefresh(old(store.Get(id)), f)
      && (f.Failure? ==> store.Unmodified())
    ensures forall other :: other != id ==> store.Get(other) == old(store.Get(other))
  {
    var res, _ := RefreshTokenById(store, id, creds, provider, now, iv, answered);
    reply := RefreshReply(id, res);
  }
}
