/** The Engine API client: which `engine_newPayload` version is called, and how one call retries. */
module Engine {
  import opened Payload
  import opened Records
  import opened Wrappers

  // ---------- choosing the newPayload version ----------

  /** The parameters of `engine_newPayloadV1` to `V4`. */
  datatype Params =
    | V1(payload: Object)
    | V2(payload: Object)
    | V3(payload: Object, versionedHashes: seq<string>, parentBeaconBlockRoot: string)
    | V4(payload: Object, versionedHashes: seq<string>, parentBeaconBlockRoot: string, executionRequests: seq<string>)

  function VersionForFork(fork: Option<string>): Option<int> {
    match fork
    case Some("paris") => Some(1)
    case Some("shanghai") => Some(2)
    case Some("cancun") => Some(3)
    case Some("prague") => Some(4)
    case _ => None
  }

  /** Python's `a or b` on optional integers: zero falls through like a missing value. */
  function Or(a: Option<int>, b: Option<int>): Option<int> {
    if a.Some? && a.value != 0 then a else b
  }

  function ResolvedVersion(forced: Option<int>, r: PayloadRecord): Option<int> {
    Or(forced, Or(r.newpayloadVersion, VersionForFork(r.fork)))
  }

  function PickedVersion(version: Option<int>, r: PayloadRecord): int {
    if version.Some? then version.value
    else if r.executionRequests.Some? then 4
    else if BlobGasUsed in r.payload || ExcessBlobGas in r.payload then 3
    else if Withdrawals in r.payload then 2
    else 1
  }

  function OrEmpty(s: Option<seq<string>>): seq<string> {
    if s.Some? then s.value else []
  }

  /** The call the driver makes for a record; an unsupported version raises before anything is sent. */
  function NewPayloadParams(forced: Option<int>, r: PayloadRecord): Result<Params> {
    match PickedVersion(ResolvedVersion(forced, r), r)
    case 1 => Ok(V1(r.payload))
    case 2 => Ok(V2(r.payload))
    case 3 => Ok(V3(r.payload, OrEmpty(r.versionedHashes), r.parentBeaconBlockRoot))
    case 4 => Ok(V4(r.payload, OrEmpty(r.versionedHashes), r.parentBeaconBlockRoot, OrEmpty(r.executionRequests)))
    case _ => Err(ValueError)
  }

  /**
   Cancun and Prague payloads look the same: only the fork, a stamped version or the
   requests beside the payload tell them apart, and without any of them Prague goes out as V3.
   */
  lemma ForkTellsPragueFromCancun(r: PayloadRecord)
    requires BlobGasUsed in r.payload && r.newpayloadVersion.None?
    ensures r.fork == Some("prague") ==> NewPayloadParams(None, r).Ok? && NewPayloadParams(None, r).value.V4?
    ensures r.fork == Some("cancun") ==> NewPayloadParams(None, r).Ok? && NewPayloadParams(None, r).value.V3?
    ensures r.fork.None? ==>
              var params := NewPayloadParams(None, r);
              params.Ok? && params.value.payload == r.payload
              && (if r.executionRequests.Some? then params.value.V4? else params.value.V3?)
  {
  }

  /** The number in the name of the method that is called. */
  function VersionOf(params: Params): int {
    match params case V1(_) => 1 case V2(_) => 2 case V3(_, _, _) => 3 case V4(_, _, _, _) => 4
  }

  /** Versions count in this order: forced, stamped in the record, of its fork, of the shape of its payload. */
  predicate Precedes(forced: Option<int>, r: PayloadRecord, version: int) {
    var stamped := r.newpayloadVersion;
    if forced.Some? && forced.value != 0 then version == forced.value
    else if stamped.Some? && stamped.value != 0 then version == stamped.value
    else if r.fork == Some("paris") then version == 1
    else if r.fork == Some("shanghai") then version == 2
    else if r.fork == Some("cancun") then version == 3
    else if r.fork == Some("prague") then version == 4
    else if r.executionRequests.Some? then version == 4
    else if BlobGasUsed in r.payload || ExcessBlobGas in r.payload then version == 3
    else version == if Withdrawals in r.payload then 2 else 1
  }

  /** A list that is missing is sent as an empty one. */
  predicate IsSentAs(list: Option<seq<string>>, sent: seq<string>) {
    list == Some(sent) || (list == None && sent == [])
  }

  /** What is sent for a record, argument by argument; and nothing exactly if there is no such version. */
  lemma RecordIsSentAs(forced: Option<int>, r: PayloadRecord, version: int)
    requires Precedes(forced, r, version)
    ensures NewPayloadParams(forced, r).Ok? <==> version in {1, 2, 3, 4}
    ensures NewPayloadParams(forced, r).Err? ==> NewPayloadParams(forced, r).error == ValueError
    ensures NewPayloadParams(forced, r).Ok? ==>
              var params := NewPayloadParams(forced, r).value;
              VersionOf(params) == version && params.payload == r.payload
              && (version >= 3 ==>
                    IsSentAs(r.versionedHashes, params.versionedHashes)
                    && params.parentBeaconBlockRoot == r.parentBeaconBlockRoot)
              && (version == 4 ==> IsSentAs(r.executionRequests, params.executionRequests))
  {
  }

  // ---------- one call within its wall-clock budget ----------

  datatype Body = NotJson | Json(error: Option<int>, result: Option<string>)

  /** How one POST ends: a timeout or connection error, any other exception, or an HTTP response. */
  datatype Response = TransportFailure | OtherFailure | Http(status: int, body: Body)

  datatype Post = Post(call: string, id: int, begin: real, end: real, limit: real, response: Response)

  datatype Outcome =
    | Returned(result: Option<string>) | OverBudget | HttpError(status: int) | RpcError(code: int) | OtherError

  /** The JSON-RPC code of a server-side timeout, also used for "resource unavailable". */
  const SERVER_TIMEOUT: int := -32002

  function Conclusion(response: Response): Outcome {
    match response
    case TransportFailure => OverBudget
    case OtherFailure => OtherError
    case Http(status, body) =>
      if status != 200 then HttpError(status)
      else match body
        case NotJson => OtherError
        case Json(Some(code), _) => RpcError(code)
        case Json(None, result) => Returned(result)
  }

  predicate Retried(p: Post, start: real, timeout: int) {
    p.response.TransportFailure?
    || (Conclusion(p.response) == RpcError(SERVER_TIMEOUT) && p.end - start < timeout as real)
  }

  /** When the call that made `posts` posts next: at once, then a second after each. */
  function NextStart(posts: seq<Post>, start: real): real {
    if posts == [] then start else posts[|posts| - 1].end + 1.0
  }

  function Limit(remaining: real): real {
    if remaining < 1.0 then 1.0 else remaining
  }

  /** A post begun at `begin`, within the budget and limited to what is left of it. */
  predicate WellTimed(p: Post, begin: real, start: real, timeout: int) {
    p.begin == begin && begin - start < timeout as real
    && p.limit == Limit(timeout as real - (begin - start))
    && begin <= p.end <= begin + p.limit
  }

  /** The posts of one call: every one in time and for the same request, all but the last retried. */
  predicate Attempts(posts: seq<Post>, call: string, id: int, start: real, timeout: int) {
    posts == [] ||
    var before, p := posts[..|posts| - 1], posts[|posts| - 1];
    Attempts(before, call, id, start, timeout) && MayRetry(before, start, timeout)
    && p.call == call && p.id == id && WellTimed(p, NextStart(before, start), start, timeout)
  }

  predicate MayRetry(posts: seq<Post>, start: real, timeout: int) {
    posts == [] || Retried(posts[|posts| - 1], start, timeout)
  }

  /** How a call may end, given the posts it made. */
  predicate Concludes(outcome: Outcome, posts: seq<Post>, start: real, now: real, timeout: int) {
    if outcome == OverBudget then
      MayRetry(posts, start, timeout) && now == NextStart(posts, start) && now - start >= timeout as real
    else
      !MayRetry(posts, start, timeout)
      && outcome == Conclusion(posts[|posts| - 1].response) && now == posts[|posts| - 1].end
  }

  class EngineClient {
    const timeout: int
    var id: int
    var now: real
    var posts: seq<Post>

    constructor (timeout: int)
      ensures this.timeout == timeout && id == 0 && posts == []
    {
      this.timeout, id, now, posts := timeout, 0, 0.0, [];
    }

    /** `requests.post`: any response, or none, but within the limit. */
    method Send(call: string, limit: real) returns (r: Response)
      requires limit > 0.0
      modifies this`now, this`posts
      ensures old(now) <= now <= old(now) + limit
      ensures posts == old(posts) + [Post(call, id, old(now), now, limit, r)]
    {
      r := *;
      var took: real := *;
      took := if 0.0 <= took <= limit then took else limit;
      posts := posts + [Post(call, id, now, now + took, limit, r)];
      now := now + took;
    }

    method Sleep(seconds: real)
      requires seconds >= 0.0
      modifies this`now
      ensures now == old(now) + seconds
    {
      now := now + seconds;
    }

    /** One call: posts until a conclusive response, or until the budget is spent. */
    method Rpc(call: string) returns (outcome: Outcome)
      modifies this
      ensures id == old(id) + 1
      ensures old(posts) <= posts && Attempts(posts[|old(posts)|..], call, id, old(now), timeout)
      ensures Concludes(outcome, posts[|old(posts)|..], old(now), now, timeout)
    {
      hide Attempts;
      id := id + 1;
      var start := now;
      ghost var mine: seq<Post> := [];
      NoAttempts(call, id, start, timeout);
      while true
        invariant id == old(id) + 1 && posts == old(posts) + mine
        invariant Attempts(mine, call, id, start, timeout) && MayRetry(mine, start, timeout)
        invariant now == NextStart(mine, start)
        decreases start + timeout as real - now
      {
        var remaining := timeout as real - (now - start);
        if remaining <= 0.0 {
          assert posts[|old(posts)|..] == mine;
          return OverBudget;
        }
        var response := Send(call, Limit(remaining));
        AttemptsMore(mine, posts[|posts| - 1], call, id, start, timeout);
        mine := mine + [posts[|posts| - 1]];
        assert posts[|old(posts)|..] == mine;
        if response.TransportFailure? {
          Sleep(1.0);
          continue;
        }
        if Conclusion(response) == RpcError(SERVER_TIMEOUT) && now - start < timeout as real {
          Sleep(1.0);
          continue;
        }
        return Conclusion(response);
      }
    }
  }

  lemma NoAttempts(call: string, id: int, start: real, timeout: int)
    ensures Attempts([], call, id, start, timeout)
  {
  }

  lemma AttemptsMore(posts: seq<Post>, p: Post, call: string, id: int, start: real, timeout: int)
    requires Attempts(posts, call, id, start, timeout) && MayRetry(posts, start, timeout)
    requires p.call == call && p.id == id && WellTimed(p, NextStart(posts, start), start, timeout)
    ensures Attempts(posts + [p], call, id, start, timeout)
  {
    assert (posts + [p])[..|posts|] == posts;
  }

  /**
   The budget: at most `timeout` attempts, none begun once it is spent, and even with the
   one-second floor on a request and the sleep after it, less than two seconds beyond it.
   */
  lemma {:induction false} RetryBudget(posts: seq<Post>, call: string, id: int, start: real, timeout: int)
    requires Attempts(posts, call, id, start, timeout)
    ensures posts != [] ==> |posts| <= timeout
    ensures forall p | p in posts :: p.begin - start < timeout as real
    ensures posts != [] ==> NextStart(posts, start) - start < timeout as real + 2.0
    ensures start + |posts| as real <= NextStart(posts, start)
  {
    if posts != [] {
      RetryBudget(posts[..|posts| - 1], call, id, start, timeout);
    }
  }

  /** However a call ends, it has taken less than two seconds more than its budget. */
  lemma CallDuration(outcome: Outcome, posts: seq<Post>, call: string, id: int, start: real, now: real, timeout: int)
    requires Attempts(posts, call, id, start, timeout) && Concludes(outcome, posts, start, now, timeout)
    requires timeout >= 1
    ensures start <= now < start + timeout as real + 2.0
    ensures outcome == OverBudget ==> start + timeout as real <= now
  {
    RetryBudget(posts, call, id, start, timeout);
  }

  /** A post stays within the budget, however long it takes, exactly if at least a second was left when it began. */
  lemma PostStaysInBudgetExactlyIf(begin: real, start: real, timeout: int)
    requires begin - start < timeout as real
    ensures (forall p | WellTimed(p, begin, start, timeout) :: p.end <= start + timeout as real)
        <==> begin <= start + timeout as real - 1.0
  {
    var limit := Limit(timeout as real - (begin - start));
    var slowest := Post("", 0, begin, begin + limit, limit, TransportFailure);
    assert WellTimed(slowest, begin, start, timeout);
  }

  /**
   When a call can give up: at any moment from the end of its budget until two seconds later,
   and at none other. With a budget of one second there is but one post, and one second.
   */
  lemma GivesUpExactlyWithin(call: string, id: int, start: real, now: real, timeout: int)
    requires timeout >= 1
    ensures (exists posts ::
               Attempts(posts, call, id, start, timeout) && Concludes(OverBudget, posts, start, now, timeout))
        <==> 0.0 <= now - start - timeout as real <= 1.0
             || (timeout >= 2 && 1.0 < now - start - timeout as real < 2.0)
  {
    forall posts | Attempts(posts, call, id, start, timeout) && Concludes(OverBudget, posts, start, now, timeout)
      ensures 0.0 <= now - start - timeout as real < 2.0
      ensures timeout == 1 ==> now - start <= 2.0
    {
      CallDuration(OverBudget, posts, call, id, start, now, timeout);
      if timeout == 1 {
        OneSecondIsOnePost(posts, call, id, start);
      }
    }
    if 0.0 <= now - start - timeout as real <= 1.0 {
      var p := Post(call, id, start, now - 1.0, timeout as real, TransportFailure);
      OneAttempt(p, call, id, start, timeout);
      assert Concludes(OverBudget, [p], start, now, timeout);
    } else if timeout >= 2 && 1.0 < now - start - timeout as real < 2.0 {
      var p := Post(call, id, start, now - 3.0, timeout as real, TransportFailure);
      var q := Post(call, id, now - 2.0, now - 1.0, 1.0, TransportFailure);
      OneAttempt(p, call, id, start, timeout);
      AttemptsMore([p], q, call, id, start, timeout);
      assert Concludes(OverBudget, [p] + [q], start, now, timeout);
    }
  }

  lemma OneAttempt(p: Post, call: string, id: int, start: real, timeout: int)
    requires p.call == call && p.id == id && WellTimed(p, start, start, timeout)
    ensures Attempts([p], call, id, start, timeout)
  {
    AttemptsMore([], p, call, id, start, timeout);
    assert [] + [p] == [p];
  }

  lemma OneSecondIsOnePost(posts: seq<Post>, call: string, id: int, start: real)
    requires Attempts(posts, call, id, start, 1)
    ensures NextStart(posts, start) <= start + 2.0
  {
    RetryBudget(posts, call, id, start, 1);
    if posts != [] {
      assert posts[..|posts| - 1] == [];
    }
  }

  /**
   A call returns a value exactly if its last post got an HTTP 200 response carrying that
   value and no error; and whatever it ends with, every post before the last was to be retried.
   */
  lemma ReturnsOnlyCleanResults(outcome: Outcome, posts: seq<Post>, call: string, id: int, start: real, now: real,
                                timeout: int, result: Option<string>)
    requires Attempts(posts, call, id, start, timeout) && Concludes(outcome, posts, start, now, timeout)
    ensures outcome == Returned(result) <==>
            posts != [] && posts[|posts| - 1].response == Http(200, Json(None, result))
    ensures forall k | 0 <= k < |posts| - 1 :: Retried(posts[k], start, timeout)
  {
    EarlierAreRetried(posts, call, id, start, timeout);
  }

  /** A response to try again after: none in time, or the code of a server-side timeout with budget left. */
  predicate TriesAgain(p: Post, start: real, timeout: int) {
    match p.response
    case TransportFailure => true
    case Http(200, Json(Some(code), _)) => code == -32002 && p.end < start + timeout as real
    case _ => false
  }

  /**
   How a call ends, by its last post alone: over budget exactly if that was to be tried
   again, and else as its response says. Every earlier post was to be tried again.
   */
  lemma EndsAsLastPostSays(outcome: Outcome, posts: seq<Post>, call: string, id: int, start: real, now: real,
                           timeout: int)
    requires Attempts(posts, call, id, start, timeout) && Concludes(outcome, posts, start, now, timeout)
    requires posts != []
    ensures forall k | 0 <= k < |posts| - 1 :: TriesAgain(posts[k], start, timeout)
    ensures var p := posts[|posts| - 1];
            (outcome == OverBudget <==> TriesAgain(p, start, timeout))
            && (!TriesAgain(p, start, timeout) ==>
                  match p.response
                  case Http(status, body) =>
                    if status != 200 then outcome == HttpError(status)
                    else if body.NotJson? then outcome == OtherError
                    else if body.error.Some? then outcome == RpcError(body.error.value)
                    else outcome == Returned(body.result)
                  case _ => outcome == OtherError)
  {
    EarlierAreRetried(posts, call, id, start, timeout);
    forall p ensures Retried(p, start, timeout) <==> TriesAgain(p, start, timeout) {
    }
  }

  /** A server-side timeout is raised only when the budget is spent. */
  lemma ServerTimeoutIsRetried(outcome: Outcome, posts: seq<Post>, call: string, id: int, start: real, now: real,
                               timeout: int)
    requires Attempts(posts, call, id, start, timeout) && Concludes(outcome, posts, start, now, timeout)
    requires outcome == RpcError(-32002)
    ensures start + timeout as real <= now
  {
    EndsAsLastPostSays(outcome, posts, call, id, start, now, timeout);
  }

  lemma {:induction false} EarlierAreRetried(posts: seq<Post>, call: string, id: int, start: real, timeout: int)
    requires Attempts(posts, call, id, start, timeout)
    ensures forall k | 0 <= k < |posts| - 1 :: Retried(posts[k], start, timeout)
  {
    if posts != [] {
      EarlierAreRetried(posts[..|posts| - 1], call, id, start, timeout);
    }
  }
}
