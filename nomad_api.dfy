/**
 * The client for the search API's /entries/query endpoint: a POST with
 * a bounded number of retries and exponential backoff, and the request
 * for one page of entries ordered by entry_id.
 *
 * The network is an input: the result of the k-th attempt is
 * attempts[k - 1], either a transport failure or an HTTP status with a
 * decoded JSON body. Sleeping is recorded in a ghost log of durations,
 * and each request sent in a ghost log of (url, payload) pairs.
 */
module NomadApi {
  import opened Wrappers
  import opened Json
  import opened Text

  /** Number of attempts post_entries_query makes at most. */
  const MaxRetries: nat := 5

  /** Statuses that are retried while attempts remain. */
  const RetryableStatus: set<int> := {429, 500, 502, 503, 504}

  /** What one POST produced. */
  datatype Attempt =
    | TransportFailure(reason: string)
    | Reply(status: int, body: Value)

  /** The exceptions the client can raise. */
  datatype ApiError =
    | RequestError(reason: string)    // the re-raised transport exception
    | HttpError(status: int)          // raise_for_status on a non-ok reply
    | RetriesExceeded                 // the trailing RuntimeError
    | MalformedResponse(what: string) // the body is not shaped as the code expects

  /** One request handed to the transport. */
  datatype Request = Request(url: string, payload: Value)

  /** requests' Response.ok: raise_for_status raises exactly on 4xx and 5xx. */
  predicate IsOk(status: int)
  {
    !(400 <= status < 600)
  }

  /** Whether attempt number k (1-based) with result a is followed by a sleep and another attempt. */
  predicate Retries(a: Attempt, k: nat)
  {
    k < MaxRetries && (a.TransportFailure? || a.status in RetryableStatus)
  }

  /** Attempt number k (1-based) of the given results is retried. */
  predicate RetriedAt(attempts: seq<Attempt>, k: nat)
  {
    1 <= k <= |attempts| && Retries(attempts[k - 1], k)
  }

  // ---------------------------------------------------------------------
  // Specification of the retry loop

  /** The number of the attempt that ends the loop, searching from attempt k on. */
  function AttemptsFrom(attempts: seq<Attempt>, k: nat): (n: nat)
    requires 1 <= k <= MaxRetries <= |attempts|
    ensures k <= n <= MaxRetries
    ensures !RetriedAt(attempts, n)
    ensures forall j :: k <= j < n ==> RetriedAt(attempts, j)
    decreases MaxRetries - k
  {
    if RetriedAt(attempts, k) then AttemptsFrom(attempts, k + 1) else k
  }

  /** The number of attempts post_entries_query makes: the first one that is not retried. */
  function AttemptsMade(attempts: seq<Attempt>): (n: nat)
    requires MaxRetries <= |attempts|
    ensures 1 <= n <= MaxRetries
    ensures !RetriedAt(attempts, n)
    ensures forall j :: 1 <= j < n ==> RetriedAt(attempts, j)
  {
    AttemptsFrom(attempts, 1)
  }

  /** What the attempt that ends the loop yields. */
  function Outcome(a: Attempt): (r: Result<Value, ApiError>)
    ensures r.Success? <==> a.Reply? && IsOk(a.status)
    ensures r.Success? ==> r.value == a.body
    ensures a.TransportFailure? ==> r == Failure(RequestError(a.reason))
    ensures a.Reply? && !IsOk(a.status) ==> r == Failure(HttpError(a.status))
  {
    match a
    case TransportFailure(reason) => Failure(RequestError(reason))
    case Reply(status, body) => if IsOk(status) then Success(body) else Failure(HttpError(status))
  }

  /** The result of post_entries_query on the given attempt results. */
  function PostOutcome(attempts: seq<Attempt>): Result<Value, ApiError>
    requires MaxRetries <= |attempts|
  {
    Outcome(attempts[AttemptsMade(attempts) - 1])
  }

  function Pow2(n: nat): (r: nat)
    ensures r >= 1
  {
    if n == 0 then 1 else 2 * Pow2(n - 1)
  }

  /** The sleeps of n retries: the backoff starts at 1 and doubles after each sleep. */
  function Backoffs(n: nat): (r: seq<nat>)
    ensures |r| == n
    ensures forall k :: 0 <= k < n ==> r[k] == Pow2(k)
  {
    seq(n, k requires 0 <= k => Pow2(k))
  }

  /** n copies of the same request. */
  function Repeated(req: Request, n: nat): (r: seq<Request>)
    ensures |r| == n
    ensures forall k :: 0 <= k < n ==> r[k] == req
  {
    seq(n, _ => req)
  }

  lemma BackoffsSnoc(n: nat)
    ensures Backoffs(n) + [Pow2(n)] == Backoffs(n + 1)
  {
  }

  lemma RepeatedSnoc(req: Request, n: nat)
    ensures Repeated(req, n) + [req] == Repeated(req, n + 1)
  {
  }

  /** The endpoint path appended to the base url. */
  const EntriesQueryPath: string := "/entries/query"

  /** The url post_entries_query posts to: base_url.rstrip('/') followed by the endpoint path. */
  function QueryUrl(baseUrl: string): (r: string)
    ensures |EntriesQueryPath| <= |r| <= |baseUrl| + |EntriesQueryPath|
    ensures r[|r| - |EntriesQueryPath|..] == EntriesQueryPath
    ensures var p := r[..|r| - |EntriesQueryPath|];
      p == baseUrl[..|p|] && (p == [] || p[|p| - 1] != '/') &&
      forall k :: |p| <= k < |baseUrl| ==> baseUrl[k] == '/'
  {
    TrimEnd(baseUrl, Only('/')) + EntriesQueryPath
  }

  // ---------------------------------------------------------------------
  // Properties of the retry loop

  /** The loop ends at attempt k exactly when every earlier attempt is retried and attempt k is not. */
  lemma AttemptsMadeIs(attempts: seq<Attempt>, k: nat)
    requires MaxRetries <= |attempts| && 1 <= k <= MaxRetries
    requires forall j :: 1 <= j < k ==> RetriedAt(attempts, j)
    requires !RetriedAt(attempts, k)
    ensures AttemptsMade(attempts) == k
    ensures PostOutcome(attempts) == Outcome(attempts[k - 1])
  {
  }

  /** The first four sleeps last 1, 2, 4 and 8 units. */
  lemma BackoffValues()
    ensures Backoffs(MaxRetries - 1) == [1, 2, 4, 8]
  {
    assert Pow2(0) == 1 && Pow2(1) == 2 && Pow2(2) == 4 && Pow2(3) == 8;
  }

  /** A transport failure surfaces only when it is the fifth attempt; earlier ones are retried. */
  lemma TransportFailureRaisedOnlyLast(attempts: seq<Attempt>)
    requires MaxRetries <= |attempts|
    ensures (PostOutcome(attempts).Failure? && PostOutcome(attempts).error.RequestError?) <==>
      AttemptsMade(attempts) == MaxRetries && attempts[MaxRetries - 1].TransportFailure?
  {
    var n := AttemptsMade(attempts);
    if attempts[n - 1].TransportFailure? {
      assert n == MaxRetries;
    }
  }

  /** A retryable status on the fifth attempt is not retried: it raises as an HTTP error. */
  lemma RetryableOnLastIsHttpError(attempts: seq<Attempt>)
    requires MaxRetries <= |attempts|
    requires forall j :: 1 <= j < MaxRetries ==> RetriedAt(attempts, j)
    requires attempts[MaxRetries - 1].Reply? && attempts[MaxRetries - 1].status in RetryableStatus
    ensures AttemptsMade(attempts) == MaxRetries
    ensures PostOutcome(attempts) == Failure(HttpError(attempts[MaxRetries - 1].status))
  {
    AttemptsMadeIs(attempts, MaxRetries);
  }

  /** A reply that is not retried ends the loop on its own attempt: an ok one returns its body, another raises. */
  lemma ReplyEndsLoop(attempts: seq<Attempt>, k: nat)
    requires MaxRetries <= |attempts| && 1 <= k <= MaxRetries
    requires forall j :: 1 <= j < k ==> RetriedAt(attempts, j)
    requires attempts[k - 1].Reply? && attempts[k - 1].status !in RetryableStatus
    ensures AttemptsMade(attempts) == k
    ensures IsOk(attempts[k - 1].status) ==> PostOutcome(attempts) == Success(attempts[k - 1].body)
    ensures !IsOk(attempts[k - 1].status) ==> PostOutcome(attempts) == Failure(HttpError(attempts[k - 1].status))
  {
    AttemptsMadeIs(attempts, k);
  }

  /** The loop always returns or raises from inside: the "Exceeded max retries" error cannot occur. */
  lemma NeverExceedsRetries(attempts: seq<Attempt>)
    requires MaxRetries <= |attempts|
    ensures PostOutcome(attempts) != Failure(RetriesExceeded)
    ensures PostOutcome(attempts).Failure? ==> !PostOutcome(attempts).error.MalformedResponse?
  {
  }

  /** 503, 503, then 200: three attempts, sleeps of 1 and 2, and the third body is returned. */
  lemma TwoRetriesThenOk(attempts: seq<Attempt>, busy: Value, body: Value)
    requires MaxRetries <= |attempts|
    requires attempts[0] == Reply(503, busy) && attempts[1] == Reply(503, busy) && attempts[2] == Reply(200, body)
    ensures AttemptsMade(attempts) == 3
    ensures Backoffs(AttemptsMade(attempts) - 1) == [1, 2]
    ensures PostOutcome(attempts) == Success(body)
  {
    ReplyEndsLoop(attempts, 3);
    assert Pow2(1) == 2;
  }

  // ---------------------------------------------------------------------
  // The page request

  /** A page of the entries query: its records and the cursor for the next page. */
  datatype Page = Page(records: seq<Value>, next: Value)

  /** The strings of include_fields as a JSON list. */
  function StrList(fields: seq<string>): (r: seq<Value>)
    ensures |r| == |fields|
    ensures forall k :: 0 <= k < |fields| ==> r[k] == Str(fields[k])
  {
    seq(|fields|, k requires 0 <= k < |fields| => Str(fields[k]))
  }

  /**
   * The payload fetch_entries_page posts. An absent include_fields is
   * the empty list; an absent cursor is Null.
   */
  function EntriesPayload(query: Value, pageSize: int, includeFields: seq<string>, pageAfter: Value): (r: Value)
    ensures r.Obj?
    ensures Get(r.fields, "owner") == Str("public")
    ensures Get(r.fields, "query") == if Truthy(query) then query else Obj(map[])
    ensures ("required" in r.fields) <==> |includeFields| > 0
    ensures |includeFields| > 0 ==> r.fields["required"] == Obj(map["include" := Arr(StrList(includeFields))])
    ensures r.fields.Keys <= {"owner", "query", "pagination", "required"}
    ensures "pagination" in r.fields && r.fields["pagination"].Obj?
    ensures var p := r.fields["pagination"].fields;
      Get(p, "page_size") == Int(pageSize) &&
      Get(p, "order_by") == Str("entry_id") &&
      Get(p, "order") == Str("asc") &&
      (("page_after_value" in p) <==> Truthy(pageAfter)) &&
      (Truthy(pageAfter) ==> p["page_after_value"] == pageAfter) &&
      p.Keys <= {"page_size", "order_by", "order", "page_after_value"}
  {
    var pagination := map["page_size" := Int(pageSize), "order_by" := Str("entry_id"), "order" := Str("asc")];
    var pagination := if Truthy(pageAfter) then pagination["page_after_value" := pageAfter] else pagination;
    var payload := map[
      "owner" := Str("public"),
      "query" := if Truthy(query) then query else Obj(map[]),
      "pagination" := Obj(pagination)];
    if |includeFields| > 0 then Obj(payload["required" := Obj(map["include" := Arr(StrList(includeFields))])])
    else Obj(payload)
  }

  /**
   * How fetch_entries_page reads the response: result.get("data") or []
   * and result.get("pagination", {}).get("next_page_after_value").
   * A .get on something other than a dictionary raises, and data that
   * is truthy but not a list cannot be iterated as records.
   */
  function SplitResponse(result: Value): (r: Result<Page, ApiError>)
    ensures r.Success? <==>
      result.Obj? &&
      ("pagination" in result.fields ==> result.fields["pagination"].Obj?) &&
      (Truthy(Get(result.fields, "data")) ==> Get(result.fields, "data").Arr?)
    ensures r.Success? ==>
      r.value.records == (if Truthy(Get(result.fields, "data")) then Get(result.fields, "data").items else []) &&
      r.value.next == (if "pagination" in result.fields
                       then Get(result.fields["pagination"].fields, "next_page_after_value") else Null)
    ensures r.Failure? ==> r.error.MalformedResponse?
  {
    if !result.Obj? then Failure(MalformedResponse("response is not an object"))
    else
      var pagination := if "pagination" in result.fields then result.fields["pagination"] else Obj(map[]);
      if !pagination.Obj? then Failure(MalformedResponse("pagination is not an object"))
      else
        var data := Get(result.fields, "data");
        if Truthy(data) && !data.Arr? then Failure(MalformedResponse("data is not a list"))
        else Success(Page(if Truthy(data) then data.items else [], Get(pagination.fields, "next_page_after_value")))
  }

  /** The response a server sends for a page: the records under "data" and the cursor under pagination. */
  function PageResponse(page: Page): (r: Value)
    ensures r.Obj? && Get(r.fields, "data") == Arr(page.records)
  {
    Obj(map["data" := Arr(page.records), "pagination" := Obj(map["next_page_after_value" := page.next])])
  }

  /** Reading a page response gives back the page. */
  lemma SplitPageResponse(page: Page)
    ensures SplitResponse(PageResponse(page)) == Success(page)
  {
    var r := PageResponse(page).fields;
    assert "pagination" in r && r["pagination"] == Obj(map["next_page_after_value" := page.next]);
  }

  // ---------------------------------------------------------------------
  // The client state

  /**
   * The module-level state of the client: API_CALL_COUNT, together with
   * ghost logs of the sleeps taken and the requests sent.
   */
  class NomadClient {
    var apiCallCount: nat
    ghost var sleepLog: seq<nat>
    ghost var posted: seq<Request>

    constructor()
      ensures apiCallCount == 0 && sleepLog == [] && posted == []
    {
      apiCallCount := 0;
      sleepLog := [];
      posted := [];
    }

    /** post_entries_query: POST the payload, retrying transient failures with doubling backoff. */
    method PostEntriesQuery(baseUrl: string, payload: Value, attempts: seq<Attempt>) returns (r: Result<Value, ApiError>)
      requires MaxRetries <= |attempts|
      modifies this
      ensures var n := AttemptsMade(attempts);
        apiCallCount == old(apiCallCount) + n &&
        sleepLog == old(sleepLog) + Backoffs(n - 1) &&
        posted == old(posted) + Repeated(Request(QueryUrl(baseUrl), payload), n) &&
        r == PostOutcome(attempts)
    {
      r := PostWithRetries(QueryUrl(baseUrl), payload, attempts);
    }

    /** The attempt loop of post_entries_query, posting to url. */
    method PostWithRetries(url: string, payload: Value, attempts: seq<Attempt>) returns (r: Result<Value, ApiError>)
      requires MaxRetries <= |attempts|
      modifies this
      ensures var n := AttemptsMade(attempts);
        apiCallCount == old(apiCallCount) + n &&
        sleepLog == old(sleepLog) + Backoffs(n - 1) &&
        posted == old(posted) + Repeated(Request(url, payload), n) &&
        r == PostOutcome(attempts)
    {
      var backoff: nat := 1;
      var attempt: nat := 1;
      while attempt <= MaxRetries
        invariant 1 <= attempt <= MaxRetries
        invariant backoff == Pow2(attempt - 1)
        invariant forall j :: 1 <= j < attempt ==> RetriedAt(attempts, j)
        invariant apiCallCount == old(apiCallCount) + attempt - 1
        invariant sleepLog == old(sleepLog) + Backoffs(attempt - 1)
        invariant posted == old(posted) + Repeated(Request(url, payload), attempt - 1)
        decreases MaxRetries - attempt
      {
        apiCallCount := apiCallCount + 1;
        RepeatedSnoc(Request(url, payload), attempt - 1);
        posted := posted + [Request(url, payload)];
        var a := attempts[attempt - 1];
        if a.TransportFailure? {
          if attempt == MaxRetries {
            AttemptsMadeIs(attempts, attempt);
            return Failure(RequestError(a.reason));
          }
        } else if !(a.status in RetryableStatus && attempt < MaxRetries) {
          AttemptsMadeIs(attempts, attempt);
          if !IsOk(a.status) {
            return Failure(HttpError(a.status));
          }
          return Success(a.body);
        }
        assert RetriedAt(attempts, attempt);
        BackoffsSnoc(attempt - 1);
        sleepLog := sleepLog + [backoff];
        backoff := backoff * 2;
        attempt := attempt + 1;
      }
      return Failure(RetriesExceeded);
    }

    /** fetch_entries_page: post the page request and split the response into records and the next cursor. */
    method FetchEntriesPage(baseUrl: string, query: Value, pageSize: int, includeFields: seq<string>,
                            pageAfter: Value, attempts: seq<Attempt>) returns (r: Result<Page, ApiError>)
      requires MaxRetries <= |attempts|
      modifies this
      ensures var n := AttemptsMade(attempts);
        apiCallCount == old(apiCallCount) + n &&
        sleepLog == old(sleepLog) + Backoffs(n - 1) &&
        posted == old(posted) + Repeated(Request(QueryUrl(baseUrl), EntriesPayload(query, pageSize, includeFields, pageAfter)), n)
      ensures PostOutcome(attempts).Failure? ==> r == Failure(PostOutcome(attempts).error)
      ensures PostOutcome(attempts).Success? ==> r == SplitResponse(PostOutcome(attempts).value)
    {
      var pagination := map["page_size" := Int(pageSize), "order_by" := Str("entry_id"), "order" := Str("asc")];
      if Truthy(pageAfter) {
        pagination := pagination["page_after_value" := pageAfter];
      }
      var payload := map[
        "owner" := Str("public"),
        "query" := if Truthy(query) then query else Obj(map[]),
        "pagination" := Obj(pagination)];
      if |includeFields| > 0 {
        payload := payload["required" := Obj(map["include" := Arr(StrList(includeFields))])];
      }
      assert Obj(payload) == EntriesPayload(query, pageSize, includeFields, pageAfter);
      var result := PostEntriesQuery(baseUrl, Obj(payload), attempts);
      match result
      case Failure(e) => r := Failure(e);
      case Success(body) => r := SplitResponse(body);
    }
  }
}
