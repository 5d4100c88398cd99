/** The baseline ingestion script's client side (`scripts/ingest_baseline.py`): the bearer
    header and the retry loop around `POST /ingest/world-bank`. The server's reply to each
    attempt is a parameter; sleeping is recorded as the list of waits. */
module IngestScript {
  import opened Wrappers
  import Numeric

  const DefaultRetries := 2
  const DefaultDelay := 0.25

  /** `build_headers`: nothing without a token, else a bearer authorisation header. */
  function BuildHeaders(token: Option<string>): (h: map<string, string>)
    ensures token.None? || token == Some("") ==> h == map[]
    ensures token.Some? && token.value != "" ==> h.Keys == {"Authorization"} && h["Authorization"] == "Bearer " + token.value
  {
    if token.None? || token.value == "" then map[] else map["Authorization" := "Bearer " + token.value]
  }

  datatype Reply = Reply(status: int, body: string)

  predicate Retryable(status: int) {
    status == 429 || status == 502 || status == 503
  }

  /** The outcome of the loop from attempt `attempt` on: the body of the first reply below
      400, or the status that `raise_for_status` raises; with the number of the last attempt. */
  function RetryFrom(server: nat -> Reply, retries: int, attempt: nat): (r: (Result<string, int>, nat))
    requires attempt >= 1
    ensures r.1 >= attempt
    ensures r.0.Ok? ==> server(r.1).status < 400 && r.0.value == server(r.1).body
    ensures r.0.Err? ==> server(r.1).status >= 400 && r.0.error == server(r.1).status
    ensures r.0.Err? ==> !Retryable(server(r.1).status) || r.1 > retries
    ensures r.1 <= Numeric.MaxI(retries, attempt - 1) + 1
    decreases Numeric.MaxI(retries, attempt - 1) + 1 - attempt
  {
    var reply := server(attempt);
    if reply.status < 400 then (Ok(reply.body), attempt)
    else if Retryable(reply.status) && attempt <= retries then RetryFrom(server, retries, attempt + 1)
    else (Err(reply.status), attempt)
  }

  /** A 429, 502 or 503 within the retry budget is retried: the outcome is that of the next
      attempt. */
  lemma RetryableWithinBudgetIsRetried(server: nat -> Reply, retries: int, attempt: nat)
    requires attempt >= 1
    requires Retryable(server(attempt).status) && attempt <= retries
    ensures RetryFrom(server, retries, attempt) == RetryFrom(server, retries, attempt + 1)
  {
  }

  /** Every attempt before the last was answered with a retryable status. */
  lemma {:induction false} EarlierAttemptsRetried(server: nat -> Reply, retries: int, attempt: nat, j: nat)
    requires attempt >= 1
    requires attempt <= j < RetryFrom(server, retries, attempt).1
    ensures Retryable(server(j).status) && j <= retries
    decreases Numeric.MaxI(retries, attempt - 1) + 1 - attempt
  {
    if j > attempt {
      EarlierAttemptsRetried(server, retries, attempt + 1, j);
    }
  }

  /** `ingest_indicator`'s loop: requests are made until one succeeds, fails for good, or
      the retries are used up; the wait before retry `n + 1` is `delay * n`. */
  method IngestIndicator(server: nat -> Reply, retries: int, delay: real)
    returns (outcome: Result<string, int>, requests: nat, waits: seq<real>)
    ensures (outcome, requests) == RetryFrom(server, retries, 1)
    ensures 1 <= requests <= Numeric.MaxI(retries, 0) + 1
    ensures |waits| == requests - 1
    ensures forall n :: 0 <= n < |waits| ==> waits[n] == delay * (n + 1) as real
  {
    var attempt: nat := 0;
    waits := [];
    while true
      invariant |waits| == attempt
      invariant forall n :: 0 <= n < |waits| ==> waits[n] == delay * (n + 1) as real
      invariant RetryFrom(server, retries, 1) == RetryFrom(server, retries, attempt + 1)
      invariant attempt <= Numeric.MaxI(retries, 0)
      decreases Numeric.MaxI(retries, 0) - attempt
    {
      attempt := attempt + 1;
      var reply := server(attempt);
      if reply.status < 400 {
        return Ok(reply.body), attempt, waits;
      }
      if Retryable(reply.status) && attempt <= retries {
        waits := waits + [delay * attempt as real];
        continue;
      }
      return Err(reply.status), attempt, waits;
    }
  }

  /** Three overloaded replies in a row exhaust the default two retries: three requests, then
      the 503 is raised. */
  lemma DefaultRetriesGiveUp(server: nat -> Reply)
    requires forall n :: 1 <= n <= 3 ==> server(n).status == 503
    ensures RetryFrom(server, DefaultRetries, 1) == (Err(503), 3)
  {
  }
}
