/** The two clients' retry loops: `_open` (client.py) and `get` (api.ts). Each outcome of an
    attempt is an input. */
module Retry {
  import opened Wrappers

  datatype Attempt = Success | Refused(status: nat, code: Option<string>) | Unreachable

  const RETRYABLE_CODES: set<string> := {"rate_limited", "unavailable", "bad_gateway"}
  const RETRYABLE_STATUSES: set<nat> := {429, 502, 503, 504}

  /** What the Python client waits out. */
  predicate PythonRetries(a: Attempt) {
    match a
    case Success => false
    case Unreachable => true
    case Refused(status, Some(code)) => code in RETRYABLE_CODES
    case Refused(status, None) => status in RETRYABLE_STATUSES
  }

  /** What the command line waits out: an empty code counts as none, any 5xx will do, and a
      request that never got an answer is not retried. */
  predicate CliRetries(a: Attempt) {
    match a
    case Success => false
    case Unreachable => false
    case Refused(status, code) =>
      if code.Some? && code.value != "" then code.value in RETRYABLE_CODES else status >= 500
  }

  /** The index of the attempt both loops end on. */
  function EndsAt(outcomes: nat -> Attempt, retries: Attempt -> bool, limit: nat, from: nat): (n: nat)
    requires from <= limit
    ensures from <= n <= limit
    ensures forall i: nat :: from <= i < n ==> retries(outcomes(i))
    ensures n < limit ==> !retries(outcomes(n))
    decreases limit - from
  {
    if from == limit || !retries(outcomes(from)) then from else EndsAt(outcomes, retries, limit, from + 1)
  }

  function Pow2(n: nat): (p: nat)
    ensures p >= 1
  {
    if n == 0 then 1 else 2 * Pow2(n - 1)
  }

  /** The loop: ask, give up or stop on the answer, else wait twice as long as before. */
  method Open(outcomes: nat -> Attempt, retries: Attempt -> bool, limit: nat, backoff: nat) returns (last: Attempt,
      asked: nat, waited: nat)
    ensures asked == EndsAt(outcomes, retries, limit, 0) + 1 && last == outcomes(asked - 1)
    ensures waited == backoff * (Pow2(asked - 1) - 1)
  {
    var attempt := 0;
    waited := 0;
    while true
      invariant attempt <= limit && EndsAt(outcomes, retries, limit, 0) == EndsAt(outcomes, retries, limit, attempt)
      invariant waited == backoff * (Pow2(attempt) - 1)
      decreases limit - attempt
    {
      last := outcomes(attempt);
      if !retries(last) || attempt >= limit { return last, attempt + 1, waited; }
      waited := waited + backoff * Pow2(attempt);
      attempt := attempt + 1;
    }
  }

  /** The first answer that is not worth waiting for ends the loop - a spent budget at once - and
      an endless outage ends it after the configured retries. */
  lemma {:induction false} EndsAtFirst(outcomes: nat -> Attempt, retries: Attempt -> bool, limit: nat, n: nat)
    requires n <= limit && (n < limit ==> !retries(outcomes(n)))
    requires forall i: nat :: i < n ==> retries(outcomes(i))
    ensures EndsAt(outcomes, retries, limit, 0) == n
  {
  }

  lemma {:induction false} SpentBudgetIsTerminal(status: nat)
    ensures !PythonRetries(Refused(status, Some("budget_exhausted")))
    ensures !CliRetries(Refused(status, Some("budget_exhausted")))
  {
  }

  /** What each waits out, named. */
  lemma {:induction false} PythonWaitsOut(status: nat, code: string)
    ensures !PythonRetries(Success) && PythonRetries(Unreachable)
    ensures PythonRetries(Refused(status, None)) <==> status == 429 || status == 502 || status == 503 || status == 504
    ensures PythonRetries(Refused(status, Some(code))) <==>
            code == "rate_limited" || code == "unavailable" || code == "bad_gateway"
  {
  }

  lemma {:induction false} CliWaitsOut(status: nat, code: string)
    ensures !CliRetries(Success) && !CliRetries(Unreachable)
    ensures CliRetries(Refused(status, None)) <==> status >= 500
    ensures CliRetries(Refused(status, Some(""))) <==> status >= 500
    ensures code != "" ==> (CliRetries(Refused(status, Some(code))) <==>
                              code == "rate_limited" || code == "unavailable" || code == "bad_gateway")
  {
  }

  /** The wait doubles: one, two, four and eight backoffs make fifteen. */
  lemma {:induction false} WaitsDouble(n: nat)
    ensures Pow2(n + 1) == 2 * Pow2(n) && Pow2(0) == 1 && Pow2(4) - 1 == 15
  {
  }

  /** Where the two clients wait out different things, exactly. */
  lemma {:induction false} TwinsAgreeExactly(a: Attempt)
    ensures PythonRetries(a) == CliRetries(a) <==>
      match a {
        case Success => true
        case Unreachable => false
        case Refused(status, None) => status >= 500 <==> status in RETRYABLE_STATUSES
        case Refused(status, Some(code)) => code == "" ==> status < 500
      }
  {
  }
}
