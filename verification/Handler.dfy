/**
 The default job handler.
 */
module Handler {
  import opened Tables

  // JobExecutionError(message), or the dictionary that the handler returns.
  datatype Execution = Done(result: HandlerResult) | JobExecutionError(message: string)

  function Decimal(n: int): string
    decreases n < 0, if n < 0 then -n else n
  {
    if n < 0 then "-" + Decimal(-n)
    else if n < 10 then ["0123456789"[n]]
    else Decimal(n / 10) + ["0123456789"[n % 10]]
  }

  function SumOfSquares(n: int): int {
    if n <= 0 then 0 else SumOfSquares(n - 1) + (n - 1) * (n - 1)
  }

  function ExecuteJob(payload: Payload, attemptNo: int): Execution {
    match payload
    case Echo(_) => Done(Echoed(payload, attemptNo))
    case Fail(failures) =>
      if attemptNo <= failures
      then JobExecutionError("simulated transient failure on attempt " + Decimal(attemptNo))
      else Done(Recovered(attemptNo))
    case Sleep(seconds) => Done(Slept(seconds, attemptNo))
    case Compute(n) => Done(Computed(n, SumOfSquares(n), attemptNo))
    case Unsupported(action) => JobExecutionError("unsupported action: " + action)
  }

  /** Retrying can only help a `Fail` job, and exactly once its number of failures is used up:
      every other payload ends the same way on every attempt. */
  lemma RetriesHelpOnlyTransientFailures(payload: Payload, n: int, m: int)
    requires n < m
    ensures ExecuteJob(payload, n).JobExecutionError? && ExecuteJob(payload, m).Done? <==>
            payload.Fail? && n <= payload.failuresBeforeSuccess < m
    ensures ExecuteJob(payload, n).Done? ==> ExecuteJob(payload, m).Done?
  {
  }

  // Every result carries the attempt number and what the payload asked for.
  lemma ResultsAnswerThePayload(payload: Payload, attemptNo: int)
    ensures var done := ExecuteJob(payload, attemptNo);
            && (done.Done? ==> done.result.attempt == attemptNo)
            && (payload.Echo? ==> done.Done? && done.result.Echoed? && done.result.payload == payload)
            && (payload.Sleep? ==> done.Done? && done.result.Slept? && done.result.seconds == payload.seconds)
            && (payload.Fail? && done.Done? ==> done.result.Recovered?)
            && (payload.Unsupported? ==> done == JobExecutionError("unsupported action: " + payload.action))
  {
  }

  lemma {:induction false} SumOfSquaresClosedForm(n: nat)
    ensures 6 * SumOfSquares(n) == (n - 1) * n * (2 * n - 1)
  {
    if n > 0 {
      SumOfSquaresClosedForm(n - 1);
    }
  }

  /** A compute job stores its argument, its attempt and 0^2 + ... + (n - 1)^2, here in closed form;
      an argument that is not positive gives an empty sum. */
  lemma ComputedSum(n: int, attemptNo: int)
    ensures var done := ExecuteJob(Compute(n), attemptNo);
            && done.Done? && done.result.Computed? && done.result.n == n && done.result.attempt == attemptNo
            && 6 * done.result.sumOfSquares == if n > 0 then (n - 1) * n * (2 * n - 1) else 0
  {
    if n > 0 {
      SumOfSquaresClosedForm(n);
    }
  }

  function DigitValue(c: char): nat {
    if '0' <= c <= '9' then c as nat - '0' as nat else 0
  }

  // The number that a string of decimal digits denotes.
  function Number(s: string): nat {
    if s == [] then 0 else Number(s[..|s| - 1]) * 10 + DigitValue(s[|s| - 1])
  }

  lemma DigitDenotes(d: nat)
    requires d < 10
    ensures DigitValue("0123456789"[d]) == d
  {
  }

  lemma {:induction false} DecimalDenotes(n: nat)
    ensures Number(Decimal(n)) == n
  {
    DigitDenotes(n % 10);
    if n < 10 {
      assert Decimal(n)[..0] == [];
    } else {
      DecimalDenotes(n / 10);
      assert Decimal(n) == Decimal(n / 10) + ["0123456789"[n % 10]];
      assert Decimal(n)[..|Decimal(n)| - 1] == Decimal(n / 10);
    }
  }

  /** The error of a failing attempt names the attempt, so the errors of two attempts differ. */
  lemma ErrorsNameTheAttempt(k: int, n: nat, m: nat)
    requires n <= k && m <= k && n != m
    ensures ExecuteJob(Fail(k), n).JobExecutionError? && ExecuteJob(Fail(k), m).JobExecutionError?
    ensures ExecuteJob(Fail(k), n).message != ExecuteJob(Fail(k), m).message
  {
    var prefix := "simulated transient failure on attempt ";
    DecimalDenotes(n);
    DecimalDenotes(m);
    assert (prefix + Decimal(n))[|prefix|..] == Decimal(n);
    assert (prefix + Decimal(m))[|prefix|..] == Decimal(m);
  }
}
