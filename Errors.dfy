/**
 * The exceptions raised by the core, after the exception classes of the
 * `requests` and `tenacity` packages, and the status-code message that the
 * page walker and the measure fetcher attach to an HTTP error.
 */
module Errors {
  import opened Wrappers

  datatype Error =
    /** `requests.exceptions.HTTPError(message)` */
    | HTTPError(message: string)
    /** `requests.exceptions.RequestException(message)` (including transport failures) */
    | RequestException(message: string)
    /** `tenacity.RetryError`, raised when every attempt failed; it wraps the last attempt's error */
    | RetryError(last: Error)

  /** In `requests`, HTTPError is a subclass of RequestException. */
  predicate IsRequestException(e: Error) {
    e.HTTPError? || e.RequestException?
  }

  const StatusPrefix: string := "Failed to retrieve data: Status code "

  predicate AllDigits(s: string) {
    forall i :: 0 <= i < |s| ==> '0' <= s[i] <= '9'
  }

  /** Decimal rendering of a natural number, as an f-string renders an int. */
  function Decimal(n: nat): (s: string)
    ensures |s| >= 1 && AllDigits(s)
  {
    if n < 10 then [('0' as int + n) as char]
    else Decimal(n / 10) + [('0' as int + n % 10) as char]
  }

  /** The number a string of decimal digits denotes. */
  function DecimalValue(s: string): nat
    requires AllDigits(s)
  {
    if s == [] then 0
    else 10 * DecimalValue(s[..|s| - 1]) + (s[|s| - 1] as int - '0' as int)
  }

  lemma {:induction false} DecimalRoundTrip(n: nat)
    ensures DecimalValue(Decimal(n)) == n
  {
    if n >= 10 {
      var s := Decimal(n);
      assert s[..|s| - 1] == Decimal(n / 10);
      DecimalRoundTrip(n / 10);
    }
  }

  /** The status code a "Failed to retrieve data" message carries, if it is one. */
  function StatusOf(message: string): Option<nat> {
    var k := |StatusPrefix|;
    if k < |message| && message[..k] == StatusPrefix && AllDigits(message[k..])
    then Some(DecimalValue(message[k..]))
    else None
  }

  /** `f"Failed to retrieve data: Status code {status}"`; the code can be read back from it. */
  function StatusMessage(status: nat): (m: string)
    ensures StatusOf(m) == Some(status)
    ensures m[..|StatusPrefix|] == StatusPrefix
  {
    var m := StatusPrefix + Decimal(status);
    assert m[|StatusPrefix|..] == Decimal(status);
    DecimalRoundTrip(status);
    m
  }
}
