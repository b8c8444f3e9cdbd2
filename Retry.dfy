/**
 * The retry decorator on `get_project_measures`:
 * `retry(stop=stop_after_attempt(5), wait=wait_exponential(multiplier=1, min=4, max=10),
 * retry=retry_if_exception_type(RequestException))`, as a combinator over
 * what each attempt of the wrapped call produces. Without `reraise`, a call
 * whose last permitted attempt fails raises a RetryError wrapping that
 * attempt's error.
 */
module Retry {
  import opened Wrappers
  import opened Errors

  const MaxAttempts: nat := 5
  const WaitMin: nat := 4
  const WaitMax: nat := 10

  function Pow2(e: nat): (r: nat)
    ensures r >= 1
  {
    if e == 0 then 1 else 2 * Pow2(e - 1)
  }

  lemma {:induction false} Pow2Monotone(a: nat, b: nat)
    requires a <= b
    ensures Pow2(a) <= Pow2(b)
  {
    if a < b { Pow2Monotone(a, b - 1); }
  }

  /** Seconds slept after failed attempt number `attempt`: 2^(attempt-1) clamped to [4, 10]. */
  function Backoff(attempt: nat): (w: nat)
    requires attempt >= 1
    ensures WaitMin <= w <= WaitMax
  {
    var e := Pow2(attempt - 1);
    if e < WaitMin then WaitMin else if e > WaitMax then WaitMax else e
  }

  /** Waits never shrink from one attempt to the next. */
  lemma BackoffMonotone(a: nat, b: nat)
    requires 1 <= a <= b
    ensures Backoff(a) <= Backoff(b)
  {
    Pow2Monotone(a - 1, b - 1);
  }

  /** What one attempt of the wrapped call does: its result or raised error, and the lines it prints. */
  datatype Try<+T> = Try(result: Result<T, Error>, printed: seq<string>)

  /** What a call shows on the console and in time: attempts, printed lines, sleeps. */
  datatype Event = Attempted(number: nat) | Printed(line: string) | Slept(seconds: nat)

  /** A decorated call's result (or raised error) and its trace of events. */
  datatype Call<+T> = Call(result: Result<T, Error>, trace: seq<Event>)

  /** The events of attempt `attempt`: the attempt, then what it printed. */
  function AttemptEvents<T>(t: Try<T>, attempt: nat): seq<Event> {
    [Attempted(attempt)] + seq(|t.printed|, i requires 0 <= i < |t.printed| => Printed(t.printed[i]))
  }

  /** `retry_if_exception_type(RequestException)` */
  predicate Retryable<T>(r: Result<T, Error>) {
    r.Failure? && IsRequestException(r.error)
  }

  /** Attempts `attempt`, `attempt + 1`, ... of a decorated call whose attempt `i` behaves as `tries(i)`. */
  function Retrying<T>(tries: nat -> Try<T>, attempt: nat): Call<T>
    requires 1 <= attempt <= MaxAttempts
    decreases MaxAttempts - attempt
  {
    var t := tries(attempt);
    var events := AttemptEvents(t, attempt);
    if !Retryable(t.result) then Call(t.result, events)
    else if attempt == MaxAttempts then Call(Failure(RetryError(t.result.error)), events)
    else
      var rest := Retrying(tries, attempt + 1);
      Call(rest.result, events + [Slept(Backoff(attempt))] + rest.trace)
  }

  /** The decorated call: attempts until one is not retryable or attempt 5 has failed. */
  method CallWithRetry<T>(tries: nat -> Try<T>) returns (r: Result<T, Error>, trace: seq<Event>)
    ensures Call(r, trace) == Retrying(tries, 1)
  {
    var attempt := 1;
    trace := [];
    assert trace + Retrying(tries, 1).trace == Retrying(tries, 1).trace;
    while true
      invariant 1 <= attempt <= MaxAttempts
      invariant Retrying(tries, 1) == Call(Retrying(tries, attempt).result, trace + Retrying(tries, attempt).trace)
      decreases MaxAttempts - attempt
    {
      var t := tries(attempt);
      var events := AttemptEvents(t, attempt);
      if !Retryable(t.result) {
        r, trace := t.result, trace + events;
        return;
      }
      if attempt == MaxAttempts {
        r, trace := Failure(RetryError(t.result.error)), trace + events;
        return;
      }
      var step := events + [Slept(Backoff(attempt))];
      ghost var rest := Retrying(tries, attempt + 1);
      assert trace + (step + rest.trace) == (trace + step) + rest.trace;
      trace := trace + step;
      attempt := attempt + 1;
    }
  }

  // ---------------------------------------------------------------------------
  // Properties of the policy

  /** The attempt numbers recorded in a trace, in order. */
  function AttemptNumbers(trace: seq<Event>): seq<nat> {
    if trace == [] then []
    else (if trace[0].Attempted? then [trace[0].number] else []) + AttemptNumbers(trace[1..])
  }

  lemma {:induction false} AttemptNumbersConcat(x: seq<Event>, y: seq<Event>)
    ensures AttemptNumbers(x + y) == AttemptNumbers(x) + AttemptNumbers(y)
  {
    if x == [] {
      assert x + y == y;
    } else {
      var head := if x[0].Attempted? then [x[0].number] else [];
      assert (x + y)[0] == x[0];
      assert (x + y)[1..] == x[1..] + y;
      calc {
        AttemptNumbers(x + y);
        head + AttemptNumbers(x[1..] + y);
        { AttemptNumbersConcat(x[1..], y); }
        head + (AttemptNumbers(x[1..]) + AttemptNumbers(y));
        head + AttemptNumbers(x[1..]) + AttemptNumbers(y);
        AttemptNumbers(x) + AttemptNumbers(y);
      }
    }
  }

  lemma {:induction false} NoAttemptNumbers(trace: seq<Event>)
    requires forall j :: 0 <= j < |trace| ==> !trace[j].Attempted?
    ensures AttemptNumbers(trace) == []
  {
    if trace != [] {
      NoAttemptNumbers(trace[1..]);
    }
  }

  /** One attempt and the sleep after it record exactly that attempt's number. */
  lemma StepNumbers<T>(t: Try<T>, attempt: nat, w: nat)
    ensures AttemptNumbers(AttemptEvents(t, attempt)) == [attempt]
    ensures AttemptNumbers(AttemptEvents(t, attempt) + [Slept(w)]) == [attempt]
  {
    var e := AttemptEvents(t, attempt);
    assert e == [Attempted(attempt)] + e[1..];
    NoAttemptNumbers(e[1..]);
    AttemptNumbersConcat([Attempted(attempt)], e[1..]);
    assert [Attempted(attempt)][1..] == [];
    NoAttemptNumbers([Slept(w)]);
    AttemptNumbersConcat(e, [Slept(w)]);
  }

  /** The retry bound: a call makes attempts a, a+1, ..., each once, and none past attempt 5. */
  lemma {:induction false} RetryAttempts<T>(tries: nat -> Try<T>, a: nat)
    requires 1 <= a <= MaxAttempts
    ensures var ns := AttemptNumbers(Retrying(tries, a).trace);
      1 <= |ns| <= MaxAttempts - a + 1 && forall i :: 0 <= i < |ns| ==> ns[i] == a + i
    decreases MaxAttempts - a
  {
    var t := tries(a);
    var events := AttemptEvents(t, a);
    StepNumbers(t, a, Backoff(a));
    if Retryable(t.result) && a < MaxAttempts {
      var rest := Retrying(tries, a + 1);
      RetryAttempts(tries, a + 1);
      AttemptNumbersConcat(events + [Slept(Backoff(a))], rest.trace);
      var ns := AttemptNumbers(Retrying(tries, a).trace);
      var more := AttemptNumbers(rest.trace);
      assert ns == [a] + more;
      forall i | 0 <= i < |ns| ensures ns[i] == a + i {
        if i > 0 { assert ns[i] == more[i - 1]; }
      }
    }
  }

  /**
   * The result of a call: it is that of the first attempt from `a` on that is
   * not retryable; when attempts `a` to 5 all fail retryably it is a
   * RetryError wrapping the fifth attempt's error.
   */
  lemma {:induction false} RetryResult<T>(tries: nat -> Try<T>, a: nat)
    requires 1 <= a <= MaxAttempts
    ensures var c := Retrying(tries, a);
      && (forall n :: (a <= n <= MaxAttempts && !Retryable(tries(n).result) &&
                      forall j :: a <= j < n ==> Retryable(tries(j).result)) ==>
            c.result == tries(n).result)
      && ((forall i :: a <= i <= MaxAttempts ==> Retryable(tries(i).result)) ==>
            c.result == Failure(RetryError(tries(MaxAttempts).result.error)))
    decreases MaxAttempts - a
  {
    if Retryable(tries(a).result) && a < MaxAttempts {
      RetryResult(tries, a + 1);
      var c := Retrying(tries, a);
      assert c.result == Retrying(tries, a + 1).result;
      forall n | a <= n <= MaxAttempts && !Retryable(tries(n).result) &&
                 (forall j :: a <= j < n ==> Retryable(tries(j).result))
        ensures c.result == tries(n).result
      {
        assert n != a;
      }
    }
  }

  /** Every sleep of a call lasts 4 to 10 seconds. */
  lemma {:induction false} RetryWaits<T>(tries: nat -> Try<T>, a: nat)
    requires 1 <= a <= MaxAttempts
    ensures var tr := Retrying(tries, a).trace;
      forall j :: 0 <= j < |tr| && tr[j].Slept? ==> WaitMin <= tr[j].seconds <= WaitMax
    decreases MaxAttempts - a
  {
    var t := tries(a);
    var events := AttemptEvents(t, a);
    assert forall j :: 0 <= j < |events| ==> !events[j].Slept?;
    if Retryable(t.result) && a < MaxAttempts {
      RetryWaits(tries, a + 1);
      var rest := Retrying(tries, a + 1).trace;
      var tr := events + [Slept(Backoff(a))] + rest;
      assert Retrying(tries, a).trace == tr;
      forall j | 0 <= j < |tr| && tr[j].Slept? ensures WaitMin <= tr[j].seconds <= WaitMax {
        if j > |events| {
          assert tr[j] == rest[j - |events| - 1];
        }
      }
    }
  }

  /**
   * When every error an attempt can raise is a RequestException, a call
   * either returns the result of one of its attempts or, after making every
   * attempt up to the fifth, raises a RetryError wrapping the fifth error.
   */
  lemma {:induction false} RetryEveryError<T>(tries: nat -> Try<T>, a: nat)
    requires 1 <= a <= MaxAttempts
    requires forall i :: a <= i <= MaxAttempts && tries(i).result.Failure? ==> IsRequestException(tries(i).result.error)
    ensures var c := Retrying(tries, a);
      && (c.result.Success? ==> exists n :: a <= n <= MaxAttempts && c.result == tries(n).result)
      && (c.result.Failure? ==>
            c.result == Failure(RetryError(tries(MaxAttempts).result.error)) &&
            |AttemptNumbers(c.trace)| == MaxAttempts - a + 1)
    decreases MaxAttempts - a
  {
    var t := tries(a);
    var events := AttemptEvents(t, a);
    StepNumbers(t, a, Backoff(a));
    if t.result.Failure? && a < MaxAttempts {
      RetryEveryError(tries, a + 1);
      var rest := Retrying(tries, a + 1);
      AttemptNumbersConcat(events + [Slept(Backoff(a))], rest.trace);
      assert Retrying(tries, a) == Call(rest.result, events + [Slept(Backoff(a))] + rest.trace);
    } else if t.result.Failure? {
      assert AttemptNumbers(Retrying(tries, a).trace) == [a];
    }
  }
}
