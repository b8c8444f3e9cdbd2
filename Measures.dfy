/**
 * The measure fetcher `get_project_measures`: one GET of the measures
 * endpoint for a component and the fixed list of metric keys, the
 * classification of the status code into success, rate limit or HTTP
 * error, the merge of the returned measures into one record, and the
 * retry policy that wraps it (at most five attempts, exponential backoff
 * clamped to [4, 10] seconds, retry on any RequestException).
 */
module Measures {
  import opened Wrappers
  import opened Errors
  import opened Retry

  /** One `{metric, value}` item of `component.measures`. */
  datatype Measure = Measure(metric: string, value: string)

  /** A measure record: metric name (and "key") to value. */
  type Record = map<string, string>

  /**
   * The query parameters of one measures request: the component, and the
   * metric names whose comma-terminated join is the "metricKeys" parameter.
   */
  datatype MeasureQuery = MeasureQuery(component: string, metricKeys: seq<string>)

  /** What one GET of the measures endpoint gives: a transport failure or a response. */
  datatype Reply =
    | Unreachable(message: string)
    | Answer(status: nat, measures: seq<Measure>)

  /** The service's reply to a query at a given attempt number (1 for the first try). */
  type Oracle = (MeasureQuery, nat) -> Reply

  // ---------------------------------------------------------------------------
  // The metric-key parameter

  const MetricKeys: seq<string> := [
    "ncloc", "functions", "classes", "files", "coverage", "duplicated_lines_density",
    "complexity", "tests", "alert_status", "violations", "blocker_violations",
    "critical_violations", "info_violations", "major_violations", "minor_violations",
    "code_smells", "maintainability_issues", "sqale_index", "sqale_rating", "bugs",
    "reliability_issues", "reliability_rating", "vulnerabilities", "security_issues",
    "security_rating"]

  /** Every name followed by a comma, the last one included. */
  function CommaTerminated(names: seq<string>): (s: string)
    ensures names != [] ==> |s| > 0 && s[|s| - 1] == ','
  {
    if names == [] then "" else names[0] + "," + CommaTerminated(names[1..])
  }

  /** Index of the first comma in `s`. */
  function FirstComma(s: string): (i: nat)
    requires ',' in s
    ensures i < |s| && s[i] == ',' && ',' !in s[..i]
  {
    if s[0] == ',' then 0 else 1 + FirstComma(s[1..])
  }

  /** `s.split(",")`: the fields between commas, an empty one after a trailing comma. */
  function Split(s: string): (fields: seq<string>)
    ensures |fields| >= 1
    decreases |s|
  {
    if ',' in s then
      var i := FirstComma(s);
      [s[..i]] + Split(s[i + 1..])
    else [s]
  }

  lemma SplitAfterName(name: string, rest: string)
    requires ',' !in name
    ensures Split(name + "," + rest) == [name] + Split(rest)
  {
    var s := name + "," + rest;
    assert s[|name|] == ',';
    assert s[..|name|] == name;
    assert FirstComma(s) == |name|;
    assert s[|name| + 1..] == rest;
  }

  /** No name contains a comma. */
  predicate CommaFree(names: seq<string>) {
    forall k :: 0 <= k < |names| ==> ',' !in names[k]
  }

  /** Splitting a comma-terminated list of comma-free names gives the names back, then "". */
  lemma {:induction false} SplitCommaTerminated(names: seq<string>)
    requires CommaFree(names)
    ensures Split(CommaTerminated(names)) == names + [""]
  {
    if names != [] {
      var tail := names[1..];
      var rest := CommaTerminated(tail);
      assert CommaFree(tail) by {
        forall k | 0 <= k < |tail| ensures ',' !in tail[k] {
          assert tail[k] == names[k + 1];
        }
      }
      calc {
        Split(CommaTerminated(names));
        Split(names[0] + "," + rest);
        { SplitAfterName(names[0], rest); }
        [names[0]] + Split(rest);
        { SplitCommaTerminated(tail); }
        [names[0]] + (tail + [""]);
        { assert names == [names[0]] + tail; }
        names + [""];
      }
    }
  }

  lemma CommaFreeKeys0()
    ensures forall k :: 0 <= k < 5 ==> ',' !in MetricKeys[k]
  {
  }

  lemma CommaFreeKeys1()
    ensures forall k :: 5 <= k < 10 ==> ',' !in MetricKeys[k]
  {
  }

  lemma CommaFreeKeys2()
    ensures forall k :: 10 <= k < 15 ==> ',' !in MetricKeys[k]
  {
  }

  lemma CommaFreeKeys3()
    ensures forall k :: 15 <= k < 20 ==> ',' !in MetricKeys[k]
  {
  }

  lemma CommaFreeKeys4()
    ensures forall k :: 20 <= k < 25 ==> ',' !in MetricKeys[k]
  {
  }

  lemma MetricKeysCommaFree()
    ensures CommaFree(MetricKeys)
  {
    CommaFreeKeys0();
    CommaFreeKeys1();
    CommaFreeKeys2();
    CommaFreeKeys3();
    CommaFreeKeys4();
  }

  /**
   * The "metricKeys" parameter: the 25 metric names in order, each followed
   * by a comma, the last one included, so that splitting it at the commas
   * gives the names back and one empty field after them.
   */
  lemma MetricKeysParamShape()
    ensures |MetricKeys| == 25
    ensures Split(CommaTerminated(MetricKeys)) == MetricKeys + [""]
    ensures CommaTerminated(MetricKeys)[|CommaTerminated(MetricKeys)| - 1] == ','
  {
    MetricKeysCommaFree();
    SplitCommaTerminated(MetricKeys);
  }

  /** The request `get_project_measures` sends for `project`. */
  function QueryFor(project: string): MeasureQuery {
    MeasureQuery(project, MetricKeys)
  }

  // ---------------------------------------------------------------------------
  // The measure record

  /** The metric names that occur in `measures`. */
  function MetricNames(measures: seq<Measure>): set<string> {
    set i | 0 <= i < |measures| :: measures[i].metric
  }

  /** No later item of `measures` names the same metric as item `i`. */
  predicate LastOfItsMetric(measures: seq<Measure>, i: nat)
    requires i < |measures|
  {
    forall j :: i < j < |measures| ==> measures[j].metric != measures[i].metric
  }

  /** The dict comprehension `{item["metric"]: item["value"] for item in measures}`, built item by item. */
  function MeasureMap(measures: seq<Measure>): (m: map<string, string>)
    ensures m.Keys == MetricNames(measures)
  {
    if measures == [] then map[]
    else
      var init := measures[..|measures| - 1];
      var item := measures[|measures| - 1];
      assert MetricNames(measures) == MetricNames(init) + {item.metric} by {
        assert forall i :: 0 <= i < |init| ==> init[i] == measures[i];
      }
      MeasureMap(init)[item.metric := item.value]
  }

  /** A metric that occurs more than once takes the value of its last occurrence. */
  lemma {:induction false} LaterMeasureWins(measures: seq<Measure>, i: nat)
    requires i < |measures| && LastOfItsMetric(measures, i)
    ensures measures[i].metric in MeasureMap(measures)
    ensures MeasureMap(measures)[measures[i].metric] == measures[i].value
  {
    var n := |measures|;
    var init := measures[..n - 1];
    assert MeasureMap(measures) == MeasureMap(init)[measures[n - 1].metric := measures[n - 1].value];
    if i < n - 1 {
      assert init[i] == measures[i];
      assert measures[n - 1].metric != measures[i].metric;
      assert LastOfItsMetric(init, i) by {
        forall j | i < j < |init| ensures init[j].metric != init[i].metric {
          assert init[j] == measures[j];
        }
      }
      LaterMeasureWins(init, i);
    }
  }

  /** `{"key": project} | {metric: value ...}`: the right operand wins on a shared key. */
  function BuildRecord(project: string, measures: seq<Measure>): (r: Record)
    ensures r.Keys == {"key"} + MetricNames(measures)
    ensures "key" !in MetricNames(measures) ==> r["key"] == project
    ensures forall i :: 0 <= i < |measures| && LastOfItsMetric(measures, i) ==> r[measures[i].metric] == measures[i].value
  {
    var m := MeasureMap(measures);
    forall i | 0 <= i < |measures| && LastOfItsMetric(measures, i)
      ensures m[measures[i].metric] == measures[i].value
    {
      LaterMeasureWins(measures, i);
    }
    map["key" := project] + m
  }

  /** When the service returns every requested metric, the record has exactly those keys and "key". */
  lemma FullRecord(project: string, measures: seq<Measure>)
    requires MetricNames(measures) == set k | k in MetricKeys
    ensures BuildRecord(project, measures).Keys == {"key"} + set k | k in MetricKeys
    ensures BuildRecord(project, measures)["key"] == project
  {
  }

  // ---------------------------------------------------------------------------
  // One attempt

  /** The statuses for which `raise_for_status` raises: client and server errors. */
  predicate IsErrorStatus(status: nat) {
    400 <= status < 600
  }

  const RateLimitStatus: nat := 429
  const RateLimitMessage: string := "Rate limit exceeded"

  predicate IsRateLimited(reply: Reply) {
    reply.Answer? && reply.status == RateLimitStatus
  }

  /**
   * The undecorated body of `get_project_measures` once the GET has
   * produced `reply`: a transport failure propagates as a RequestException,
   * 429 becomes RequestException("Rate limit exceeded"), any other error
   * status an HTTPError whose message carries it, and every other status
   * yields the merged record.
   */
  function Attempt(project: string, reply: Reply): (r: Result<Record, Error>)
    ensures r.Failure? ==> IsRequestException(r.error)
    ensures reply.Unreachable? ==> r == Failure(RequestException(reply.message))
    ensures IsRateLimited(reply) ==> r == Failure(RequestException(RateLimitMessage))
    ensures r.Success? <==> reply.Answer? && !IsErrorStatus(reply.status)
  {
    match reply
    case Unreachable(message) => Failure(RequestException(message))
    case Answer(status, measures) =>
      if !IsErrorStatus(status) then Success(BuildRecord(project, measures))
      else if status != RateLimitStatus then Failure(HTTPError(StatusMessage(status)))
      else Failure(RequestException(RateLimitMessage))
  }

  /**
   * The two other outcomes of an attempt: an error status other than 429
   * raises an HTTPError whose message carries that status, and a success
   * status yields a record keyed by "key" and the returned metric names.
   */
  lemma AttemptOutcomes(project: string, reply: Reply)
    requires reply.Answer?
    ensures IsErrorStatus(reply.status) && reply.status != RateLimitStatus ==>
              var r := Attempt(project, reply); r.Failure? && r.error.HTTPError? && StatusOf(r.error.message) == Some(reply.status)
    ensures !IsErrorStatus(reply.status) ==>
              var r := Attempt(project, reply); r.Success? && r.value.Keys == {"key"} + MetricNames(reply.measures)
  {
  }

  /** The lines an attempt prints: the rate-limit notice before a 429 is re-raised. */
  function NoticesOf(reply: Reply): seq<string> {
    if IsRateLimited(reply) then [RateLimitNotice] else []
  }

  const RateLimitNotice: string := "Rate limit exceeded. Retrying..."

  /** Attempt `i` of a call sending `query`: the reply to the `i`-th send and what the body makes of it. */
  function TriesOf(project: string, query: MeasureQuery, oracle: Oracle): nat -> Try<Record> {
    (i: nat) => Try(Attempt(project, oracle(query, i)), NoticesOf(oracle(query, i)))
  }

  /** A whole decorated call of `get_project_measures` for `project`. */
  function Measured(project: string, oracle: Oracle): Call<Record> {
    Retrying(TriesOf(project, QueryFor(project), oracle), 1)
  }

  /** `get_project_measures(project, headers)` with its retry decorator. */
  method GetProjectMeasures(project: string, oracle: Oracle) returns (r: Result<Record, Error>, trace: seq<Event>)
    ensures Call(r, trace) == Measured(project, oracle)
  {
    r, trace := CallWithRetry(TriesOf(project, QueryFor(project), oracle));
  }

  /**
   * Every error an attempt raises is retried, so a decorated call either
   * returns the record built from a successful reply to one of its five
   * attempts, or makes all five attempts and raises a RetryError wrapping
   * the fifth attempt's error.
   */
  lemma MeasuredOutcome(project: string, oracle: Oracle)
    ensures var c := Measured(project, oracle);
      var last := Attempt(project, oracle(QueryFor(project), MaxAttempts));
      && (c.result.Success? ==>
            exists n :: 1 <= n <= MaxAttempts && oracle(QueryFor(project), n).Answer? &&
              !IsErrorStatus(oracle(QueryFor(project), n).status) &&
              c.result.value == BuildRecord(project, oracle(QueryFor(project), n).measures))
      && (c.result.Failure? ==>
            last.Failure? && c.result.error == RetryError(last.error) &&
            |AttemptNumbers(c.trace)| == MaxAttempts)
  {
    var tries := TriesOf(project, QueryFor(project), oracle);
    forall i | 1 <= i <= MaxAttempts && tries(i).result.Failure?
      ensures IsRequestException(tries(i).result.error)
    {
      assert tries(i).result == Attempt(project, oracle(QueryFor(project), i));
    }
    RetryEveryError(tries, 1);
    var c := Measured(project, oracle);
    if c.result.Success? {
      var n :| 1 <= n <= MaxAttempts && c.result == tries(n).result;
      assert tries(n).result == Attempt(project, oracle(QueryFor(project), n));
    }
  }

  /**
   * A first reply of 429 prints the rate-limit notice during the first
   * attempt, right after that attempt starts and before any sleep.
   */
  lemma RateLimitNoticeFirst(project: string, oracle: Oracle)
    requires IsRateLimited(oracle(QueryFor(project), 1))
    ensures |Measured(project, oracle).trace| >= 2
    ensures Measured(project, oracle).trace[..2] == [Attempted(1), Event.Printed(RateLimitNotice)]
  {
    var tries := TriesOf(project, QueryFor(project), oracle);
    var events := AttemptEvents(tries(1), 1);
    assert tries(1).printed == [RateLimitNotice];
    assert events == [Attempted(1), Event.Printed(RateLimitNotice)];
    var c := Measured(project, oracle);
    assert c.trace[..2] == events;
  }
}
