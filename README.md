# SonarCloud metrics collector, modelled in Dafny

This project models the core of `src/scripts/sonarcloud_metrics.py`. That
script lists an organisation's projects through the SonarCloud project
search, one page at a time. It then fetches a fixed set of 25 measures for
each selected project and collects the records into a table. The model
covers four parts:

- `Paging.dfy` models `ProjParams` and `fetch_all_pages`.
  - `ProjParams` is a class whose page counter `p` the walker advances in place.
  - `FetchAllPages` is the `while True` loop. It is proved equal to the
    recursive specification `Walk`, and the lemmas about `Walk` state the
    error exit, the output order, the continuation rule and the request count.
- `Measures.dfy` models the body of `get_project_measures`:
  - the comma-terminated metric-key list. The code only sends this string as a
    query parameter. `Measures.Split`, a model of Python's `split(",")`, is the
    model's own reference reader, used to state that the string lists the 25
    names in order;
  - the dict comprehension and the `|` merge that build the record;
  - the three-way classification of the status code.

  `GetProjectMeasures` is the decorated call.
- `Retry.dfy` models the tenacity decorator as a combinator over what each
  attempt produces. It stops after attempt 5, waits `2^(n-1)` seconds
  clamped to [4, 10] after failed attempt `n`, and retries any
  `RequestException`. Without `reraise`, it raises a `RetryError` that wraps
  the fifth error.
- `Batch.dfy` models `get_all_project_measures`: one decorated call per
  selected project, in order. The first call that raises ends the batch.

`Errors.dfy` holds the exception classes and the message
"Failed to retrieve data: Status code N". It also proves that the status code
can be read back from that message. `Wrappers.dfy` holds `Option` and `Result`.

The HTTP service is not modelled directly. Two functions stand in for it:

- `Paging.Server` maps the query parameters of a request (a snapshot of
  `ProjParams`) to a status, a component list and an optional `paging` object.
- `Measures.Oracle` maps a measures query and the attempt number to a
  transport failure or to a status with its measures list. The attempt
  number is a parameter so that successive retries can see different answers.

Printed lines are kept as events in a trace. This covers the rate-limit
notice and, in the retry model, each attempt and each sleep.

The re-raise at line 136 of `sonarcloud_metrics.py` reads as if an error
status other than 429 were meant to fail at once. But `HTTPError` in
`requests` is a subclass of `RequestException`, so the predicate
`retry_if_exception_type(RequestException)` also retries that `HTTPError`.
The model follows what the code does: `Measures.MeasuredOutcome` proves
that every failing call made all five attempts.

## Model

| member | source | states |
|---|---|---|
| Paging.ProjParams.constructor | src/scripts/sonarcloud_metrics.py:19-22 | The parameter record holds the given organisation, page and page size. |
| Paging.FetchAllPages | src/scripts/sonarcloud_metrics.py:25-53 | The loop returns or raises what the walk specification `Walk` gives for the starting parameters. Its ghost request log equals the walk's requests, in order. It leaves `params.p` at the page of the last request and leaves `organization` and `ps` unchanged. |
| Paging.WalkRequests | src/scripts/sonarcloud_metrics.py:38-52 | Request `i` of a walk asks for page `p + i` with the same organisation and page size. Every request but the last got status 200 and passed the test "`paging` present and `total > p * ps`". The last request failed one of the two. |
| Paging.WalkOutcome | src/scripts/sonarcloud_metrics.py:38-46 | A walk whose last response is not 200 raises an HTTPError that carries that status, and returns no partial list. Otherwise it returns the concatenation of every requested page's components, in request order. |
| Paging.WalkStep | src/scripts/sonarcloud_metrics.py:41-50 | A 200 page that passes the continuation test contributes its components and its query, and the walk goes on from the next page of the same listing. |
| Paging.WalkStops | src/scripts/sonarcloud_metrics.py:41-52 | A page that is not 200 ends the walk with an HTTPError carrying its status. A 200 page that fails the continuation test ends the walk with only its own components. Either way it is the walk's only remaining request. |
| Paging.WalkAdvance | src/scripts/sonarcloud_metrics.py:46-50 | A walk in progress that moves to the next page has the current page's components appended to what it collected, and the current query appended to what it sent. |
| Paging.NoPagingStops | src/scripts/sonarcloud_metrics.py:49-52 | A 200 response without `paging` ends the walk after that one request and returns its components. |
| Paging.RequestCountFrom | src/scripts/sonarcloud_metrics.py:39-52 | Against a listing that always reports total `n`, a walk from page `p` makes `ceil(n/ps) - p + 1` requests if `p < ceil(n/ps)`, and otherwise exactly one. |
| Paging.RequestCount | src/scripts/sonarcloud_metrics.py:39-52 | With total `n`, page size `k >= 1` and a start at page 1, a walk makes max(1, ceil(n/k)) requests and succeeds. Its final page counter equals the number of requests. |
| Paging.TwoPageListing | tests/test_sonarcloud_metrics.py:26-35 | For the two fixture pages (page size 1, total 2), the walk makes two requests and returns two components, "statisticsnorway_ssb-timeseries" and then "statisticsnorway_tech-coach-examples". |
| Paging.NotFoundFirstPage | tests/test_sonarcloud_metrics.py:43-52 | For a first-page 404, the walk makes exactly one request and raises an HTTPError whose message carries 404. |
| Errors.StatusMessage | src/scripts/sonarcloud_metrics.py:42-44 | The error message starts with "Failed to retrieve data: Status code " and the status code can be read back from it. |
| Errors.DecimalRoundTrip | src/scripts/sonarcloud_metrics.py:43 | The decimal rendering of a status code reads back as that code. |
| Measures.SplitCommaTerminated | src/scripts/sonarcloud_metrics.py:99-125 | Splitting a comma-terminated list of comma-free names at the commas gives the names in order, then one empty field. |
| Measures.MetricKeysParamShape | src/scripts/sonarcloud_metrics.py:99-125 | The `metricKeys` parameter lists exactly the 25 metric names in order. Each name, the last included, is followed by a comma. |
| Measures.MeasureMap | src/scripts/sonarcloud_metrics.py:145 | The comprehension's keys are exactly the metric names the service returned. |
| Measures.LaterMeasureWins | src/scripts/sonarcloud_metrics.py:145 | A metric returned more than once takes the value of its last occurrence. |
| Measures.BuildRecord | src/scripts/sonarcloud_metrics.py:145 | The record's keys are {"key"} plus the returned metric names. "key" maps to the project unless a measure named "key" was returned. Each metric maps to the value of its last occurrence. |
| Measures.FullRecord | src/scripts/sonarcloud_metrics.py:99-145 | When the service returns exactly the requested metrics, the record's keys are "key" and the 25 names, and "key" maps to the project. |
| Measures.Attempt | src/scripts/sonarcloud_metrics.py:131-145 | Every error an attempt raises is a RequestException. A transport failure propagates unchanged. Status 429 becomes RequestException("Rate limit exceeded"). The attempt succeeds exactly when the reply has a status below 400 or from 600 up. |
| Measures.AttemptOutcomes | src/scripts/sonarcloud_metrics.py:134-145 | An error status other than 429 raises an HTTPError whose message carries that status. A success status yields a record keyed by "key" and the returned metric names. |
| Measures.RateLimitNoticeFirst | src/scripts/sonarcloud_metrics.py:134-140 | When the first reply is 429, the call's trace opens with attempt 1 and then the notice "Rate limit exceeded. Retrying...", before any sleep. |
| Measures.GetProjectMeasures | src/scripts/sonarcloud_metrics.py:93-145 | The decorated call returns what the retry policy makes of the attempts that send the query for the project, together with the trace of attempts, printed notices and sleeps. |
| Measures.MeasuredOutcome | src/scripts/sonarcloud_metrics.py:93-97 | A decorated call either returns the record built from a successful reply to one of its five attempts, or makes all five attempts and raises a RetryError that wraps the fifth attempt's error. The second case also covers non-429 error statuses. |
| Retry.Backoff | src/scripts/sonarcloud_metrics.py:95 | Every wait lies between 4 and 10 seconds. |
| Retry.BackoffMonotone | src/scripts/sonarcloud_metrics.py:95 | Waits never shrink from one attempt to the next. |
| Retry.CallWithRetry | src/scripts/sonarcloud_metrics.py:93-97 | The attempt loop returns the result and trace that the retry specification `Retrying` gives from attempt 1. |
| Retry.RetryAttempts | src/scripts/sonarcloud_metrics.py:94 | A call makes attempts 1, 2, … in order, each once, and at most 5. |
| Retry.RetryResult | src/scripts/sonarcloud_metrics.py:93-97 | A call returns the result of its first non-retryable attempt. If all five attempts fail retryably, it raises a RetryError that wraps the fifth attempt's error. |
| Retry.RetryWaits | src/scripts/sonarcloud_metrics.py:95 | Every sleep in a call's trace lasts between 4 and 10 seconds. |
| Retry.RetryEveryError | src/scripts/sonarcloud_metrics.py:96 | When every error an attempt can raise is a RequestException, the call returns one attempt's success, or it makes every attempt and raises a RetryError that wraps the fifth error. |
| Batch.Collect | src/scripts/sonarcloud_metrics.py:148-155 | The batch never queries more projects than were selected. |
| Batch.FetchOne | src/scripts/sonarcloud_metrics.py:154 | One iteration's call yields the decorated call's result for that project. |
| Batch.GetAllProjectMeasures | src/scripts/sonarcloud_metrics.py:148-155 | The loop returns or raises what the batch specification `Collect` gives for the selected projects. Its ghost log of queried projects equals the projects `Collect` queries, in that order. |
| Batch.CollectSucceeds | src/scripts/sonarcloud_metrics.py:151-155 | The batch succeeds exactly when every project's call succeeds. It then holds one record per project, in selection order, and has queried every project. |
| Batch.CollectAborts | src/scripts/sonarcloud_metrics.py:151-154 | A failed batch raises the error of the first project whose call raised. Every earlier call succeeded, and no later project was queried. |

## Left out

- HTTP transport is replaced by `Paging.Server` and `Measures.Oracle`. This covers `requests.get`, the URLs, the headers, the 10-second timeout and `response.json()`.
- `raise_for_status` comes from the `requests` package, which is not part of this model. It is taken to raise for status codes 400 to 599.
- A response body that lacks `components`, `paging.total` or `component.measures`, a `KeyError` from it, and malformed JSON are not modelled. Every response is assumed to carry the fields the code reads.
- Paging.FetchAllPages: requires `ps >= 1` and a bound on every total the server reports for the pages of the starting organisation and page size. The bound gives the walk a termination measure. A server whose totals for that listing grow without limit is not modelled, and neither is the case `ps <= 0`, where the original never stops while the total is positive.
- Paging.RequestCount: the request count is stated only for a listing whose every response is 200 with the same total. A total that changes between pages is covered by `Paging.WalkRequests` instead.
- Retry: tenacity's internals are not part of this model. The real sleeping, the clock and statistics are left out. Only the stop rule, the clamped exponential wait and the retry predicate are modelled, and sleeps are trace events.
- Real console output is left out. Each `print` becomes at most a trace event: the rate-limit notice is recorded, the batch progress line is not.
- `get_selected_projects` reads the project list from a file, and that file input is left out. `Batch.GetAllProjectMeasures` takes the list as a parameter.
- The pandas DataFrame construction and the Excel/CSV export are left out. So are `get_all_projects` and `save_project_keys`. The batch returns the list of records that becomes the table.
- `main`, `load_dotenv` and the environment token are configuration and entry point, so they are left out.
- `get_and_save_metrics` is an unfinished placeholder with no behaviour to model.
- Status codes are natural numbers. The model does not represent the class hierarchy of `requests` exceptions beyond the fact that an HTTPError is a RequestException.
