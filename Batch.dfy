/**
 * The batch loop `get_all_project_measures`: one decorated measures call
 * per selected project, in the order of the selection; the records are
 * collected in that order and the first call that raises ends the batch
 * with its error, so no later project is queried.
 */
module Batch {
  import opened Wrappers
  import opened Errors
  import opened Retry
  import opened Measures

  /** What the batch returns or raises, and the projects it queried, in order. */
  datatype BatchRun = BatchRun(outcome: Result<seq<Record>, Error>, queried: seq<string>)

  /** The batch over `projects` when fetching one project gives `fetch(project)`. */
  function Collect(projects: seq<string>, fetch: string -> Result<Record, Error>): (run: BatchRun)
    ensures |run.queried| <= |projects|
  {
    if projects == [] then BatchRun(Success([]), [])
    else
      var first := fetch(projects[0]);
      if first.Failure? then BatchRun(Failure(first.error), [projects[0]])
      else
        var rest := Collect(projects[1..], fetch);
        BatchRun(if rest.outcome.Success? then Success([first.value] + rest.outcome.value) else rest.outcome,
                 [projects[0]] + rest.queried)
  }

  /** A batch whose first part is already done: `rows` collected for the projects `done`. */
  function Resume(rows: seq<Record>, done: seq<string>, run: BatchRun): BatchRun {
    BatchRun(if run.outcome.Success? then Success(rows + run.outcome.value) else run.outcome, done + run.queried)
  }

  lemma ResumeAssociates(rows: seq<Record>, done: seq<string>, row: Record, project: string, rest: BatchRun)
    ensures Resume(rows, done, Resume([row], [project], rest)) == Resume(rows + [row], done + [project], rest)
  {
    assert done + ([project] + rest.queried) == done + [project] + rest.queried;
    if rest.outcome.Success? {
      assert rows + ([row] + rest.outcome.value) == rows + [row] + rest.outcome.value;
    }
  }

  /** Unfolding the batch that starts at project `i`: that project's call, then the rest. */
  lemma CollectFrom(projects: seq<string>, i: nat, fetch: string -> Result<Record, Error>)
    requires i < |projects|
    ensures var first := fetch(projects[i]);
            Collect(projects[i..], fetch) ==
              if first.Failure? then BatchRun(Failure(first.error), [projects[i]])
              else Resume([first.value], [projects[i]], Collect(projects[i + 1..], fetch))
  {
    assert projects[i..][1..] == projects[i + 1..];
  }

  /** One project's decorated call as the batch sees it: its result. */
  function MeasuredResult(oracle: Oracle): string -> Result<Record, Error> {
    project => Measured(project, oracle).result
  }

  /** One iteration's call of the decorated `get_project_measures`, as the batch keeps it. */
  method FetchOne(project: string, oracle: Oracle) returns (row: Result<Record, Error>)
    ensures row == MeasuredResult(oracle)(project)
  {
    var trace;
    row, trace := GetProjectMeasures(project, oracle);
  }

  /** `get_all_project_measures` over the selected `projects`; `queried` is the ghost record of the calls made. */
  method GetAllProjectMeasures(projects: seq<string>, oracle: Oracle)
    returns (r: Result<seq<Record>, Error>, ghost queried: seq<string>)
    ensures r == Collect(projects, MeasuredResult(oracle)).outcome
    ensures queried == Collect(projects, MeasuredResult(oracle)).queried
  {
    ghost var fetch := MeasuredResult(oracle);
    var rows: seq<Record> := [];
    var i := 0;
    queried := [];
    ghost var whole := Collect(projects, fetch);
    assert projects[0..] == projects;
    assert whole.outcome.Success? ==> rows + whole.outcome.value == whole.outcome.value;
    assert queried + whole.queried == whole.queried;
    while i < |projects|
      invariant 0 <= i <= |projects|
      invariant queried == projects[..i]
      invariant Collect(projects, fetch) == Resume(rows, queried, Collect(projects[i..], fetch))
    {
      var row := FetchOne(projects[i], oracle);
      CollectFrom(projects, i, fetch);
      assert projects[..i] + [projects[i]] == projects[..i + 1];
      if row.Failure? {
        r := Failure(row.error);
        queried := queried + [projects[i]];
        return;
      }
      ResumeAssociates(rows, queried, row.value, projects[i], Collect(projects[i + 1..], fetch));
      rows := rows + [row.value];
      queried := queried + [projects[i]];
      i := i + 1;
    }
    r := Success(rows);
    assert projects[i..] == [];
    assert rows + [] == rows;
    assert queried + [] == queried;
  }

  /**
   * The batch succeeds exactly when every project's call does; then it
   * holds one record per project, in the order of the selection, and it
   * queried every project.
   */
  lemma {:induction false} CollectSucceeds(projects: seq<string>, fetch: string -> Result<Record, Error>)
    ensures Collect(projects, fetch).outcome.Success? <==> forall i :: 0 <= i < |projects| ==> fetch(projects[i]).Success?
    ensures Collect(projects, fetch).outcome.Success? ==>
              var rows := Collect(projects, fetch).outcome.value;
              |rows| == |projects| && Collect(projects, fetch).queried == projects &&
              forall i :: 0 <= i < |projects| ==> rows[i] == fetch(projects[i]).value
  {
    if projects != [] {
      var tail := projects[1..];
      CollectSucceeds(tail, fetch);
      assert forall i :: 1 <= i < |projects| ==> projects[i] == tail[i - 1];
      if fetch(projects[0]).Success? && Collect(tail, fetch).outcome.Success? {
        var rows := Collect(projects, fetch).outcome.value;
        assert rows == [fetch(projects[0]).value] + Collect(tail, fetch).outcome.value;
        assert projects == [projects[0]] + tail;
      }
    }
  }

  /**
   * A failed batch raises the error of the first project whose call
   * raised; every earlier call succeeded and no later project was queried.
   */
  lemma {:induction false} CollectAborts(projects: seq<string>, fetch: string -> Result<Record, Error>)
    requires Collect(projects, fetch).outcome.Failure?
    ensures var run := Collect(projects, fetch);
            exists k :: 0 <= k < |projects| && fetch(projects[k]) == Failure(run.outcome.error) &&
                        run.queried == projects[..k + 1] &&
                        forall j :: 0 <= j < k ==> fetch(projects[j]).Success?
  {
    var run := Collect(projects, fetch);
    var tail := projects[1..];
    if fetch(projects[0]).Success? {
      CollectAborts(tail, fetch);
      var k :| 0 <= k < |tail| && fetch(tail[k]) == Failure(Collect(tail, fetch).outcome.error) &&
               Collect(tail, fetch).queried == tail[..k + 1] &&
               forall j :: 0 <= j < k ==> fetch(tail[j]).Success?;
      assert projects[k + 1] == tail[k];
      assert projects[..k + 2] == [projects[0]] + tail[..k + 1];
      forall j | 0 <= j < k + 1
        ensures fetch(projects[j]).Success?
      {
        if j > 0 {
          assert projects[j] == tail[j - 1];
        }
      }
    } else {
      assert projects[..1] == [projects[0]];
    }
  }
}
