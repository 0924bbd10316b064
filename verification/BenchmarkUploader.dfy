/** The uploader thread beside the benchmark: a FIFO queue closed by a sentinel, retried uploads,
    and a final report write that can demote what was uploaded. Result rows are named by id; the
    uploader and the benchmark share them. */
module BenchmarkUploader {
  import opened Options

  datatype Status = Skipped | Succeeded | Failed

  datatype RowState = RowState(status: Status, attempts: nat, error: Option<nat>)

  /** A row as the benchmark writes it before it is submitted. */
  const FRESH := RowState(Skipped, 0, None)

  datatype Task = Task(row: nat, evaluated: bool)

  /** What one remote call does: raise an error, or return with or without a report row. */
  datatype Outcome = Raised(error: nat) | Logged(report: bool)

  type Remote = (nat, nat) -> Outcome

  /** The first attempt from `attempt` on that does not raise, if one of the attempts allowed does not. */
  function FirstLogged(remote: Remote, row: nat, attempt: nat, last: nat): (r: Option<nat>)
    requires attempt <= last + 1
    ensures r.Some? ==>
              && attempt <= r.value <= last && remote(row, r.value).Logged?
              && forall a :: attempt <= a < r.value ==> remote(row, a).Raised?
    ensures r.None? ==> forall a :: attempt <= a <= last ==> remote(row, a).Raised?
    decreases last + 1 - attempt
  {
    if attempt > last then None
    else if remote(row, attempt).Logged? then Some(attempt)
    else FirstLogged(remote, row, attempt + 1, last)
  }

  /** What the row of a task looks like once it has been processed. */
  ghost predicate Settled(remote: Remote, retries: nat, task: Task, state: RowState) {
    if !task.evaluated then state == FRESH
    else match FirstLogged(remote, task.row, 1, retries + 1)
      case Some(a) => state == RowState(Succeeded, a, None)
      case None => state == RowState(Failed, retries + 1, Some(remote(task.row, retries + 1).error))
  }

  ghost predicate Uploads(remote: Remote, retries: nat, task: Task) {
    task.evaluated && FirstLogged(remote, task.row, 1, retries + 1).Some?
  }

  ghost predicate Reports(remote: Remote, retries: nat, task: Task) {
    Uploads(remote, retries, task)
    && remote(task.row, FirstLogged(remote, task.row, 1, retries + 1).value).report
  }

  /** The rows of the uploading tasks, in order. */
  ghost function Uploaded(remote: Remote, retries: nat, tasks: seq<Task>): seq<nat> {
    if tasks == [] then [] else
    Uploaded(remote, retries, tasks[..|tasks| - 1])
    + if Uploads(remote, retries, tasks[|tasks| - 1]) then [tasks[|tasks| - 1].row] else []
  }

  ghost function Reported(remote: Remote, retries: nat, tasks: seq<Task>): seq<nat> {
    if tasks == [] then [] else
    Reported(remote, retries, tasks[..|tasks| - 1])
    + if Reports(remote, retries, tasks[|tasks| - 1]) then [tasks[|tasks| - 1].row] else []
  }

  lemma UploadedIff(remote: Remote, retries: nat, tasks: seq<Task>, row: nat)
    ensures row in Uploaded(remote, retries, tasks) <==>
            exists t :: t in tasks && t.row == row && Uploads(remote, retries, t)
  {
    if tasks != [] {
      UploadedIff(remote, retries, tasks[..|tasks| - 1], row);
      assert tasks == tasks[..|tasks| - 1] + [tasks[|tasks| - 1]];
    }
  }

  lemma ReportedIff(remote: Remote, retries: nat, tasks: seq<Task>, row: nat)
    ensures row in Reported(remote, retries, tasks) <==>
            exists t :: t in tasks && t.row == row && Reports(remote, retries, t)
  {
    if tasks != [] {
      ReportedIff(remote, retries, tasks[..|tasks| - 1], row);
      assert tasks == tasks[..|tasks| - 1] + [tasks[|tasks| - 1]];
    }
  }

  lemma UploadedSnoc(remote: Remote, retries: nat, tasks: seq<Task>, taken: nat)
    requires taken < |tasks|
    ensures Uploaded(remote, retries, tasks[..taken + 1])
         == Uploaded(remote, retries, tasks[..taken])
           + if Uploads(remote, retries, tasks[taken]) then [tasks[taken].row] else []
    ensures Reported(remote, retries, tasks[..taken + 1])
         == Reported(remote, retries, tasks[..taken])
           + if Reports(remote, retries, tasks[taken]) then [tasks[taken].row] else []
  {
    assert tasks[..taken + 1][..taken] == tasks[..taken];
  }

  ghost predicate Distinct(tasks: seq<Task>) {
    forall i, j :: 0 <= i < j < |tasks| ==> tasks[i].row != tasks[j].row
  }

  ghost predicate RowOk(remote: Remote, retries: nat, rows: map<nat, RowState>, task: Task, processed: bool) {
    task.row in rows && if processed then Settled(remote, retries, task, rows[task.row]) else rows[task.row] == FRESH
  }

  ghost predicate RowsOk(remote: Remote, retries: nat, rows: map<nat, RowState>, tasks: seq<Task>, taken: nat) {
    forall i :: 0 <= i < |tasks| ==> RowOk(remote, retries, rows, tasks[i], i < taken)
  }

  lemma RowsOkAfter(remote: Remote, retries: nat, rows: map<nat, RowState>, rows': map<nat, RowState>,
                    tasks: seq<Task>, taken: nat)
    requires Distinct(tasks) && RowsOk(remote, retries, rows, tasks, taken) && taken < |tasks|
    requires exists state :: Settled(remote, retries, tasks[taken], state) && rows' == rows[tasks[taken].row := state]
    ensures RowsOk(remote, retries, rows', tasks, taken + 1)
  {
    hide Settled;
    forall i | 0 <= i < |tasks|
      ensures RowOk(remote, retries, rows', tasks[i], i < taken + 1)
    {
      assert RowOk(remote, retries, rows, tasks[i], i < taken);
    }
  }

  /** The queue holds what was submitted and not yet taken, in order, and then the sentinel. */
  ghost predicate QueueOk(queue: seq<Option<Task>>, tasks: seq<Task>, taken: nat, sentinel: bool) {
    && taken <= |tasks|
    && |queue| == |tasks| - taken + (if sentinel then 1 else 0)
    && (forall i :: 0 <= i < |tasks| - taken ==> queue[i] == Some(tasks[taken + i]))
    && (sentinel ==> queue[|queue| - 1] == None)
  }

  class Uploader {
    const retries: nat
    const remote: Remote
    var queue: seq<Option<Task>>
    var rows: map<nat, RowState>
    var reportRows: seq<nat>
    var uploadedRows: seq<nat>
    var stopped: bool
    ghost var submitted: seq<Task>
    ghost var taken: nat
    ghost var closed: bool

    constructor (retries: nat, remote: Remote)
      ensures Valid() && !closed && submitted == [] && this.retries == retries && this.remote == remote
    {
      this.retries, this.remote := retries, remote;
      queue, rows, reportRows, uploadedRows, stopped := [], map[], [], [], false;
      submitted, taken, closed := [], 0, false;
    }

    /** The worker has processed, in order, the first `taken` of the submitted tasks. */
    ghost predicate Valid()
      reads this
    {
      && QueueOk(queue, submitted, taken, closed && !stopped)
      && (stopped ==> closed && taken == |submitted|)
      && Distinct(submitted)
      && RowsOk(remote, retries, rows, submitted, taken)
      && uploadedRows == Uploaded(remote, retries, submitted[..taken])
      && reportRows == Reported(remote, retries, submitted[..taken])
    }

    /** Called by the benchmark with a row it has just written. */
    method Submit(task: Task)
      requires Valid() && !closed
      requires forall t :: t in submitted ==> t.row != task.row
      modifies this`queue, this`rows, this`submitted
      ensures Valid() && submitted == old(submitted) + [task]
    {
      rows := rows[task.row := FRESH];
      queue := queue + [Some(task)];
      submitted := submitted + [task];
      assert submitted[..taken] == old(submitted)[..taken];
      assert RowsOk(remote, retries, old(rows), old(submitted), taken);
    }

    method Upload(task: Task)
      modifies this`rows, this`reportRows, this`uploadedRows
      ensures exists state :: Settled(remote, retries, task, state) && rows == old(rows)[task.row := state]
      ensures uploadedRows == old(uploadedRows) + if Uploads(remote, retries, task) then [task.row] else []
      ensures reportRows == old(reportRows) + if Reports(remote, retries, task) then [task.row] else []
    {
      var attempts := 0;
      var lastError := 0;
      for attempt := 1 to retries + 2
        invariant rows == old(rows) && reportRows == old(reportRows) && uploadedRows == old(uploadedRows)
        invariant attempts == attempt - 1
        invariant attempt > 1 ==> task.evaluated && remote(task.row, attempt - 1) == Raised(lastError)
        invariant task.evaluated ==>
                    FirstLogged(remote, task.row, 1, retries + 1) == FirstLogged(remote, task.row, attempt, retries + 1)
      {
        attempts := attempt;
        if !task.evaluated {
          rows := rows[task.row := RowState(Skipped, 0, None)];
          assert Settled(remote, retries, task, FRESH);
          return;
        }
        match remote(task.row, attempt) {
          case Logged(report) =>
            if report {
              reportRows := reportRows + [task.row];
            }
            rows := rows[task.row := RowState(Succeeded, attempts, None)];
            uploadedRows := uploadedRows + [task.row];
            assert Settled(remote, retries, task, RowState(Succeeded, attempts, None));
            return;
          case Raised(error) =>
            lastError := error;
        }
      }
      rows := rows[task.row := RowState(Failed, attempts, Some(lastError))];
      assert Settled(remote, retries, task, RowState(Failed, attempts, Some(lastError)));
    }

    /** One turn of the worker thread: it takes the oldest entry, or stops at the sentinel. */
    method Work()
      requires Valid() && queue != []
      modifies this`queue, this`rows, this`reportRows, this`uploadedRows, this`stopped, this`taken
      ensures Valid() && |queue| == |old(queue)| - 1
    {
      hide Uploads, Reports, Settled, Uploaded, Reported, RowsOk;
      var entry := queue[0];
      queue := queue[1..];
      if entry.None? {
        stopped := true;
        return;
      }
      var task := entry.value;
      Upload(task);
      UploadedSnoc(remote, retries, submitted, taken);
      RowsOkAfter(remote, retries, old(rows), rows, submitted, taken);
      taken := taken + 1;
    }

    /** Queue the sentinel, wait for the worker to stop, then write the report. */
    method Close(reportFails: bool, reportError: nat)
      requires Valid() && !closed
      modifies this
      ensures stopped && submitted == old(submitted) && taken == |submitted|
      ensures uploadedRows == Uploaded(remote, retries, submitted)
      ensures reportRows == Reported(remote, retries, submitted)
      ensures forall i :: 0 <= i < |submitted| ==>
                Final(remote, retries, rows, submitted[i],
                      if reportRows != [] && reportFails then Some(reportError) else None)
    {
      queue := queue + [None];
      closed := true;
      while !stopped
        invariant Valid() && closed && submitted == old(submitted)
        decreases |queue|
      {
        Work();
      }
      assert submitted[..taken] == submitted;
      if reportRows != [] && reportFails {
        MarkFailed(reportError);
      }
    }

    method MarkFailed(error: nat)
      requires Valid() && taken == |submitted|
      modifies this`rows
      ensures forall i :: 0 <= i < |submitted| ==> Final(remote, retries, rows, submitted[i], Some(error))
    {
      hide QueueOk, Uploaded, Reported;
      ghost var before := rows;
      assert submitted[..taken] == submitted;
      for i := 0 to |uploadedRows|
        invariant rows.Keys == before.Keys
        invariant forall r :: r in before && r !in uploadedRows[..i] ==> rows[r] == before[r]
        invariant forall r :: r in before && r in uploadedRows[..i] ==>
                    rows[r] == before[r].(status := Failed, error := Some(error))
      {
        UploadedIff(remote, retries, submitted, uploadedRows[i]);
        rows := rows[uploadedRows[i] := rows[uploadedRows[i]].(status := Failed, error := Some(error))];
      }
      assert uploadedRows[..|uploadedRows|] == uploadedRows;
      forall i | 0 <= i < |submitted|
        ensures Final(remote, retries, rows, submitted[i], Some(error))
      {
        assert RowOk(remote, retries, before, submitted[i], true);
        UploadedIff(remote, retries, submitted, submitted[i].row);
        OneTaskPerRow(submitted, submitted[i]);
      }
    }
  }

  lemma OneTaskPerRow(tasks: seq<Task>, task: Task)
    requires Distinct(tasks) && task in tasks
    ensures forall t :: t in tasks && t.row == task.row ==> t == task
  {}

  /** A row after the uploader is closed: as its upload left it, unless the report write failed,
      which turns a successful upload into a failure and touches nothing else. */
  ghost predicate Final(remote: Remote, retries: nat, rows: map<nat, RowState>, task: Task, demoted: Option<nat>) {
    && task.row in rows
    && if demoted.Some? && Uploads(remote, retries, task)
       then exists s :: Settled(remote, retries, task, s)
                     && rows[task.row] == s.(status := Failed, error := demoted)
       else Settled(remote, retries, task, rows[task.row])
  }

  /** A benchmark that submits its tasks one by one, with the worker taking any number of turns in
      between, and then closes the uploader: the outcome does not depend on the interleaving. Each row
      is submitted once, as the scheduling loop does. */
  method UploadAll(retries: nat, remote: Remote, tasks: seq<Task>, reportFails: bool, reportError: nat)
      returns (rows: map<nat, RowState>, uploadedRows: seq<nat>, reportRows: seq<nat>)
    requires Distinct(tasks)
    ensures uploadedRows == Uploaded(remote, retries, tasks) && reportRows == Reported(remote, retries, tasks)
    ensures forall t :: t in tasks ==>
              && Final(remote, retries, rows, t, if reportRows != [] && reportFails then Some(reportError) else None)
              && rows[t.row].attempts <= retries + 1
              && (rows[t.row].status == Succeeded <==> t.row in uploadedRows && (reportRows == [] || !reportFails))
  {
    hide QueueOk, RowsOk, Final, Settled, Uploaded, Reported, Uploads;
    var uploader := new Uploader(retries, remote);
    for i := 0 to |tasks|
      invariant fresh(uploader) && uploader.retries == retries && uploader.remote == remote
      invariant uploader.Valid() && !uploader.closed && uploader.submitted == tasks[..i]
    {
      assert tasks[..i + 1] == tasks[..i] + [tasks[i]];
      uploader.Submit(tasks[i]);
      var turns: nat :| turns <= |uploader.queue|;
      for turn := 0 to turns
        invariant fresh(uploader) && uploader.retries == retries && uploader.remote == remote
        invariant uploader.Valid() && !uploader.closed && uploader.submitted == tasks[..i + 1]
        invariant |uploader.queue| >= turns - turn
      {
        uploader.Work();
      }
    }
    assert tasks[..|tasks|] == tasks;
    uploader.Close(reportFails, reportError);
    rows, uploadedRows, reportRows := uploader.rows, uploader.uploadedRows, uploader.reportRows;
    forall t | t in tasks
      ensures Final(remote, retries, rows, t, if reportRows != [] && reportFails then Some(reportError) else None)
      ensures t.row in rows && rows[t.row].attempts <= retries + 1
      ensures rows[t.row].status == Succeeded <==> t.row in uploadedRows && (reportRows == [] || !reportFails)
    {
      FinalMeaning(remote, retries, rows, tasks, t,
                   if reportRows != [] && reportFails then Some(reportError) else None);
    }
  }

  lemma FinalMeaning(remote: Remote, retries: nat, rows: map<nat, RowState>, tasks: seq<Task>, t: Task,
                     demoted: Option<nat>)
    requires Distinct(tasks) && t in tasks && Final(remote, retries, rows, t, demoted)
    ensures t.row in rows && rows[t.row].attempts <= retries + 1
    ensures rows[t.row].status == Succeeded <==> t.row in Uploaded(remote, retries, tasks) && demoted.None?
  {
    UploadedIff(remote, retries, tasks, t.row);
    OneTaskPerRow(tasks, t);
  }
}
