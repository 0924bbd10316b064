/** The benchmark command after its rows are loaded: the scheduling loop, the uploader that is closed
    however the loop ends, and the report, which is written only when the loop was not aborted. */
module BenchmarkCommand {
  import opened Options
  import S = BenchmarkScheduler
  import U = BenchmarkUploader

  /** An aborted command loses the results it had; a finished one reports them. */
  datatype Ending =
    | Rejected
    | Aborted(results: map<nat, S.ResultRow>)
    | Reported(results: map<nat, S.ResultRow>, sessions: seq<S.Manifest>, caseRuns: seq<S.CaseRun>, failed: bool)

  /** What the uploader leaves: the upload state of each row handed over. */
  datatype Uploads = Uploads(handed: seq<nat>, states: map<nat, U.RowState>, reportFailed: bool)

  function TasksOf(handed: seq<nat>): (tasks: seq<U.Task>)
    ensures |tasks| == |handed| && forall i :: 0 <= i < |tasks| ==> tasks[i] == U.Task(handed[i], true)
  {
    seq(|handed|, i requires 0 <= i < |handed| => U.Task(handed[i], true))
  }

  /** A row's upload columns: as the uploader left them, and untouched when it was never handed over. */
  function UploadState(uploads: Uploads, row: nat): U.RowState {
    if row in uploads.states then uploads.states[row] else U.FRESH
  }

  /** Some attempt allowed for the row's upload succeeds. */
  ghost predicate CanUpload(remote: U.Remote, retries: nat, row: nat) {
    exists a: nat :: 1 <= a <= retries + 1 && remote(row, a).Logged?
  }

  /** The first attempt that succeeds, if any, brings back a report row. */
  ghost predicate BringsReport(remote: U.Remote, retries: nat, row: nat) {
    exists a: nat :: FirstSuccess(remote, retries, row, a) && remote(row, a).report
  }

  ghost predicate FirstSuccess(remote: U.Remote, retries: nat, row: nat, a: nat) {
    && 1 <= a <= retries + 1 && remote(row, a).Logged?
    && forall b: nat :: 1 <= b < a ==> remote(row, b).Raised?
  }

  lemma FirstLoggedMeans(remote: U.Remote, retries: nat, row: nat)
    ensures CanUpload(remote, retries, row) <==> U.FirstLogged(remote, row, 1, retries + 1).Some?
    ensures BringsReport(remote, retries, row) <==> U.Reports(remote, retries, U.Task(row, true))
  {
    var first := U.FirstLogged(remote, row, 1, retries + 1);
    if first.Some? {
      assert FirstSuccess(remote, retries, row, first.value);
      forall a: nat | FirstSuccess(remote, retries, row, a)
        ensures a == first.value
      {}
    }
  }

  /** The final report write is made when some upload brought back a report row, and may fail. */
  ghost predicate ReportFails(remote: U.Remote, retries: nat, handed: seq<nat>, reportFails: bool) {
    reportFails && exists row :: row in handed && BringsReport(remote, retries, row)
  }

  /** Every row handed over has been dealt with: it shows the number of its first successful attempt, or
      the last error after all attempts allowed, and a failed report write turns successes into
      failures. */
  ghost predicate AllDealtWith(remote: U.Remote, retries: nat, uploads: Uploads, reportError: nat) {
    && (forall row: nat :: row in uploads.states <==> row in uploads.handed)
    && forall row :: row in uploads.handed ==>
         ShowsUpload(remote, retries, row, uploads.states[row],
                     if uploads.reportFailed then Some(reportError) else None)
  }

  ghost predicate ShowsUpload(remote: U.Remote, retries: nat, row: nat, state: U.RowState, demoted: Option<nat>) {
    && (state.status == U.Succeeded <==> CanUpload(remote, retries, row) && demoted.None?)
    && (state.status != U.Succeeded ==> state.status == U.Failed)
    && (CanUpload(remote, retries, row) ==>
         FirstSuccess(remote, retries, row, state.attempts) && state.error == demoted)
    && (!CanUpload(remote, retries, row) ==>
          state.attempts == retries + 1 && state.error.Some? && remote(row, retries + 1) == U.Raised(state.error.value))
  }

  lemma FinalShows(remote: U.Remote, retries: nat, states: map<nat, U.RowState>, row: nat, demoted: Option<nat>)
    requires U.Final(remote, retries, states, U.Task(row, true), demoted)
    ensures ShowsUpload(remote, retries, row, states[row], demoted)
  {
    var first := U.FirstLogged(remote, row, 1, retries + 1);
    FirstLoggedMeans(remote, retries, row);
    if first.Some? {
      assert FirstSuccess(remote, retries, row, first.value);
    }
    hide CanUpload;
  }

  /** Run the uploader on the rows handed over, in the order the loop submitted them; its outcome does
      not depend on how its turns fall between the submissions. */
  method UploadHanded(retries: nat, remote: U.Remote, handed: seq<nat>, reportFails: bool, reportError: nat)
      returns (uploads: Uploads)
    requires forall i, j :: 0 <= i < j < |handed| ==> handed[i] != handed[j]
    ensures uploads.handed == handed && AllDealtWith(remote, retries, uploads, reportError)
    ensures uploads.reportFailed <==> ReportFails(remote, retries, handed, reportFails)
  {
    hide CanUpload, ShowsUpload, U.Final, BringsReport, U.Reports;
    var tasks := TasksOf(handed);
    var states, uploadedRows, reportRows := U.UploadAll(retries, remote, tasks, reportFails, reportError);
    ReportedMeans(retries, remote, handed, reportRows);
    var kept := map row | row in states && row in handed :: states[row];
    uploads := Uploads(handed, kept, reportRows != [] && reportFails);
    forall row | row in handed
      ensures row in kept
      ensures ShowsUpload(remote, retries, row, kept[row], if uploads.reportFailed then Some(reportError) else None)
    {
      var i :| 0 <= i < |handed| && handed[i] == row;
      assert tasks[i] in tasks;
      FinalHas(remote, retries, states, tasks[i], if uploads.reportFailed then Some(reportError) else None);
      FinalShows(remote, retries, states, row, if uploads.reportFailed then Some(reportError) else None);
    }
  }

  lemma FinalHas(remote: U.Remote, retries: nat, states: map<nat, U.RowState>, task: U.Task, demoted: Option<nat>)
    requires U.Final(remote, retries, states, task, demoted)
    ensures task.row in states
  {}

  lemma ReportedMeans(retries: nat, remote: U.Remote, handed: seq<nat>, reportRows: seq<nat>)
    requires reportRows == U.Reported(remote, retries, TasksOf(handed))
    ensures reportRows != [] <==> exists row :: row in handed && BringsReport(remote, retries, row)
  {
    hide BringsReport, U.Reports, U.Reported;
    var tasks := TasksOf(handed);
    if reportRows != [] {
      U.ReportedIff(remote, retries, tasks, reportRows[0]);
      var t :| t in tasks && t.row == reportRows[0] && U.Reports(remote, retries, t);
      var i :| 0 <= i < |tasks| && tasks[i] == t;
      FirstLoggedMeans(remote, retries, t.row);
      assert handed[i] in handed;
    }
    if row :| row in handed && BringsReport(remote, retries, row) {
      FirstLoggedMeans(remote, retries, row);
      U.ReportedIff(remote, retries, tasks, row);
      var i :| 0 <= i < |handed| && handed[i] == row;
      assert tasks[i] in tasks;
    }
  }

  const NO_UPLOADS := Uploads([], map[], false)

  lemma NothingToDo(remote: U.Remote, retries: nat, reportError: nat)
    ensures AllDealtWith(remote, retries, NO_UPLOADS, reportError)
  {}

  lemma AbortedHanded(scheduler: S.Scheduler, ok: bool, last: S.State)
    requires if ok then S.HandedOver(scheduler.uploads, scheduler.results, scheduler.handed)
             else scheduler.Aborted(last)
    ensures S.HandedOver(scheduler.uploads, scheduler.results, scheduler.handed)
    ensures forall i, j :: 0 <= i < j < |scheduler.handed| ==> scheduler.handed[i] != scheduler.handed[j]
  {}

  lemma SameResults(scheduler: S.Scheduler, ok: bool, last: S.State)
    requires if ok then last == scheduler.Value() else scheduler.Aborted(last)
    ensures scheduler.results == last.results
  {}

  /** Every result shows what the row's first returning attempt did, or its last one. */
  ghost predicate ShowsWork(work: S.Work, results: map<nat, S.ResultRow>) {
    forall row :: row in results ==> S.ShowsWork(work, row, results[row])
  }

  lemma RunShowsWork(work: S.Work, rows: nat, retries: nat, limit: nat, uploads: bool, es: seq<S.Event>, t: S.State)
    requires S.Plays(work, S.Init(rows, retries, limit, uploads), es, t)
    ensures ShowsWork(work, t.results)
  {
    S.InitInv(rows, retries, limit, uploads);
    S.InitWorked(work, rows, retries, limit, uploads);
    S.PlaysWorked(work, S.Init(rows, retries, limit, uploads), es, t);
    hide S.Inv, S.Plays, S.ShowsWork;
  }

  lemma NoneHanded(results: map<nat, S.ResultRow>)
    ensures S.HandedOver(false, results, [])
  {}

  lemma NoneMade(withUploader: bool, work: S.Work)
    ensures S.HandedOver(withUploader, map[], []) && ShowsWork(work, map[])
  {}

  /** A row of the report is marked as uploaded exactly when an uploader ran, the row succeeded with an
      evaluation, an attempt at its upload succeeded and the final report write did not fail. */
  ghost predicate UploadsShown(remote: U.Remote, retries: nat, withUploader: bool, rows: nat,
                               results: map<nat, S.ResultRow>, uploads: Uploads)
  {
    forall row: nat :: row < rows ==>
      && row in results
      && (UploadState(uploads, row).status == U.Succeeded <==>
          && withUploader && results[row].outcome == S.Returned(true)
          && CanUpload(remote, retries, row) && !uploads.reportFailed)
  }

  lemma UploadColumns(remote: U.Remote, retries: nat, withUploader: bool, rows: nat, results: map<nat, S.ResultRow>,
                      uploads: Uploads, reportError: nat, runRetries: nat, sessions: seq<S.Manifest>,
                      caseRuns: seq<S.CaseRun>)
    requires AllDealtWith(remote, retries, uploads, reportError) && S.HandedOver(withUploader, results, uploads.handed)
    requires S.Complete(rows, runRetries, results, sessions, caseRuns)
    ensures UploadsShown(remote, retries, withUploader, rows, results, uploads)
  {
    hide CanUpload, FirstSuccess;
    assert forall row: nat :: row in results <==> row < rows;
    hide S.Complete;
  }

  predicate AnyFailed(results: map<nat, S.ResultRow>) {
    exists i :: i in results && !results[i].Succeeded()
  }

  /** The benchmark's own session: its list of case runs, its summary and its status. */
  class Session {
    var children: Option<seq<S.CaseRun>>
    var summary: Option<map<nat, S.ResultRow>>
    var status: S.Manifest

    constructor ()
      ensures children == None && summary == None && status == S.Running
    {
      children, summary, status := None, None, S.Running;
    }

    /** Three writes, each of which may fail and then is the last. */
    method Finalize(scheduler: S.Scheduler) returns (ok: bool, failed: bool)
      modifies this, scheduler`clock
      ensures old(scheduler.clock) <= scheduler.clock
      ensures ok <==> scheduler.Written(old(scheduler.clock), scheduler.clock)
      ensures ok ==> scheduler.clock == old(scheduler.clock) + 3
      ensures failed <==> AnyFailed(scheduler.results)
      ensures ok ==>
                && children == Some(scheduler.allCaseRuns) && summary == Some(scheduler.results)
                && status == if failed then S.Failed else S.Completed
      ensures !ok ==> status == old(status)
    {
      failed := AnyFailed(scheduler.results);
      ok := scheduler.Write();
      if !ok {
        return;
      }
      children := Some(scheduler.allCaseRuns);
      ok := scheduler.Write();
      if !ok {
        return;
      }
      summary := Some(scheduler.results);
      ok := scheduler.Write();
      if ok {
        status := if failed then S.Failed else S.Completed;
      }
    }
  }

  ghost predicate AllWritten(writes: nat -> bool, steps: nat) {
    forall c :: 0 <= c < steps ==> writes(c)
  }

  /** `writes` tells which of the command's own session writes succeed; `steps` counts those made. */
  method Benchmark(rows: nat, retries: int, uploadRetries: int, limit: int, preflightOk: bool, withUploader: bool,
                   work: S.Work, writes: nat -> bool, remote: U.Remote, reportFails: bool, reportError: nat)
      returns (ending: Ending, uploads: Uploads, steps: nat, session: Session)
    ensures ending.Rejected? ==> uploads == NO_UPLOADS && steps == 0
    ensures ending.Rejected? <==> limit < 1 || retries < 0 || uploadRetries < 0
    ensures !ending.Rejected? ==> (ending.Reported? <==> AllWritten(writes, steps))
    ensures fresh(session)
    ensures ending.Reported? ==>
              && session.children == Some(ending.caseRuns) && session.summary == Some(ending.results)
              && session.status == if ending.failed then S.Failed else S.Completed
    ensures !ending.Reported? ==> session.status == S.Running
    ensures !ending.Rejected? ==>
              && S.HandedOver(withUploader && preflightOk, ending.results, uploads.handed)
              && AllDealtWith(remote, uploadRetries, uploads, reportError)
              && (uploads.reportFailed <==> ReportFails(remote, uploadRetries, uploads.handed, reportFails))
              && (preflightOk ==> ShowsWork(work, ending.results))
    ensures ending.Reported? ==>
              && S.Complete(rows, if preflightOk then retries else 0, ending.results, ending.sessions, ending.caseRuns)
              && (ending.failed <==> exists i :: i in ending.results && !ending.results[i].Succeeded())
              && (!preflightOk ==> forall i :: i in ending.results ==> !ending.results[i].Succeeded())
    ensures ending.Reported? ==>
              UploadsShown(remote, uploadRetries, withUploader && preflightOk, rows, ending.results, uploads)
  {
    hide S.Inv, S.Complete, S.HandedOver, AllDealtWith, UploadsShown, S.Init, S.Plays, ShowsWork, BringsReport;
    session := new Session();
    uploads, steps := NO_UPLOADS, 0;
    if limit < 1 || retries < 0 || uploadRetries < 0 {
      return Rejected, uploads, steps, session;
    }
    NothingToDo(remote, uploadRetries, reportError);
    var scheduler := new S.Scheduler(rows, retries, limit, withUploader, work, writes);
    var ok := scheduler.CreateCaseRuns();
    NoneHanded(scheduler.results);
    NoneMade(withUploader, work);
    if ok && preflightOk {
      S.InitInv(rows, retries, limit, withUploader);
      ghost var es, last;
      ok, es, last := scheduler.Run();
      RunShowsWork(work, rows, retries, limit, withUploader, es, last);
      AbortedHanded(scheduler, ok, last);
      SameResults(scheduler, ok, last);
      uploads := UploadHanded(uploadRetries, remote, scheduler.handed, reportFails, reportError);
    } else if ok {
      ok := scheduler.FailAll();
    }
    NoneHanded(scheduler.results);
    var failed := false;
    if ok {
      UploadColumns(remote, uploadRetries, withUploader && preflightOk, rows, scheduler.results, uploads,
                    reportError, if preflightOk then retries else 0, scheduler.sessions, scheduler.allCaseRuns);
      ok, failed := session.Finalize(scheduler);
    }
    steps := scheduler.clock;
    if !ok {
      return Aborted(scheduler.results), uploads, steps, session;
    }
    ending := Reported(scheduler.results, scheduler.sessions, scheduler.allCaseRuns, failed);
  }
}
