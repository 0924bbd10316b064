/** The limiter that the judgings of concurrently running benchmark rows share: one bounded semaphore
    for the agent calls of all of them. When a call fails, the judging fails with it; its other calls
    go on until they are answered, or are cancelled when the row's event loop ends. */
module JudgeLimiter {

  /** The snapshots of one judging: waiting for the limiter, being asked about, answered, and lost to
      a failure or a cancellation. */
  datatype Job = Job(waiting: set<string>, running: set<string>, done: set<string>, lost: set<string>)

  /** `inUse` is the semaphore's count of slots taken. */
  datatype State = State(limit: nat, inUse: nat, jobs: seq<Job>)

  /** A judging joins with its pending snapshots; a worker takes a slot; an answer, a failure or a
      cancellation gives it back; a waiting worker of a failed judging is cancelled without one. */
  datatype Event =
    | Join(pending: set<string>)
    | Acquire(job: nat, snapshot: string)
    | Release(job: nat, snapshot: string, answered: bool)
    | Cancel(job: nat, snapshot: string)

  predicate Enabled(st: State, e: Event) {
    match e
    case Join(pending) => true
    case Acquire(j, h) => j < |st.jobs| && h in st.jobs[j].waiting && st.inUse < st.limit
    case Release(j, h, answered) => j < |st.jobs| && h in st.jobs[j].running && st.inUse > 0
    case Cancel(j, h) => j < |st.jobs| && h in st.jobs[j].waiting && st.jobs[j].lost != {}
  }

  function Step(st: State, e: Event): State
    requires Enabled(st, e)
  {
    match e
    case Join(pending) => st.(jobs := st.jobs + [Job(pending, {}, {}, {})])
    case Acquire(j, h) => st.(inUse := st.inUse + 1, jobs := st.jobs[j := Taken(st.jobs[j], h)])
    case Release(j, h, answered) =>
      st.(inUse := st.inUse - 1, jobs := st.jobs[j := Ended(st.jobs[j], h, answered)])
    case Cancel(j, h) => st.(jobs := st.jobs[j := Cancelled(st.jobs[j], h)])
  }

  function Taken(job: Job, h: string): Job {
    job.(waiting := job.waiting - {h}, running := job.running + {h})
  }

  function Ended(job: Job, h: string, answered: bool): Job {
    if answered then job.(running := job.running - {h}, done := job.done + {h})
    else job.(running := job.running - {h}, lost := job.lost + {h})
  }

  function Cancelled(job: Job, h: string): Job {
    job.(waiting := job.waiting - {h}, lost := job.lost + {h})
  }

  /** How many calls are in flight, over all judgings. */
  ghost function InFlight(jobs: seq<Job>): nat {
    if jobs == [] then 0 else InFlight(jobs[..|jobs| - 1]) + |jobs[|jobs| - 1].running|
  }

  /** What is left to do: a waiting call must still take its slot and give it back. */
  ghost function Left(jobs: seq<Job>): nat {
    if jobs == [] then 0
    else Left(jobs[..|jobs| - 1]) + 2 * |jobs[|jobs| - 1].waiting| + |jobs[|jobs| - 1].running|
  }

  lemma {:induction false} JobChanges(jobs: seq<Job>, j: nat, job: Job)
    requires j < |jobs|
    ensures InFlight(jobs[j := job]) == InFlight(jobs) - |jobs[j].running| + |job.running|
    ensures Left(jobs[j := job])
         == Left(jobs) - 2 * |jobs[j].waiting| - |jobs[j].running| + 2 * |job.waiting| + |job.running|
  {
    var n := |jobs| - 1;
    if j < n {
      assert jobs[j := job][..n] == jobs[..n][j := job];
      JobChanges(jobs[..n], j, job);
    } else {
      assert jobs[j := job][..n] == jobs[..n];
    }
  }

  lemma JobJoins(jobs: seq<Job>, job: Job)
    ensures InFlight(jobs + [job]) == InFlight(jobs) + |job.running|
    ensures Left(jobs + [job]) == Left(jobs) + 2 * |job.waiting| + |job.running|
  {
    assert (jobs + [job])[..|jobs|] == jobs;
  }

  ghost predicate JobOk(job: Job) {
    && job.waiting !! job.running && job.waiting !! job.done && job.waiting !! job.lost
    && job.running !! job.done && job.running !! job.lost && job.done !! job.lost
  }

  ghost predicate Inv(st: State) {
    && st.inUse == InFlight(st.jobs) <= st.limit
    && forall j :: 0 <= j < |st.jobs| ==> JobOk(st.jobs[j])
  }

  lemma OneLess(s: set<string>, h: string)
    requires h in s
    ensures |s - {h}| == |s| - 1
  {}

  lemma TakenCounts(job: Job, h: string)
    requires JobOk(job) && h in job.waiting
    ensures JobOk(Taken(job, h))
    ensures |Taken(job, h).running| == |job.running| + 1 && |Taken(job, h).waiting| == |job.waiting| - 1
  {
    OneLess(job.waiting, h);
  }

  lemma EndedCounts(job: Job, h: string, answered: bool)
    requires JobOk(job) && h in job.running
    ensures JobOk(Ended(job, h, answered)) && Ended(job, h, answered).waiting == job.waiting
    ensures |Ended(job, h, answered).running| == |job.running| - 1
  {
    OneLess(job.running, h);
  }

  lemma CancelledCounts(job: Job, h: string)
    requires JobOk(job) && h in job.waiting
    ensures JobOk(Cancelled(job, h)) && Cancelled(job, h).running == job.running
    ensures |Cancelled(job, h).waiting| == |job.waiting| - 1
  {
    OneLess(job.waiting, h);
  }

  /** Replacing one judging with the slots it takes or gives back counted. */
  lemma JobMoves(st: State, j: nat, moved: Job, inUse: nat)
    requires Inv(st) && j < |st.jobs| && JobOk(moved)
    requires inUse == st.inUse - |st.jobs[j].running| + |moved.running| <= st.limit
    requires 2 * |moved.waiting| + |moved.running| < 2 * |st.jobs[j].waiting| + |st.jobs[j].running|
    ensures Inv(st.(inUse := inUse, jobs := st.jobs[j := moved]))
    ensures Left(st.jobs[j := moved]) < Left(st.jobs)
  {
    hide JobOk;
    JobChanges(st.jobs, j, moved);
  }

  lemma StepKeeps(st: State, e: Event)
    requires Inv(st) && Enabled(st, e)
    ensures Inv(Step(st, e)) && Step(st, e).limit == st.limit
    ensures if e.Join? then Left(Step(st, e).jobs) == Left(st.jobs) + 2 * |e.pending|
            else Left(Step(st, e).jobs) < Left(st.jobs)
  {
    hide Taken, Ended, Cancelled;
    match e
    case Join(pending) => JobJoins(st.jobs, Job(pending, {}, {}, {}));
    case Acquire(j, h) =>
      TakenCounts(st.jobs[j], h);
      hide JobOk;
      JobMoves(st, j, Taken(st.jobs[j], h), st.inUse + 1);
    case Release(j, h, answered) =>
      EndedCounts(st.jobs[j], h, answered);
      hide JobOk;
      JobMoves(st, j, Ended(st.jobs[j], h, answered), st.inUse - 1);
    case Cancel(j, h) =>
      CancelledCounts(st.jobs[j], h);
      hide JobOk;
      JobMoves(st, j, Cancelled(st.jobs[j], h), st.inUse);
  }

  /** A call that ends always has a slot to give back, so releasing the semaphore never raises. */
  lemma ReleaseNeverRaises(st: State, j: nat, h: string, answered: bool)
    requires Inv(st) && j < |st.jobs| && h in st.jobs[j].running
    ensures Enabled(st, Release(j, h, answered))
  {
    RunningWithin(st.jobs, j);
  }

  /** `t` is reached from `s` by the events `es`, in order. */
  ghost predicate Reaches(s: State, es: seq<Event>, t: State)
    decreases |es|
  {
    if es == [] then s == t else Enabled(s, es[0]) && Reaches(Step(s, es[0]), es[1..], t)
  }

  ghost function Joined(es: seq<Event>): nat {
    if es == [] then 0 else (if es[0].Join? then 2 * |es[0].pending| else 0) + Joined(es[1..])
  }

  ghost function Calls(es: seq<Event>): nat {
    if es == [] then 0 else (if es[0].Join? then 0 else 1) + Calls(es[1..])
  }

  lemma {:induction false} ReachableInv(s: State, es: seq<Event>, t: State)
    requires Inv(s) && Reaches(s, es, t)
    ensures Inv(t) && t.limit == s.limit && Left(t.jobs) + Calls(es) <= Left(s.jobs) + Joined(es)
    decreases |es|
  {
    if es != [] {
      StepKeeps(s, es[0]);
      ReachableInv(Step(s, es[0]), es[1..], t);
    }
  }

  /** However the judgings join and interleave, the calls in flight over all of them never exceed the
      limit, and there are at most two events, a start and an end, for each snapshot brought in. */
  lemma SharedBound(limit: nat, es: seq<Event>, t: State)
    requires Reaches(State(limit, 0, []), es, t)
    ensures InFlight(t.jobs) <= limit && Calls(es) <= Joined(es)
  {
    ReachableInv(State(limit, 0, []), es, t);
  }

  /** A judging can join at any time with any snapshots, all of them waiting; and of its waiting calls
      each can start exactly while fewer calls than the limit are in flight over all judgings. */
  lemma StartsIff(st: State, pending: set<string>, h: string)
    requires Inv(st) && h in pending
    ensures Enabled(st, Join(pending))
    ensures var (after, j) := (Step(st, Join(pending)), |st.jobs|);
            && after.limit == st.limit && |after.jobs| == j + 1 && after.jobs[..j] == st.jobs
            && after.jobs[j] == Job(pending, {}, {}, {})
            && (Enabled(after, Acquire(j, h)) <==> InFlight(st.jobs) < st.limit)
  {
    JobJoins(st.jobs, Job(pending, {}, {}, {}));
  }

  /** With a positive limit some worker can always go on: a waiting call can start, or a running one
      end. */
  lemma NeverStuck(st: State)
    requires Inv(st) && st.limit >= 1 && Left(st.jobs) > 0
    ensures exists e: Event :: !e.Join? && Enabled(st, e)
  {
    if st.inUse > 0 {
      var j := Busy(st.jobs);
      var h :| h in st.jobs[j].running;
      assert Enabled(st, Release(j, h, true));
    } else {
      var j := Unfinished(st.jobs);
      RunningWithin(st.jobs, j);
      assert |st.jobs[j].running| == 0;
      var h :| h in st.jobs[j].waiting;
      assert Enabled(st, Acquire(j, h));
    }
  }

  lemma {:induction false} Busy(jobs: seq<Job>) returns (j: nat)
    requires InFlight(jobs) > 0
    ensures j < |jobs| && jobs[j].running != {}
  {
    j := |jobs| - 1;
    if jobs[j].running == {} {
      j := Busy(jobs[..j]);
    }
  }

  lemma {:induction false} Unfinished(jobs: seq<Job>) returns (j: nat)
    requires Left(jobs) > 0
    ensures j < |jobs| && (jobs[j].waiting != {} || jobs[j].running != {})
  {
    j := |jobs| - 1;
    if jobs[j].waiting == {} && jobs[j].running == {} {
      j := Unfinished(jobs[..j]);
    }
  }

  lemma {:induction false} RunningWithin(jobs: seq<Job>, j: nat)
    requires j < |jobs|
    ensures |jobs[j].running| <= InFlight(jobs)
  {
    if j < |jobs| - 1 {
      RunningWithin(jobs[..|jobs| - 1], j);
    }
  }

  ghost function Snapshots(job: Job): set<string> {
    job.waiting + job.running + job.done + job.lost
  }

  ghost predicate CallFails(es: seq<Event>, j: nat) {
    es != [] && ((es[0].Release? && es[0].job == j && !es[0].answered) || CallFails(es[1..], j))
  }

  /** A judging keeps its snapshots and its answers; when nothing is left, each snapshot has been
      answered unless a call of this judging failed. */
  lemma {:induction false} AllAnswered(s: State, es: seq<Event>, t: State, j: nat)
    requires Inv(s) && Reaches(s, es, t) && j < |s.jobs|
    ensures j < |t.jobs|
    ensures var (before, after) := (s.jobs[j], t.jobs[j]);
            && Snapshots(after) == Snapshots(before) && before.done <= after.done && before.lost <= after.lost
            && (Left(t.jobs) == 0 ==> after.done + after.lost == Snapshots(before))
            && (before.lost == {} ==> (after.lost == {} <==> !CallFails(es, j)))
    decreases |es|
  {
    if es != [] {
      StepKeeps(s, es[0]);
      AllAnswered(Step(s, es[0]), es[1..], t, j);
      StepConserves(s, es[0], j);
    } else {
      NothingLeft(t.jobs, j);
    }
  }

  lemma StepConserves(st: State, e: Event, j: nat)
    requires Enabled(st, e) && j < |st.jobs|
    ensures j < |Step(st, e).jobs|
    ensures var (before, after) := (st.jobs[j], Step(st, e).jobs[j]);
            && Snapshots(after) == Snapshots(before) && before.done <= after.done && before.lost <= after.lost
            && (before.lost == {} ==> (after.lost == {} <==> !(e.Release? && e.job == j && !e.answered)))
  {}

  lemma {:induction false} NothingLeft(jobs: seq<Job>, j: nat)
    requires j < |jobs|
    ensures Left(jobs) == 0 ==> jobs[j].waiting == {} && jobs[j].running == {}
  {
    if j < |jobs| - 1 {
      NothingLeft(jobs[..|jobs| - 1], j);
    }
  }
}
