/** The benchmark scheduling loop: a pending queue, a bounded running set, per-row retries with a
    fresh run session each, and one result row per input row.

    `State` and its steps are the specification; `Scheduler` is the loop with its mutable
    fields, where the workers' completion order and outcomes are arbitrary. */
module BenchmarkScheduler {
  import opened Ranges

  /** One entry of the pending deque or of the running dict. */
  datatype Attempt = Attempt(row: nat, attempt: nat)

  /** Status of an artifact session's manifest. */
  datatype Manifest = Running | Completed | Failed

  /** A run session created for a row; `session` indexes the artifact store. */
  datatype CaseRun = CaseRun(row: nat, session: nat)

  /** What an attempt does: it raises, or returns with or without an evaluation. */
  datatype Outcome = Raised | Returned(evaluated: bool)

  datatype ResultRow = ResultRow(outcome: Outcome, attempts: nat, completionIndex: nat, session: nat) {
    predicate Succeeded() {
      outcome.Returned?
    }
  }

  /** `uploads`: an uploader runs beside the loop; `handed` are the rows submitted to it. */
  datatype State = State(
    uploads: bool,
    rows: nat,
    retries: nat,
    limit: nat,
    pending: seq<Attempt>,
    running: seq<Attempt>,
    results: map<nat, ResultRow>,
    completionIndex: nat,
    caseRuns: map<nat, CaseRun>,
    allCaseRuns: seq<CaseRun>,
    sessions: seq<Manifest>,
    handed: seq<nat>)

  /* ---------- Steps ---------- */

  function FirstRuns(rows: nat): seq<CaseRun> {
    seq(rows, i requires 0 <= i => CaseRun(i, i))
  }

  function Init(rows: nat, retries: nat, limit: nat, uploads: bool): State {
    State(uploads, rows, retries, limit,
          seq(rows, i requires 0 <= i => Attempt(i, 1)), [], map[], 0,
          map i: nat | i < rows :: CaseRun(i, i),
          FirstRuns(rows),
          seq(rows, i => Running), [])
  }

  /** Before any run session is created. */
  function Nothing(rows: nat, retries: nat, limit: nat, uploads: bool): State {
    State(uploads, rows, retries, limit, [], [], map[], 0, map[], [], [], [])
  }

  ghost predicate CanSubmit(s: State) {
    s.pending != [] && |s.running| < s.limit
  }

  function Submit(s: State): State
    requires CanSubmit(s)
  {
    s.(pending := s.pending[1..], running := s.running + [s.pending[0]])
  }

  /** Closing a session that is no longer running changes nothing. */
  function Close(sessions: seq<Manifest>, k: nat, status: Manifest): (r: seq<Manifest>)
    requires k < |sessions|
  {
    if sessions[k] == Running then sessions[k := status] else sessions
  }

  /** The status the loop gives a session that its run left open. */
  function Verdict(outcome: Outcome): Manifest {
    if outcome.Returned? then Completed else Failed
  }

  ghost predicate CanSettle(s: State, k: nat) {
    k < |s.running| && s.running[k].row in s.caseRuns && s.caseRuns[s.running[k].row].session < |s.sessions|
  }

  /** The future in slot `k` is done; `left` is the status its run left in its own manifest. */
  function Settle(s: State, k: nat, outcome: Outcome, left: Manifest): State
    requires CanSettle(s, k)
  {
    var a := s.running[k];
    var current := s.caseRuns[a.row].session;
    var rest := s.running[..k] + s.running[k + 1..];
    var closed := Close(s.sessions[current := left], current, Verdict(outcome));
    if outcome.Raised? && a.attempt <= s.retries then
      var next := CaseRun(a.row, |closed|);
      s.(running := rest, sessions := closed + [Running],
         caseRuns := s.caseRuns[a.row := next], allCaseRuns := s.allCaseRuns + [next],
         pending := s.pending + [Attempt(a.row, a.attempt + 1)])
    else
      s.(running := rest, sessions := closed,
         results := s.results[a.row := ResultRow(outcome, a.attempt, s.completionIndex, current)],
         completionIndex := s.completionIndex + 1,
         handed := if outcome == Returned(true) && s.uploads then s.handed + [a.row] else s.handed)
  }

  datatype Event = Submitted | Settled(slot: nat, outcome: Outcome, left: Manifest)

  ghost predicate Enabled(s: State, e: Event) {
    match e
    case Submitted => CanSubmit(s)
    case Settled(k, outcome, left) => CanSettle(s, k)
  }

  ghost function Step(s: State, e: Event): State
    requires Enabled(s, e)
  {
    match e
    case Submitted => Submit(s)
    case Settled(k, outcome, left) => Settle(s, k, outcome, left)
  }

  /** `t` is reached from `s` by the events `es`, in order. */
  ghost predicate Reaches(s: State, es: seq<Event>, t: State)
    decreases |es|
  {
    if es == [] then s == t else Enabled(s, es[0]) && Reaches(Step(s, es[0]), es[1..], t)
  }

  ghost predicate Finished(s: State) {
    s.pending == [] && s.running == []
  }

  /* ---------- Counting ---------- */

  /** How many entries of a queue belong to a row. */
  ghost function Occurs(xs: seq<Attempt>, row: nat): nat {
    if xs == [] then 0 else Occurs(xs[1..], row) + if xs[0].row == row then 1 else 0
  }

  lemma OccursConcat(xs: seq<Attempt>, ys: seq<Attempt>, row: nat)
    ensures Occurs(xs + ys, row) == Occurs(xs, row) + Occurs(ys, row)
  {
    if xs == [] {
      assert xs + ys == ys;
    } else {
      assert (xs + ys)[1..] == xs[1..] + ys;
      OccursConcat(xs[1..], ys, row);
    }
  }

  lemma OccursRemove(xs: seq<Attempt>, k: nat, row: nat)
    requires k < |xs|
    ensures Occurs(xs, row) == Occurs(xs[..k] + xs[k + 1..], row) + if xs[k].row == row then 1 else 0
  {
    OccursConcat(xs[..k], xs[k..], row);
    OccursConcat(xs[..k], xs[k + 1..], row);
    assert xs == xs[..k] + xs[k..] && xs[k..][1..] == xs[k + 1..];
  }

  lemma OccursIff(xs: seq<Attempt>, row: nat)
    ensures Occurs(xs, row) > 0 <==> exists a :: a in xs && a.row == row
  {
    if xs != [] {
      OccursIff(xs[1..], row);
      assert forall a :: a in xs <==> a == xs[0] || a in xs[1..];
    }
  }

  /** How many run sessions have been created for a row. */
  ghost function SessionsFor(runs: seq<CaseRun>, row: nat): nat {
    if runs == [] then 0
    else SessionsFor(runs[..|runs| - 1], row) + if runs[|runs| - 1].row == row then 1 else 0
  }

  lemma SessionsForSnoc(runs: seq<CaseRun>, r: CaseRun, row: nat)
    ensures SessionsFor(runs + [r], row) == SessionsFor(runs, row) + if r.row == row then 1 else 0
  {
    assert (runs + [r])[..|runs|] == runs;
  }

  ghost function Attempts(results: map<nat, ResultRow>, n: nat): nat
    requires forall i: nat :: i < n ==> i in results
  {
    if n == 0 then 0 else Attempts(results, n - 1) + results[n - 1].attempts
  }

  ghost function Weight(xs: seq<Attempt>, retries: nat): int {
    if xs == [] then 0 else 2 * (retries + 2 - xs[0].attempt) + Weight(xs[1..], retries)
  }

  lemma WeightConcat(xs: seq<Attempt>, ys: seq<Attempt>, retries: nat)
    ensures Weight(xs + ys, retries) == Weight(xs, retries) + Weight(ys, retries)
  {
    if xs == [] {
      assert xs + ys == ys;
    } else {
      assert (xs + ys)[1..] == xs[1..] + ys;
      WeightConcat(xs[1..], ys, retries);
    }
  }

  lemma WeightRemove(xs: seq<Attempt>, k: nat, retries: nat)
    requires k < |xs|
    ensures Weight(xs, retries) == Weight(xs[..k] + xs[k + 1..], retries) + 2 * (retries + 2 - xs[k].attempt)
  {
    WeightConcat(xs[..k], xs[k..], retries);
    WeightConcat(xs[..k], xs[k + 1..], retries);
    assert xs == xs[..k] + xs[k..] && xs[k..][1..] == xs[k + 1..];
  }

  lemma WeightAtLeast(xs: seq<Attempt>, retries: nat)
    requires forall a :: a in xs ==> a.attempt <= retries + 1
    ensures Weight(xs, retries) >= 2 * |xs|
  {}

  /** What is left to do: two units for each attempt a row may still use, one of them spent when
      the attempt is submitted. */
  ghost function Measure(s: State): int {
    Weight(s.pending, s.retries) + Weight(s.running, s.retries) - |s.running|
  }

  /* ---------- Invariant ---------- */

  /** Every row is pending, running or finished, exactly once, and nothing else is. */
  ghost predicate Conserved(s: State) {
    forall row: nat ::
      Occurs(s.pending, row) + Occurs(s.running, row) + (if row in s.results then 1 else 0)
        == if row < s.rows then 1 else 0
  }

  ghost predicate AttemptsCounted(s: State) {
    && (forall a :: a in s.pending || a in s.running ==>
          1 <= a.attempt <= s.retries + 1 && SessionsFor(s.allCaseRuns, a.row) == a.attempt)
    && (forall i :: i in s.results ==>
          && 1 <= s.results[i].attempts <= s.retries + 1
          && SessionsFor(s.allCaseRuns, i) == s.results[i].attempts
          && (!s.results[i].Succeeded() ==> s.results[i].attempts == s.retries + 1))
  }

  ghost predicate CompletionIndexed(s: State) {
    && s.completionIndex == |s.results|
    && (forall i :: i in s.results ==> s.results[i].completionIndex < |s.results|)
    && (forall i, j :: i in s.results && j in s.results && i != j ==>
          s.results[i].completionIndex != s.results[j].completionIndex)
  }

  /** Session `j` is still running exactly when it is the current one of an unfinished row. */
  ghost predicate SessionOk(caseRuns: map<nat, CaseRun>, all: seq<CaseRun>, sessions: seq<Manifest>,
                            results: map<nat, ResultRow>, j: nat)
  {
    j < |all| && j < |sessions| && all[j].session == j && all[j].row in caseRuns
    && (sessions[j] == Running <==> caseRuns[all[j].row].session == j && all[j].row !in results)
  }

  ghost predicate EntryOk(caseRuns: map<nat, CaseRun>, all: seq<CaseRun>, results: map<nat, ResultRow>, i: nat) {
    && i in caseRuns && caseRuns[i].row == i
    && caseRuns[i].session < |all| && all[caseRuns[i].session] == caseRuns[i]
    && (i in results ==> results[i].session == caseRuns[i].session)
  }

  ghost predicate Tracked(rows: nat, caseRuns: map<nat, CaseRun>, all: seq<CaseRun>, sessions: seq<Manifest>,
                          results: map<nat, ResultRow>)
  {
    && |sessions| == |all|
    && (forall i: nat :: i in caseRuns <==> i < rows)
    && (forall i :: i in results ==> i < rows)
    && (forall j: nat :: j < |all| ==> SessionOk(caseRuns, all, sessions, results, j))
    && (forall i: nat :: i < rows ==> EntryOk(caseRuns, all, results, i))
  }

  ghost predicate SessionsTracked(s: State) {
    Tracked(s.rows, s.caseRuns, s.allCaseRuns, s.sessions, s.results)
  }

  /** Each succeeded row with an evaluation has been handed over once, if there is an uploader, and
      nothing else has. */
  ghost predicate HandedOver(uploads: bool, results: map<nat, ResultRow>, handed: seq<nat>) {
    && (forall i, j :: 0 <= i < j < |handed| ==> handed[i] != handed[j])
    && (forall row: nat ::
          row in handed <==> uploads && row in results && results[row].outcome == Returned(true))
  }

  ghost predicate Inv(s: State) {
    && HandedOver(s.uploads, s.results, s.handed)
    && Conserved(s) && |s.running| <= s.limit && AttemptsCounted(s) && CompletionIndexed(s) && SessionsTracked(s)
  }

  /** A queued row has no result, and no other entry. */
  lemma OnePlace(s: State, a: Attempt)
    requires Conserved(s) && (a in s.pending || a in s.running)
    ensures a.row < s.rows && a.row !in s.results
    ensures Occurs(s.pending, a.row) + Occurs(s.running, a.row) == 1
  {
    OccursIff(s.pending, a.row);
    OccursIff(s.running, a.row);
  }

  /** Once the entry in slot `k` is taken out, its row is queued nowhere. */
  lemma NoOtherEntry(s: State, k: nat)
    requires Conserved(s) && k < |s.running|
    ensures forall b :: b in s.pending || b in s.running[..k] + s.running[k + 1..] ==> b.row != s.running[k].row
  {
    var rest := s.running[..k] + s.running[k + 1..];
    OnePlace(s, s.running[k]);
    OccursRemove(s.running, k, s.running[k].row);
    OccursIff(s.pending, s.running[k].row);
    OccursIff(rest, s.running[k].row);
  }

  lemma InitInv(rows: nat, retries: nat, limit: nat, uploads: bool)
    ensures Inv(Init(rows, retries, limit, uploads))
    ensures Measure(Init(rows, retries, limit, uploads)) == 2 * rows * (retries + 1)
  {
    var s := Init(rows, retries, limit, uploads);
    forall i: nat {
      InitOccurs(s.pending, i);
    }
    forall i: nat | i < rows
      ensures SessionsFor(s.allCaseRuns, i) == 1
    {
      InitSessions(rows, i);
    }
    InitWeight(s.pending, retries);
  }

  lemma InitOccurs(xs: seq<Attempt>, i: nat)
    requires forall j :: 0 <= j < |xs| ==> xs[j].row == j
    ensures Occurs(xs, i) == if i < |xs| then 1 else 0
    decreases |xs|
  {
    if xs != [] {
      var n := |xs| - 1;
      InitOccurs(xs[..n], i);
      OccursConcat(xs[..n], [xs[n]], i);
      assert xs == xs[..n] + [xs[n]];
    }
  }

  lemma InitSessions(n: nat, i: nat)
    ensures SessionsFor(FirstRuns(n), i) == if i < n then 1 else 0
  {
    if n > 0 {
      assert FirstRuns(n) == FirstRuns(n - 1) + [CaseRun(n - 1, n - 1)];
      SessionsForSnoc(FirstRuns(n - 1), CaseRun(n - 1, n - 1), i);
      InitSessions(n - 1, i);
    }
  }

  lemma InitWeight(xs: seq<Attempt>, retries: nat)
    requires forall a :: a in xs ==> a.attempt == 1
    ensures Weight(xs, retries) == 2 * |xs| * (retries + 1)
  {
    if xs != [] {
      InitWeight(xs[1..], retries);
      assert 2 * (|xs| - 1) * (retries + 1) + 2 * (retries + 1) == 2 * |xs| * (retries + 1);
    }
  }

  lemma SubmitInv(s: State)
    requires Inv(s) && CanSubmit(s)
    ensures Inv(Submit(s))
    ensures Measure(Submit(s)) == Measure(s) - 1
  {
    SubmitConserves(s);
    WeightConcat(s.running, [s.pending[0]], s.retries);
  }

  lemma SubmitConserves(s: State)
    requires Conserved(s) && CanSubmit(s)
    ensures Conserved(Submit(s))
  {
    var t := Submit(s);
    forall row: nat
      ensures Occurs(t.pending, row) + Occurs(t.running, row) + (if row in t.results then 1 else 0)
           == if row < t.rows then 1 else 0
    {
      assert Occurs(s.pending, row) + Occurs(s.running, row) + (if row in s.results then 1 else 0)
          == if row < s.rows then 1 else 0;
      OccursConcat(s.running, [s.pending[0]], row);
    }
  }

  lemma SettleInv(s: State, k: nat, outcome: Outcome, left: Manifest)
    requires Inv(s) && k < |s.running|
    ensures CanSettle(s, k) && Inv(Settle(s, k, outcome, left))
    ensures Measure(Settle(s, k, outcome, left)) < Measure(s)
  {
    OnePlace(s, s.running[k]);
    NoOtherEntry(s, k);
    assert EntryOk(s.caseRuns, s.allCaseRuns, s.results, s.running[k].row);
    SettleConserves(s, k, outcome, left);
    SettleCounts(s, k, outcome, left);
    SettleIndexes(s, k, outcome, left);
    SettleSessions(s, k, outcome, left);
    SettleHands(s, k, outcome, left);
    SettleMeasure(s, k, outcome, left);
  }

  lemma SettleMeasure(s: State, k: nat, outcome: Outcome, left: Manifest)
    requires CanSettle(s, k) && s.running[k].attempt <= s.retries + 1
    ensures Measure(Settle(s, k, outcome, left)) < Measure(s)
  {
    var a := s.running[k];
    WeightRemove(s.running, k, s.retries);
    WeightConcat(s.pending, [Attempt(a.row, a.attempt + 1)], s.retries);
  }

  lemma SettleConserves(s: State, k: nat, outcome: Outcome, left: Manifest)
    requires Conserved(s) && CanSettle(s, k)
    ensures Conserved(Settle(s, k, outcome, left))
  {
    var a := s.running[k];
    OnePlace(s, a);
    var t := Settle(s, k, outcome, left);
    forall row: nat
      ensures Occurs(t.pending, row) + Occurs(t.running, row) + (if row in t.results then 1 else 0)
           == if row < s.rows then 1 else 0
    {
      OccursRemove(s.running, k, row);
      OccursConcat(s.pending, [Attempt(a.row, a.attempt + 1)], row);
    }
  }

  lemma SettleCounts(s: State, k: nat, outcome: Outcome, left: Manifest)
    requires AttemptsCounted(s) && CanSettle(s, k) && s.running[k].row !in s.results
    requires forall b :: b in s.pending || b in s.running[..k] + s.running[k + 1..] ==> b.row != s.running[k].row
    ensures AttemptsCounted(Settle(s, k, outcome, left))
  {
    var a := s.running[k];
    var next := CaseRun(a.row, |s.sessions|);
    forall i {
      SessionsForSnoc(s.allCaseRuns, next, i);
    }
  }

  lemma SettleIndexes(s: State, k: nat, outcome: Outcome, left: Manifest)
    requires CompletionIndexed(s) && CanSettle(s, k) && s.running[k].row !in s.results
    ensures CompletionIndexed(Settle(s, k, outcome, left))
  {}

  lemma SettleHands(s: State, k: nat, outcome: Outcome, left: Manifest)
    requires HandedOver(s.uploads, s.results, s.handed) && CanSettle(s, k) && s.running[k].row !in s.results
    ensures HandedOver(s.uploads, Settle(s, k, outcome, left).results, Settle(s, k, outcome, left).handed)
  {}

  lemma SettleSessions(s: State, k: nat, outcome: Outcome, left: Manifest)
    requires SessionsTracked(s) && CanSettle(s, k) && s.running[k].row !in s.results
    ensures SessionsTracked(Settle(s, k, outcome, left))
  {
    var a := s.running[k];
    var t := Settle(s, k, outcome, left);
    var current := s.caseRuns[a.row].session;
    assert EntryOk(s.caseRuns, s.allCaseRuns, s.results, a.row);
    assert t.sessions[current] != Running;
    forall j: nat | j < |t.allCaseRuns|
      ensures SessionOk(t.caseRuns, t.allCaseRuns, t.sessions, t.results, j)
    {
      assert j < |s.allCaseRuns| ==> SessionOk(s.caseRuns, s.allCaseRuns, s.sessions, s.results, j);
    }
    forall i: nat | i < s.rows
      ensures EntryOk(t.caseRuns, t.allCaseRuns, t.results, i)
    {
      assert EntryOk(s.caseRuns, s.allCaseRuns, s.results, i);
    }
  }

  /* ---------- Theorems over every run ---------- */

  lemma StepKeepsInvariant(s: State, e: Event)
    requires Inv(s) && Enabled(s, e)
    ensures Inv(Step(s, e)) && Measure(Step(s, e)) < Measure(s)
  {
    match e
    case Submitted => SubmitInv(s);
    case Settled(k, outcome, left) => SettleInv(s, k, outcome, left);
  }

  lemma MeasureNonNegative(s: State)
    requires Inv(s)
    ensures Measure(s) >= 2 * |s.pending| + |s.running|
  {
    WeightAtLeast(s.pending, s.retries);
    WeightAtLeast(s.running, s.retries);
  }

  /** Whatever the workers do, every reachable state satisfies the invariant. */
  lemma {:induction false} ReachableInvariant(s: State, es: seq<Event>, t: State)
    requires Inv(s) && Reaches(s, es, t)
    ensures Inv(t) && |es| <= Measure(s) - Measure(t)
    decreases |es|
  {
    if es != [] {
      StepKeepsInvariant(s, es[0]);
      ReachableInvariant(Step(s, es[0]), es[1..], t);
    }
  }

  /** The loop terminates for every pattern of failures: no run is longer than two events for each
      attempt the rows may use. */
  lemma RunsAreBounded(rows: nat, retries: nat, limit: nat, uploads: bool, es: seq<Event>, t: State)
    requires Reaches(Init(rows, retries, limit, uploads), es, t)
    ensures Inv(t) && |es| <= 2 * rows * (retries + 1)
  {
    InitInv(rows, retries, limit, uploads);
    ReachableInvariant(Init(rows, retries, limit, uploads), es, t);
    MeasureNonNegative(t);
  }

  /** And it never gets stuck: with at least one worker, an unfinished state can always move. */
  lemma NeverStuck(s: State)
    requires Inv(s) && s.limit >= 1 && !Finished(s)
    ensures Enabled(s, Submitted) || (s.running != [] && forall outcome, left :: Enabled(s, Settled(0, outcome, left)))
  {
    if s.running != [] {
      SettleInv(s, 0, Raised, Running);
    }
  }

  /** A running attempt's entry in `case_runs` is the same before and after every event that does
      not settle that very attempt, so its worker always reads the session made for it. */
  lemma RunningEntryStable(s: State, e: Event, k: nat)
    requires Inv(s) && Enabled(s, e) && k < |s.running|
    requires e.Settled? ==> e.slot != k
    ensures var a := s.running[k];
            a in Step(s, e).running && a.row in s.caseRuns && a.row in Step(s, e).caseRuns
            && Step(s, e).caseRuns[a.row] == s.caseRuns[a.row]
            && var session := s.caseRuns[a.row].session;
            && session < |s.sessions| && s.sessions[session] == Running
            && session < |Step(s, e).sessions| && Step(s, e).sessions[session] == Running
  {
    RunningSession(s, k);
    var a, t := s.running[k], Step(s, e);
    if e.Settled? {
      OtherSlotStays(s, e.slot, e.outcome, e.left, k);
    } else {
      hide Inv;
      assert t.running[k] == a;
    }
    StepKeepsInvariant(s, e);
    hide Inv, Step;
    var k' :| 0 <= k' < |t.running| && t.running[k'] == a;
    RunningSession(t, k');
  }

  /** A running attempt's row has an open session. */
  lemma RunningSession(s: State, k: nat)
    requires Inv(s) && k < |s.running|
    ensures var row := s.running[k].row;
            && row in s.caseRuns && row !in s.results
            && s.caseRuns[row].session < |s.sessions| == |s.allCaseRuns|
            && s.allCaseRuns[s.caseRuns[row].session].row == row
            && s.sessions[s.caseRuns[row].session] == Running
  {
    OnePlace(s, s.running[k]);
    assert EntryOk(s.caseRuns, s.allCaseRuns, s.results, s.running[k].row);
    assert SessionOk(s.caseRuns, s.allCaseRuns, s.sessions, s.results, s.caseRuns[s.running[k].row].session);
    hide HandedOver, Conserved, AttemptsCounted, CompletionIndexed, Tracked;
  }

  lemma OtherSlotStays(s: State, slot: nat, outcome: Outcome, left: Manifest, k: nat)
    requires Inv(s) && CanSettle(s, slot) && k < |s.running| && k != slot
    ensures var (a, t) := (s.running[k], Settle(s, slot, outcome, left));
            && a in t.running && (a.row in s.caseRuns ==> a.row in t.caseRuns && t.caseRuns[a.row] == s.caseRuns[a.row])
  {
    NoOtherEntry(s, slot);
    hide Inv, Close, Verdict;
    var rest := s.running[..slot] + s.running[slot + 1..];
    assert rest[if k < slot then k else k - 1] == s.running[k];
  }

  /** Some row completed as number `c`. */
  ghost predicate CompletedAt(results: map<nat, ResultRow>, c: nat) {
    exists i :: i in results && results[i].completionIndex == c
  }

  /** What a finished run guarantees: one result for each row, within the attempts allowed; the
      completion indexes are 0..n-1, each once; every session is closed; one session per attempt. */
  ghost predicate Complete(rows: nat, retries: nat, results: map<nat, ResultRow>, sessions: seq<Manifest>,
                           caseRuns: seq<CaseRun>)
  {
    && (forall i: nat :: i in results <==> i < rows)
    && (forall i :: i in results ==>
          && 1 <= results[i].attempts <= retries + 1
          && (!results[i].Succeeded() ==> results[i].attempts == retries + 1)
          && SessionsFor(caseRuns, i) == results[i].attempts)
    && (forall c: nat :: c < rows ==> CompletedAt(results, c))
    && (forall i, j :: i in results && j in results && i != j ==>
          results[i].completionIndex != results[j].completionIndex)
    && (forall j :: 0 <= j < |sessions| ==> sessions[j] != Running)
    && |sessions| == |caseRuns| == Attempts(results, rows)
  }

  /** When nothing is pending or running, every row has one result, the completion indexes are a
      permutation of 0..n-1, no session is still running, and there is one session per attempt. */
  lemma FinishedIsComplete(s: State)
    requires Inv(s) && Finished(s)
    ensures Complete(s.rows, s.retries, s.results, s.sessions, s.allCaseRuns)
  {
    FinishedResults(s);
    FinishedSessions(s);
    hide Conserved, Tracked;
    Surjective(s.results, s.rows);
    SessionTotal(s.allCaseRuns, s.results, s.rows);
  }

  lemma FinishedResults(s: State)
    requires Conserved(s) && Finished(s)
    ensures forall row: nat :: row in s.results <==> row < s.rows
    ensures |s.results| == s.rows
  {
    forall row: nat
      ensures row in s.results <==> row < s.rows
    {
      assert Occurs(s.pending, row) == 0;
    }
    assert s.results.Keys == Range(s.rows);
  }

  lemma FinishedSessions(s: State)
    requires SessionsTracked(s) && forall row: nat :: row in s.results <==> row < s.rows
    ensures |s.sessions| == |s.allCaseRuns|
    ensures forall j :: 0 <= j < |s.allCaseRuns| ==> s.sessions[j] != Running && s.allCaseRuns[j].row < s.rows
  {
    forall j: nat | j < |s.allCaseRuns|
      ensures s.sessions[j] != Running && s.allCaseRuns[j].row < s.rows
    {
      assert SessionOk(s.caseRuns, s.allCaseRuns, s.sessions, s.results, j);
    }
  }

  /** An injection from n keys into 0..n-1 meets every value. */
  lemma Surjective(results: map<nat, ResultRow>, n: nat)
    requires |results| == n
    requires forall i :: i in results ==> results[i].completionIndex < n
    requires forall i, j :: i in results && j in results && i != j ==>
               results[i].completionIndex != results[j].completionIndex
    ensures forall c: nat :: c < n ==> CompletedAt(results, c)
  {
    var image := set i | i in results :: results[i].completionIndex;
    ImageSize(results, results.Keys, image);
    SubsetOfEqualSize(image, Range(n));
    forall c: nat | c < n
      ensures CompletedAt(results, c)
    {
      assert c in image;
    }
  }

  lemma ImageSize(results: map<nat, ResultRow>, keys: set<nat>, image: set<nat>)
    requires keys <= results.Keys
    requires image == set i | i in keys :: results[i].completionIndex
    requires forall i, j :: i in keys && j in keys && i != j ==>
               results[i].completionIndex != results[j].completionIndex
    ensures |image| == |keys|
    decreases |keys|
  {
    if k :| k in keys {
      var smaller := set i | i in keys - {k} :: results[i].completionIndex;
      ImageSize(results, keys - {k}, smaller);
      assert image == smaller + {results[k].completionIndex};
    }
  }

  ghost function TotalSessions(runs: seq<CaseRun>, n: nat): nat {
    if n == 0 then 0 else TotalSessions(runs, n - 1) + SessionsFor(runs, n - 1)
  }

  lemma SessionTotal(runs: seq<CaseRun>, results: map<nat, ResultRow>, n: nat)
    requires forall r :: r in runs ==> r.row < n
    requires forall i: nat :: i < n ==> i in results && SessionsFor(runs, i) == results[i].attempts
    ensures |runs| == Attempts(results, n)
  {
    SessionsSum(runs, n);
    SameTotal(runs, results, n);
  }

  lemma SameTotal(runs: seq<CaseRun>, results: map<nat, ResultRow>, n: nat)
    requires forall i: nat :: i < n ==> i in results && SessionsFor(runs, i) == results[i].attempts
    ensures TotalSessions(runs, n) == Attempts(results, n)
  {}

  lemma SessionsSum(runs: seq<CaseRun>, n: nat)
    requires forall r :: r in runs ==> r.row < n
    ensures TotalSessions(runs, n) == |runs|
    decreases |runs|
  {
    if runs == [] {
      NoSessions(n);
    } else {
      var last := |runs| - 1;
      SessionsSum(runs[..last], n);
      OneMore(runs[..last], runs[last], n);
      assert runs == runs[..last] + [runs[last]];
    }
  }

  lemma NoSessions(n: nat)
    ensures TotalSessions([], n) == 0
  {}

  lemma OneMore(runs: seq<CaseRun>, r: CaseRun, n: nat)
    ensures TotalSessions(runs + [r], n) == TotalSessions(runs, n) + if r.row < n then 1 else 0
  {
    if n > 0 {
      OneMore(runs, r, n - 1);
      SessionsForSnoc(runs, r, n - 1);
    }
  }

  /* ---------- What the uploader is given ---------- */

  /** However a run goes on, rows once handed over stay handed over, first in order, and a row that
      already has a result is not handed over later. */
  lemma {:induction false} HandedOnce(s: State, es: seq<Event>, t: State)
    requires Inv(s) && Reaches(s, es, t)
    ensures HandedOver(t.uploads, t.results, t.handed) && s.handed <= t.handed
    ensures forall row :: row in t.handed[|s.handed|..] ==> row !in s.results
    ensures forall row :: row in s.results ==> row in t.results && t.results[row] == s.results[row]
    decreases |es|
  {
    if es != [] {
      StepKeepsInvariant(s, es[0]);
      HandedOnce(Step(s, es[0]), es[1..], t);
      StepHands(s, es[0]);
      hide Inv, Step, Reaches;
      var u := Step(s, es[0]);
      forall row | row in t.handed[|s.handed|..]
        ensures row !in s.results
      {
        var i :| |s.handed| <= i < |t.handed| && t.handed[i] == row;
        if i < |u.handed| {
          assert u.handed[i] == row && row in u.handed[|s.handed|..];
        } else {
          assert row in t.handed[|u.handed|..];
        }
      }
    }
  }

  lemma StepHands(s: State, e: Event)
    requires Inv(s) && Enabled(s, e)
    ensures s.handed <= Step(s, e).handed
    ensures forall row :: row in Step(s, e).handed[|s.handed|..] ==> row !in s.results
    ensures forall row :: row in s.results ==> row in Step(s, e).results && Step(s, e).results[row] == s.results[row]
  {
    if e.Settled? {
      OnePlace(s, s.running[e.slot]);
    }
  }

  /** So a whole benchmark hands each row that succeeded with an evaluation to its uploader once,
      and no other row. */
  lemma UploadsEachSuccessOnce(rows: nat, retries: nat, limit: nat, uploads: bool, es: seq<Event>, t: State)
    requires Reaches(Init(rows, retries, limit, uploads), es, t)
    ensures t.uploads == uploads && HandedOver(uploads, t.results, t.handed)
  {
    InitInv(rows, retries, limit, uploads);
    HandedOnce(Init(rows, retries, limit, uploads), es, t);
    ConfigurationStays(Init(rows, retries, limit, uploads), es, t);
  }

  lemma {:induction false} ConfigurationStays(s: State, es: seq<Event>, t: State)
    requires Reaches(s, es, t)
    ensures t.uploads == s.uploads && t.rows == s.rows
    decreases |es|
  {
    if es != [] {
      ConfigurationStays(Step(s, es[0]), es[1..], t);
    }
  }

  /* ---------- Whose outcome a row shows ---------- */

  /** The event ends attempt `a` of a row with outcome `o`. */
  ghost predicate Ends(s: State, e: Event, row: nat, a: nat, o: Outcome) {
    Enabled(s, e) && e.Settled? && s.running[e.slot] == Attempt(row, a) && e.outcome == o
  }

  /** Some event of the run does. */
  ghost predicate EndsIn(s: State, es: seq<Event>, row: nat, a: nat, o: Outcome)
    decreases |es|
  {
    es != [] && Enabled(s, es[0]) && (Ends(s, es[0], row, a, o) || EndsIn(Step(s, es[0]), es[1..], row, a, o))
  }

  /** A row has a result, with this outcome after so many attempts. */
  ghost predicate Shows(s: State, row: nat, a: nat, o: Outcome) {
    row in s.results && s.results[row].attempts == a && s.results[row].outcome == o
  }

  lemma {:induction false} FinishedEndsNoMore(s: State, es: seq<Event>, t: State, row: nat, a: nat, o: Outcome)
    requires Inv(s) && Reaches(s, es, t) && row in s.results
    ensures !EndsIn(s, es, row, a, o)
    decreases |es|
  {
    if es != [] {
      StepKeepsInvariant(s, es[0]);
      StepHands(s, es[0]);
      if es[0].Settled? {
        OnePlace(s, s.running[es[0].slot]);
      }
      FinishedEndsNoMore(Step(s, es[0]), es[1..], t, row, a, o);
      hide Inv, Step, Reaches;
    }
  }

  /** One event gives a row its result exactly when it ends an attempt of it that returns or is the
      last one allowed; and it shows what that attempt did. */
  lemma EndShows(s: State, e: Event, row: nat, a: nat, o: Outcome)
    requires Inv(s) && Enabled(s, e) && row !in s.results
    ensures Shows(Step(s, e), row, a, o) <==> Ends(s, e, row, a, o) && (o.Returned? || a > s.retries)
    ensures row in Step(s, e).results ==> exists a', o' :: Shows(Step(s, e), row, a', o')
  {
    if row in Step(s, e).results {
      assert Shows(Step(s, e), row, Step(s, e).results[row].attempts, Step(s, e).results[row].outcome);
    }
    hide Inv;
  }

  /** A row's result shows outcome `o` of attempt `a` exactly when the run ended that attempt in this
      way and the attempt returned or was the last one allowed. */
  lemma {:induction false} ResultsAreOutcomes(s: State, es: seq<Event>, t: State, row: nat, a: nat, o: Outcome)
    requires Inv(s) && Reaches(s, es, t) && row !in s.results
    ensures Shows(t, row, a, o) <==> EndsIn(s, es, row, a, o) && (o.Returned? || a > s.retries)
    decreases |es|
  {
    if es != [] {
      var u := Step(s, es[0]);
      StepKeepsInvariant(s, es[0]);
      EndShows(s, es[0], row, a, o);
      if row in u.results {
        FinishedEndsNoMore(u, es[1..], t, row, a, o);
        HandedOnce(u, es[1..], t);
      } else {
        ResultsAreOutcomes(u, es[1..], t, row, a, o);
        OpenEndsRetried(s, es[0], row, a, o);
      }
      hide Inv, Step, Reaches, Ends;
    }
  }

  lemma OpenEndsRetried(s: State, e: Event, row: nat, a: nat, o: Outcome)
    requires Inv(s) && Enabled(s, e) && row !in Step(s, e).results
    ensures Step(s, e).retries == s.retries && !(Ends(s, e, row, a, o) && (o.Returned? || a > s.retries))
  {
    hide Inv;
  }

  /** The uploader is handed exactly the rows of which some attempt returned with an evaluation. */
  lemma HandedIff(rows: nat, retries: nat, limit: nat, uploads: bool, es: seq<Event>, t: State, row: nat)
    requires Reaches(Init(rows, retries, limit, uploads), es, t)
    ensures row in t.handed <==>
            uploads && exists a :: EndsIn(Init(rows, retries, limit, uploads), es, row, a, Returned(true))
  {
    var s := Init(rows, retries, limit, uploads);
    UploadsEachSuccessOnce(rows, retries, limit, uploads, es, t);
    InitInv(rows, retries, limit, uploads);
    assert row !in s.results;
    hide Init, Inv, Reaches, EndsIn;
    if a: nat :| EndsIn(s, es, row, a, Returned(true)) {
      ResultsAreOutcomes(s, es, t, row, a, Returned(true));
    }
    if row in t.handed {
      ResultsAreOutcomes(s, es, t, row, t.results[row].attempts, Returned(true));
    }
  }

  /** Rows are numbered in the order in which they finish. */
  lemma CompletionOrder(s: State, es: seq<Event>, t: State, row: nat, later: nat)
    requires Inv(s) && Reaches(s, es, t) && row in s.results && later !in s.results && later in t.results
    ensures row in t.results && t.results[row].completionIndex < t.results[later].completionIndex
    decreases |es|
  {
    if es != [] {
      var u := Step(s, es[0]);
      StepKeepsInvariant(s, es[0]);
      StepHands(s, es[0]);
      if later in u.results {
        HandedOnce(u, es[1..], t);
        NumberedLast(s, es[0], later);
      } else {
        CompletionOrder(u, es[1..], t, row, later);
      }
      hide Inv, Step, Reaches;
    }
  }

  lemma NumberedLast(s: State, e: Event, row: nat)
    requires Inv(s) && Enabled(s, e) && row !in s.results && row in Step(s, e).results
    ensures Step(s, e).results[row].completionIndex == |s.results|
    ensures forall i :: i in s.results ==> s.results[i].completionIndex < |s.results|
  {}

  /* ---------- The order of the attempts ---------- */

  /** First attempts wait in input order, ahead of all retries. */
  ghost predicate InOrder(pending: seq<Attempt>) {
    forall i, j :: 0 <= i < j < |pending| && pending[j].attempt == 1 ==>
      pending[i].attempt == 1 && pending[i].row < pending[j].row
  }

  lemma StepKeepsOrder(s: State, e: Event)
    requires Inv(s) && Enabled(s, e) && InOrder(s.pending)
    ensures InOrder(Step(s, e).pending)
  {
    if e.Settled? {
      var a := s.running[e.slot];
      assert a in s.running && a.attempt >= 1;
    }
    hide Inv;
  }

  lemma {:induction false} ReachableOrder(s: State, es: seq<Event>, t: State)
    requires Inv(s) && InOrder(s.pending) && Reaches(s, es, t)
    ensures InOrder(t.pending)
    decreases |es|
  {
    if es != [] {
      StepKeepsInvariant(s, es[0]);
      StepKeepsOrder(s, es[0]);
      ReachableOrder(Step(s, es[0]), es[1..], t);
      hide Inv, InOrder, Step;
    }
  }

  /** Of the rows not yet started the least is submitted next, and no row is retried before every row
      has started. */
  lemma SubmittedInOrder(rows: nat, retries: nat, limit: nat, uploads: bool, es: seq<Event>, t: State)
    requires Reaches(Init(rows, retries, limit, uploads), es, t) && Enabled(t, Submitted)
    ensures Step(t, Submitted).running != []
    ensures var running := Step(t, Submitted).running;
            var a := running[|running| - 1];
            && a in t.pending && running[..|running| - 1] == t.running
            && multiset(t.pending) == multiset(Step(t, Submitted).pending) + multiset{a}
            && forall b :: b in t.pending && b.attempt == 1 ==> a.attempt == 1 && a.row <= b.row
  {
    InitInv(rows, retries, limit, uploads);
    ReachableOrder(Init(rows, retries, limit, uploads), es, t);
    hide Inv, Reaches;
    assert t.pending == [t.pending[0]] + t.pending[1..];
  }

  /* ---------- Final statuses ---------- */

  /** The run left its own session in the status opposite to its outcome. */
  predicate Opposed(e: Event) {
    e.Settled? && e.left != Running && e.left != Verdict(e.outcome)
  }

  /** The session's status tells the outcome of its row's attempt: completed exactly when it is the
      one the row succeeded in. */
  ghost predicate StatusOk(all: seq<CaseRun>, sessions: seq<Manifest>, results: map<nat, ResultRow>, j: nat)
    requires j < |all| && j < |sessions|
  {
    sessions[j] == Completed <==>
    all[j].row in results && results[all[j].row].Succeeded() && results[all[j].row].session == j
  }

  ghost predicate StatusesTold(s: State) {
    |s.sessions| == |s.allCaseRuns|
    && forall j: nat :: j < |s.sessions| ==> StatusOk(s.allCaseRuns, s.sessions, s.results, j)
  }

  lemma SettleTellsOwn(s: State, k: nat, outcome: Outcome, left: Manifest)
    requires Inv(s) && CanSettle(s, k)
    ensures var (t, j) := (Settle(s, k, outcome, left), s.caseRuns[s.running[k].row].session);
            && |s.sessions| == |s.allCaseRuns| <= |t.sessions| == |t.allCaseRuns| && j < |s.sessions|
            && (StatusOk(t.allCaseRuns, t.sessions, t.results, j) <==> !Opposed(Settled(k, outcome, left)))
  {
    RunningSession(s, k);
    hide Inv;
  }

  lemma SettleTellsOther(s: State, k: nat, outcome: Outcome, left: Manifest, j: nat)
    requires Inv(s) && CanSettle(s, k) && j < |s.sessions| == |s.allCaseRuns|
    requires j != s.caseRuns[s.running[k].row].session
    ensures var t := Settle(s, k, outcome, left);
            && |t.sessions| == |t.allCaseRuns| >= |s.sessions|
            && (StatusOk(t.allCaseRuns, t.sessions, t.results, j) <==>
                StatusOk(s.allCaseRuns, s.sessions, s.results, j))
  {
    RunningSession(s, k);
    SessionHasRow(s, j);
    hide Inv, Verdict;
  }

  lemma SettleTellsNew(s: State, k: nat, outcome: Outcome, left: Manifest, j: nat)
    requires Inv(s) && CanSettle(s, k) && |s.sessions| == |s.allCaseRuns|
    requires |s.sessions| <= j < |Settle(s, k, outcome, left).sessions|
    ensures var t := Settle(s, k, outcome, left);
            |t.sessions| == |t.allCaseRuns| && StatusOk(t.allCaseRuns, t.sessions, t.results, j)
  {
    RunningSession(s, k);
    hide Inv, Verdict;
  }

  /** Completing an attempt settles the status of its own session and of no other. */
  lemma SettleTellsAt(s: State, k: nat, outcome: Outcome, left: Manifest, j: nat)
    requires Inv(s) && CanSettle(s, k)
    requires j < |Settle(s, k, outcome, left).sessions|
    ensures |s.sessions| == |s.allCaseRuns|
    ensures var t := Settle(s, k, outcome, left);
            && |t.sessions| == |t.allCaseRuns| >= |s.sessions|
            && (StatusOk(t.allCaseRuns, t.sessions, t.results, j) <==>
                  if j >= |s.sessions| then true
                  else if j == s.caseRuns[s.running[k].row].session then !Opposed(Settled(k, outcome, left))
                  else StatusOk(s.allCaseRuns, s.sessions, s.results, j))
  {
    hide Inv, Settle, StatusOk, Opposed;
    SettleTellsOwn(s, k, outcome, left);
    if j >= |s.sessions| {
      SettleTellsNew(s, k, outcome, left, j);
    } else if j != s.caseRuns[s.running[k].row].session {
      SettleTellsOther(s, k, outcome, left, j);
    }
  }

  lemma SessionHasRow(s: State, j: nat)
    requires Inv(s) && j < |s.sessions|
    ensures |s.sessions| == |s.allCaseRuns| && s.allCaseRuns[j].session == j
    ensures s.allCaseRuns[j].row in s.caseRuns
    ensures s.sessions[j] != Running ==>
              s.caseRuns[s.allCaseRuns[j].row].session != j || s.allCaseRuns[j].row in s.results
  {
    assert SessionOk(s.caseRuns, s.allCaseRuns, s.sessions, s.results, j);
  }

  lemma StepTells(s: State, e: Event)
    requires Inv(s) && Enabled(s, e)
    ensures StatusesTold(Step(s, e)) <==> StatusesTold(s) && !Opposed(e)
  {
    if e.Settled? {
      var t := Step(s, e);
      var current := s.caseRuns[s.running[e.slot].row].session;
      SettleTellsAt(s, e.slot, e.outcome, e.left, current);
      RunningSessionOk(s, e.slot);
      forall j: nat | j < |t.sessions|
        ensures StatusOk(t.allCaseRuns, t.sessions, t.results, j) <==>
                if j >= |s.sessions| then true
                else if j == current then !Opposed(e)
                else StatusOk(s.allCaseRuns, s.sessions, s.results, j)
      {
        SettleTellsAt(s, e.slot, e.outcome, e.left, j);
      }
      hide Inv, Settle, StatusOk, Opposed;
    } else {
      SubmitKeepsSessions(s);
    }
  }

  lemma SubmitKeepsSessions(s: State)
    requires CanSubmit(s)
    ensures StatusesTold(Submit(s)) <==> StatusesTold(s)
  {
    hide StatusOk;
  }

  lemma RunningSessionOk(s: State, k: nat)
    requires Inv(s) && CanSettle(s, k)
    ensures var j := s.caseRuns[s.running[k].row].session;
            j < |s.sessions| == |s.allCaseRuns| && StatusOk(s.allCaseRuns, s.sessions, s.results, j)
  {
    RunningSession(s, k);
    hide Inv;
  }

  ghost predicate SomeOpposed(es: seq<Event>) {
    exists e :: e in es && Opposed(e)
  }

  lemma {:induction false} StatusesToldIff(s: State, es: seq<Event>, t: State)
    requires Inv(s) && Reaches(s, es, t)
    ensures StatusesTold(t) <==> StatusesTold(s) && !SomeOpposed(es)
    decreases |es|
  {
    if es != [] {
      StepKeepsInvariant(s, es[0]);
      StepTells(s, es[0]);
      StatusesToldIff(Step(s, es[0]), es[1..], t);
      SomeOpposedFirst(es);
      hide Inv, Reaches, SomeOpposed, StatusesTold, Opposed;
    }
  }

  lemma SomeOpposedFirst(es: seq<Event>)
    requires es != []
    ensures SomeOpposed(es) <==> Opposed(es[0]) || SomeOpposed(es[1..])
  {
    hide Opposed;
    assert forall e :: e in es <==> e == es[0] || e in es[1..];
  }

  /** In the end every session has the status of its attempt: completed where its row succeeded in
      it, failed otherwise. */
  ghost predicate StatusesFinal(s: State) {
    && |s.sessions| == |s.allCaseRuns|
    && forall j: nat :: j < |s.sessions| ==>
         && s.allCaseRuns[j].row in s.results
         && var r := s.results[s.allCaseRuns[j].row];
         s.sessions[j] == if r.Succeeded() && r.session == j then Completed else Failed
  }

  /** A finished benchmark ends with every session's status right exactly when no run left its
      session in the status opposite to its outcome. Runs that close their own session by their
      outcome, as runs do, and runs that leave it open are both fine. */
  lemma FinalStatuses(rows: nat, retries: nat, limit: nat, uploads: bool, es: seq<Event>, t: State)
    requires Reaches(Init(rows, retries, limit, uploads), es, t) && Finished(t)
    ensures StatusesFinal(t) <==> !SomeOpposed(es)
  {
    var s := Init(rows, retries, limit, uploads);
    InitInv(rows, retries, limit, uploads);
    assert StatusesTold(s);
    ReachableInvariant(s, es, t);
    StatusesToldIff(s, es, t);
    FinishedTold(t);
  }

  lemma FinishedTold(t: State)
    requires Inv(t) && Finished(t)
    ensures StatusesFinal(t) <==> StatusesTold(t)
  {
    FinishedResults(t);
    FinishedSessions(t);
    assert StatusesTold(t) ==> StatusesFinal(t) by {
      if StatusesTold(t) {
        forall j: nat | j < |t.sessions|
          ensures t.sessions[j] == if t.results[t.allCaseRuns[j].row].Succeeded()
                                      && t.results[t.allCaseRuns[j].row].session == j then Completed else Failed
        {
          assert StatusOk(t.allCaseRuns, t.sessions, t.results, j);
        }
      }
    }
  }

  /** A run whose closing write fails has already set its status: the row is failed and its session
      completed. */
  lemma FailedWriteLeavesCompleted()
    ensures var es := [Submitted, Settled(0, Raised, Completed)];
            var s := Init(1, 0, 1, false);
            && Enabled(s, es[0]) && Enabled(Step(s, es[0]), es[1])
            && var t := Step(Step(s, es[0]), es[1]);
            Finished(t) && t.sessions == [Completed] && t.results[0].outcome == Raised
  {}

  /* ---------- Runs of given work ---------- */

  /** What attempt `a` of a row does, and the status its run leaves its session in. */
  datatype Work = Work(outcome: (nat, nat) -> Outcome, left: (nat, nat) -> Manifest)

  ghost predicate Obeys(work: Work, s: State, e: Event) {
    e.Settled? && CanSettle(s, e.slot) ==>
      var a := s.running[e.slot];
      e.outcome == work.outcome(a.row, a.attempt) && e.left == work.left(a.row, a.attempt)
  }

  ghost predicate Plays(work: Work, s: State, es: seq<Event>, t: State)
    decreases |es|
  {
    if es == [] then s == t
    else Enabled(s, es[0]) && Obeys(work, s, es[0]) && Plays(work, Step(s, es[0]), es[1..], t)
  }

  lemma {:induction false} PlaysReaches(work: Work, s: State, es: seq<Event>, t: State)
    requires Plays(work, s, es, t)
    ensures Reaches(s, es, t)
    decreases |es|
  {
    if es != [] {
      PlaysReaches(work, Step(s, es[0]), es[1..], t);
    }
  }

  lemma {:induction false} PlaysOn(work: Work, s: State, es: seq<Event>, t: State, e: Event)
    requires Plays(work, s, es, t) && Enabled(t, e) && Obeys(work, t, e)
    ensures Plays(work, s, es + [e], Step(t, e))
    decreases |es|
  {
    hide Step, Enabled, Obeys;
    if es == [] {
      assert [e][1..] == [];
    } else {
      PlaysOn(work, Step(s, es[0]), es[1..], t, e);
      assert (es + [e])[1..] == es[1..] + [e];
    }
  }

  /** All attempts of the row before this one have raised. */
  ghost predicate RaisedBefore(work: Work, row: nat, attempt: nat) {
    forall b: nat :: 1 <= b < attempt ==> work.outcome(row, b).Raised?
  }

  ghost predicate ShowsWork(work: Work, row: nat, r: ResultRow) {
    r.outcome == work.outcome(row, r.attempts) && RaisedBefore(work, row, r.attempts)
  }

  ghost predicate Worked(work: Work, s: State) {
    && (forall a :: a in s.pending || a in s.running ==> RaisedBefore(work, a.row, a.attempt))
    && (forall row :: row in s.results ==> ShowsWork(work, row, s.results[row]))
  }

  lemma WorkedStep(work: Work, s: State, e: Event)
    requires Inv(s) && Worked(work, s) && Enabled(s, e) && Obeys(work, s, e)
    ensures Worked(work, Step(s, e))
  {
    if e.Settled? {
      var a := s.running[e.slot];
      assert a in s.running;
    }
    hide Inv;
  }

  /** Every row shows what its first returning attempt did, or its last one if none returned. */
  lemma {:induction false} PlaysWorked(work: Work, s: State, es: seq<Event>, t: State)
    requires Inv(s) && Worked(work, s) && Plays(work, s, es, t)
    ensures Worked(work, t)
    decreases |es|
  {
    if es != [] {
      StepKeepsInvariant(s, es[0]);
      WorkedStep(work, s, es[0]);
      PlaysWorked(work, Step(s, es[0]), es[1..], t);
      hide Inv, Worked, Step;
    }
  }

  lemma InitWorked(work: Work, rows: nat, retries: nat, limit: nat, uploads: bool)
    ensures Worked(work, Init(rows, retries, limit, uploads))
  {}

  /* ---------- The loop ---------- */

  class Scheduler {
    const uploads: bool
    const rows: nat
    const retries: nat
    const limit: nat
    const work: Work
    const writes: nat -> bool
    var clock: nat
    var pending: seq<Attempt>
    var running: seq<Attempt>
    var results: map<nat, ResultRow>
    var completionIndex: nat
    var caseRuns: map<nat, CaseRun>
    var allCaseRuns: seq<CaseRun>
    var sessions: seq<Manifest>
    var handed: seq<nat>

    function Value(): State
      reads this
    {
      State(uploads, rows, retries, limit, pending, running, results, completionIndex, caseRuns, allCaseRuns, sessions,
            handed)
    }

    constructor (rows: nat, retries: nat, limit: nat, uploads: bool, work: Work, writes: nat -> bool)
      ensures Value() == Nothing(rows, retries, limit, uploads) && clock == 0
      ensures this.work == work && this.writes == writes
      ensures this.rows == rows && this.retries == retries && this.limit == limit && this.uploads == uploads
    {
      this.rows, this.retries, this.limit, this.uploads := rows, retries, limit, uploads;
      this.work, this.writes := work, writes;
      pending, running, results, completionIndex, caseRuns, allCaseRuns := [], [], map[], 0, map[], [];
      sessions, handed, clock := [], [], 0;
    }

    /** No session write failed from one count up to another. */
    ghost predicate Written(from: nat, to: nat) {
      forall c :: from <= c < to ==> writes(c)
    }

    /** A session write of the command outside of the loop. */
    method Write() returns (ok: bool)
      modifies this`clock
      ensures clock == old(clock) + 1 && ok == writes(old(clock))
    {
      ok := writes(clock);
      clock := clock + 1;
    }

    /** Nothing more than `from` has been recorded or handed over. */
    ghost predicate Stopped(from: State)
      reads this
    {
      results == from.results && handed == from.handed
    }

    /** One run session per row, then one first attempt per row. */
    method CreateCaseRuns() returns (ok: bool)
      requires Value() == Nothing(rows, retries, limit, uploads)
      modifies this
      ensures old(clock) <= clock && (ok <==> Written(old(clock), clock))
      ensures if ok then Value() == Init(rows, retries, limit, uploads) else Stopped(old(Value()))
    {
      for i := 0 to rows
        invariant allCaseRuns == seq(i, j requires 0 <= j => CaseRun(j, j))
        invariant sessions == seq(i, j => Running)
        invariant caseRuns == map j: nat | j < i :: CaseRun(j, j)
        invariant pending == seq(i, j requires 0 <= j => Attempt(j, 1))
        invariant running == [] && results == map[] && completionIndex == 0 && handed == []
        invariant old(clock) <= clock && Written(old(clock), clock)
      {
        var run;
        ok, run := CreateCaseRun(i);
        if !ok {
          return;
        }
        caseRuns := caseRuns[i := run];
        allCaseRuns := allCaseRuns + [run];
        pending := pending + [Attempt(i, 1)];
      }
      ok := true;
    }

    /** A failed creation may leave a session behind. */
    method CreateCaseRun(row: nat) returns (ok: bool, run: CaseRun)
      modifies this`sessions, this`clock
      ensures clock == old(clock) + 1 && ok == writes(old(clock))
      ensures ok ==> sessions == old(sessions) + [Running] && run == CaseRun(row, |old(sessions)|)
      ensures !ok ==> old(sessions) <= sessions
    {
      ok := writes(clock);
      clock := clock + 1;
      run := CaseRun(row, |sessions|);
      var left: bool := *;
      if ok || left {
        sessions := sessions + [Running];
      }
    }

    /** Both ways of closing a session do nothing when its run has already closed it. A failed write
        may leave the new status or the old one. */
    method Finalize(session: nat, status: Manifest) returns (ok: bool)
      requires session < |sessions|
      modifies this`sessions, this`clock
      ensures old(clock) <= clock && (ok <==> Written(old(clock), clock))
      ensures ok ==> sessions == Close(old(sessions), session, status)
      ensures !ok ==> sessions == old(sessions) || sessions == Close(old(sessions), session, status)
    {
      if sessions[session] != Running {
        return true;
      }
      ok := writes(clock);
      clock := clock + 1;
      var left: bool := *;
      if ok || left {
        sessions := sessions[session := status];
      }
    }

    method SubmitNext()
      requires CanSubmit(Value())
      modifies this`pending, this`running
      ensures Value() == Submit(old(Value()))
    {
      var attempt := pending[0];
      pending := pending[1..];
      running := running + [attempt];
    }

    method FillSlots(ghost start: State, ghost before: seq<Event>) returns (ghost es: seq<Event>)
      requires Inv(Value()) && limit >= 1 && Plays(work, start, before, Value())
      modifies this`pending, this`running
      ensures Plays(work, start, es, Value())
      ensures Inv(Value()) && Measure(Value()) <= old(Measure(Value()))
      ensures pending == [] || |running| == limit
      ensures old(Finished(Value())) <==> Finished(Value())
    {
      es := before;
      while pending != [] && |running| < limit
        invariant Plays(work, start, es, Value())
        invariant Inv(Value()) && Measure(Value()) <= old(Measure(Value()))
        invariant old(Finished(Value())) <==> Finished(Value())
      {
        SubmitInv(Value());
        PlaysOn(work, start, es, Value(), Submitted);
        SubmitNext();
        es := es + [Submitted];
      }
    }

    /** A fresh run session and the next attempt. */
    method Retry(attempt: Attempt) returns (ok: bool)
      modifies this`clock, this`sessions, this`caseRuns, this`allCaseRuns, this`pending
      ensures clock == old(clock) + 1 && ok == writes(old(clock))
      ensures ok ==> var next := CaseRun(attempt.row, |old(sessions)|);
                     && sessions == old(sessions) + [Running] && caseRuns == old(caseRuns)[attempt.row := next]
                     && allCaseRuns == old(allCaseRuns) + [next]
                     && pending == old(pending) + [Attempt(attempt.row, attempt.attempt + 1)]
    {
      var next;
      ok, next := CreateCaseRun(attempt.row);
      if ok {
        caseRuns := caseRuns[attempt.row := next];
        allCaseRuns := allCaseRuns + [next];
        pending := pending + [Attempt(attempt.row, attempt.attempt + 1)];
      }
    }

    /** A failed write ends the command: the row gets no result and is not handed over. */
    method SettleSlot(k: nat, outcome: Outcome, left: Manifest) returns (ok: bool)
      requires CanSettle(Value(), k)
      modifies this
      ensures old(clock) <= clock && (ok <==> Written(old(clock), clock))
      ensures if ok then Value() == Settle(old(Value()), k, outcome, left) else Stopped(old(Value()))
      ensures ok && (outcome.Returned? || old(running[k]).attempt > retries) ==>
                old(running[k]).row in results && results[old(running[k]).row].outcome == outcome
      ensures handed == old(handed) + if ok && uploads && outcome == Returned(true) then [old(running[k]).row] else []
    {
      var attempt := running[k];
      running := running[..k] + running[k + 1..];
      var run := caseRuns[attempt.row];
      sessions := sessions[run.session := left];
      ok := Finalize(run.session, if outcome.Raised? then Failed else Completed);
      if !ok {
        return;
      }
      if outcome.Raised? && attempt.attempt <= retries {
        ok := Retry(attempt);
        return;
      }
      results := results[attempt.row := ResultRow(outcome, attempt.attempt, completionIndex, run.session)];
      completionIndex := completionIndex + 1;
      if outcome.Returned? && uploads && outcome.evaluated {
        handed := handed + [attempt.row];
      }
    }

    /** The loop was aborted by a failed write in settling an attempt at state `last`: what was handed
        over are the evaluated successes so far, and some row has no result. */
    ghost predicate Aborted(last: State)
      reads this
    {
      && Inv(last) && last.running != [] && last.rows == rows && last.uploads == uploads && Stopped(last)
      && HandedOver(uploads, results, handed)
      && (forall row :: row in results ==> row < rows)
      && exists row: nat :: row < rows && row !in results
    }

    lemma StoppedIsAborted(from: State, k: nat)
      requires Inv(from) && k < |from.running| && Stopped(from) && from.rows == rows && from.uploads == uploads
      ensures Aborted(from)
    {
      OnePlace(from, from.running[k]);
      assert from.running[k].row !in results;
    }

    /** The scheduling loop. Each wait returns some nonempty set of done futures, in any order. It is a
        run `es` of the step machine on this work, and is aborted exactly when one of its own session
        writes fails: then `last` is where. */
    method Run() returns (ok: bool, ghost es: seq<Event>, ghost last: State)
      requires Inv(Value()) && limit >= 1
      modifies this
      ensures old(clock) <= clock && (ok <==> Written(old(clock), clock))
      ensures Plays(work, old(Value()), es, last) && (ok ==> last == Value())
      ensures ok ==> Inv(Value()) && Finished(Value()) && HandedOver(uploads, results, handed)
      ensures ok ==> Complete(rows, retries, results, sessions, allCaseRuns)
      ensures !ok ==> Aborted(last)
    {
      es, last := [], Value();
      while pending != [] || running != []
        invariant Inv(Value()) && old(clock) <= clock && Written(old(clock), clock)
        invariant Plays(work, old(Value()), es, Value())
        decreases Measure(Value())
      {
        hide Plays;
        es := FillSlots(old(Value()), es);
        ok, es, last := SettleDone(old(Value()), es);
        if !ok {
          return;
        }
      }
      last := Value();
      FinishedIsComplete(Value());
      ok := true;
    }

    /** One wait: at least one future is done, and each done future is settled before the next
        submission. */
    method SettleDone(ghost start: State, ghost before: seq<Event>)
        returns (ok: bool, ghost es: seq<Event>, ghost last: State)
      requires Inv(Value()) && running != [] && Plays(work, start, before, Value())
      modifies this
      ensures old(clock) <= clock && (ok <==> Written(old(clock), clock))
      ensures Plays(work, start, es, last) && (ok ==> last == Value())
      ensures if ok then Inv(Value()) && 0 <= Measure(Value()) < old(Measure(Value())) else Aborted(last)
    {
      hide Inv, Measure, Aborted, Plays;
      es, last := before, Value();
      var done: nat :| 1 <= done <= |running|;
      while done > 0
        invariant Inv(Value()) && done <= |running|
        invariant old(clock) <= clock && Written(old(clock), clock)
        invariant Measure(Value()) <= old(Measure(Value()))
        invariant done == 0 ==> Measure(Value()) < old(Measure(Value()))
        invariant Plays(work, start, es, Value()) && last == Value()
      {
        var k: nat :| k < |running|;
        ok := SettleFuture(k);
        if !ok {
          StoppedIsAborted(last, k);
          return;
        }
        var a := last.running[k];
        PlaysOn(work, start, es, last, Settled(k, work.outcome(a.row, a.attempt), work.left(a.row, a.attempt)));
        es := es + [Settled(k, work.outcome(a.row, a.attempt), work.left(a.row, a.attempt))];
        last := Value();
        done := done - 1;
      }
      MeasureNonNegative(Value());
      ok := true;
    }

    /** The future in slot `k` is done: settle it with what its attempt did. */
    method SettleFuture(k: nat) returns (ok: bool)
      requires Inv(Value()) && k < |running|
      modifies this
      ensures old(clock) <= clock && (ok <==> Written(old(clock), clock))
      ensures CanSettle(old(Value()), k)
      ensures var a := old(running[k]);
              var after := Settle(old(Value()), k, work.outcome(a.row, a.attempt), work.left(a.row, a.attempt));
              if ok then
                && Value() == after && Inv(after) && Measure(after) < old(Measure(Value()))
                && |running| == |old(running)| - 1
              else Stopped(old(Value()))
    {
      var a := running[k];
      SettleInv(Value(), k, work.outcome(a.row, a.attempt), work.left(a.row, a.attempt));
      hide Inv, Measure;
      ok := SettleSlot(k, work.outcome(a.row, a.attempt), work.left(a.row, a.attempt));
    }

    /** The preflight failed: every row is reported failed after its first attempt, in input order,
        and every session is closed. */
    method FailAll() returns (ok: bool)
      requires Value() == Init(rows, retries, limit, uploads)
      modifies this
      ensures handed == [] && pending == [] && old(clock) <= clock && (ok <==> Written(old(clock), clock))
      ensures ok ==> Complete(rows, 0, results, sessions, allCaseRuns)
      ensures ok ==> forall i :: i in results ==> !results[i].Succeeded() && results[i].completionIndex == i
      ensures ok ==> forall j :: 0 <= j < |sessions| ==> sessions[j] == Failed
    {
      pending := [];
      for i := 0 to rows
        invariant |sessions| == rows && caseRuns == old(caseRuns) && allCaseRuns == old(allCaseRuns)
        invariant handed == [] && pending == []
        invariant forall j: nat :: j in results <==> j < i
        invariant forall j :: j in results ==> results[j] == ResultRow(Raised, 1, j, j)
        invariant forall j :: 0 <= j < rows ==> sessions[j] == if j < i then Failed else Running
        invariant old(clock) <= clock && Written(old(clock), clock)
      {
        ok := Finalize(caseRuns[i].session, Failed);
        if !ok {
          return;
        }
        results := results[i := ResultRow(Raised, 1, i, caseRuns[i].session)];
      }
      FailedIsComplete(rows, results, sessions);
      ok := true;
    }
  }

  lemma FailedIsComplete(rows: nat, results: map<nat, ResultRow>, sessions: seq<Manifest>)
    requires forall i: nat :: i in results <==> i < rows
    requires forall i :: i in results ==> results[i] == ResultRow(Raised, 1, i, i)
    requires |sessions| == rows && forall j :: 0 <= j < rows ==> sessions[j] == Failed
    ensures Complete(rows, 0, results, sessions, FirstRuns(rows))
  {
    forall i: nat | i < rows
      ensures SessionsFor(FirstRuns(rows), i) == 1
    {
      InitSessions(rows, i);
    }
    forall c: nat | c < rows
      ensures CompletedAt(results, c)
    {
      assert results[c].completionIndex == c;
    }
    OneEach(results, rows);
  }

  lemma OneEach(results: map<nat, ResultRow>, n: nat)
    requires forall i: nat :: i < n ==> i in results && results[i].attempts == 1
    ensures Attempts(results, n) == n
  {}
}
