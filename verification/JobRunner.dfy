/** The thread registry of the workbench: requirement triage threads, one per session, and a bounded
    list of workers per lane. One lock keeps the registry calls apart, but not the threads: between
    any two steps of a call, any thread may die. */
module JobRunner {
  import opened Ranges

  datatype Lane = Cts | Liepin

  const CTS_WORKER_COUNT: nat := 2
  const LIEPIN_WORKER_COUNT: nat := 1

  function WorkerCount(lane: Lane): nat {
    if lane == Cts then CTS_WORKER_COUNT else LIEPIN_WORKER_COUNT
  }

  datatype Kind = Triage(session: string) | Worker(lane: Lane)

  /** `Leaving`: deregistered but still running. */
  datatype Phase = Unstarted | Running | Leaving | Dead

  /** Where the call that holds the lock stands. A triage call looks at the registered threads one by
      one (`Scanning`), then records its opening notes and starts its thread; a wake call looks at the
      workers of a lane (`Sorting`), then creates and starts workers until the lane is full. */
  datatype Pc =
    | Idle
    | Scanning(session: string, todo: set<string>, kept: map<string, nat>)
    | Noting(session: string)
    | Launching(thread: nat)
    | Sorting(lane: Lane, next: nat, live: seq<nat>)
    | Filling(lane: Lane)
    | Hiring(lane: Lane, thread: nat)

  /** Threads are numbered by creation; `kinds` and `phases` describe them, `triage`, `cts` and
      `liepin` are the registry. */
  datatype State = State(
    triage: map<string, nat>,
    cts: seq<nat>,
    liepin: seq<nat>,
    kinds: seq<Kind>,
    phases: seq<Phase>,
    pc: Pc)

  function Workers(st: State, lane: Lane): seq<nat> {
    if lane == Cts then st.cts else st.liepin
  }

  function WithWorkers(st: State, lane: Lane, workers: seq<nat>): State {
    if lane == Cts then st.(cts := workers) else st.(liepin := workers)
  }

  const INITIAL := State(map[], [], [], [], [], Idle)

  /** What a triage call comes to: not wanted, because the session is missing or its triage is filled
      in; refused, because a thread is at work; failed by raising; or launched. */
  datatype Answer = NotWanted | Refused | Failed | Launched

  predicate Alive(st: State, t: nat) {
    t < |st.phases| && (st.phases[t] == Running || st.phases[t] == Leaving)
  }

  /* ---------- Steps ---------- */

  /** `ok` tells whether recording the notes or starting a thread succeeds; a failure raises. */
  datatype Event =
    | CallTriage(session: string)
    | LookAt(session: string)
    | Decide
    | Note(ok: bool)
    | Launch(ok: bool)
    | CallWake
    | LookAtWorker
    | Sorted
    | Append
    | Hire(ok: bool)
    | Full
    | CleanUp(thread: nat)
    | Dies(thread: nat)

  predicate Enabled(st: State, e: Event) {
    match e
    case CallTriage(s) => st.pc == Idle
    case LookAt(s) => st.pc.Scanning? && s in st.pc.todo && s in st.triage
    case Decide => st.pc.Scanning? && st.pc.todo == {}
    case Note(ok) => st.pc.Noting?
    case Launch(ok) => st.pc.Launching? && st.pc.thread < |st.phases|
    case CallWake => st.pc == Idle
    case LookAtWorker => st.pc.Sorting? && st.pc.next < |Workers(st, st.pc.lane)|
    case Sorted => st.pc.Sorting? && st.pc.next == |Workers(st, st.pc.lane)|
    case Append => st.pc.Filling? && |Workers(st, st.pc.lane)| < WorkerCount(st.pc.lane)
    case Hire(ok) => st.pc.Hiring? && st.pc.thread < |st.phases|
    case Full => st.pc.Filling? && |Workers(st, st.pc.lane)| >= WorkerCount(st.pc.lane)
    case CleanUp(t) =>
      st.pc == Idle && t < |st.kinds| && t < |st.phases| && st.kinds[t].Triage? && st.phases[t] == Running
    case Dies(t) => Alive(st, t)
  }

  function Created(st: State, kind: Kind): State {
    st.(kinds := st.kinds + [kind], phases := st.phases + [Unstarted])
  }

  function Started(st: State, t: nat): State
    requires t < |st.phases|
  {
    st.(phases := st.phases[t := Running])
  }

  /** A thread removes its own registration only. */
  function Deregistered(st: State, t: nat): State
    requires t < |st.kinds| && t < |st.phases| && st.kinds[t].Triage?
  {
    var session := st.kinds[t].session;
    var left := st.(phases := st.phases[t := Leaving]);
    if session in st.triage && st.triage[session] == t
    then left.(triage := st.triage - {session})
    else left
  }

  function Step(st: State, e: Event): State
    requires Enabled(st, e)
  {
    match e
    case CallTriage(session) => st.(pc := Scanning(session, st.triage.Keys, map[]))
    case LookAt(s) =>
      var kept := if Alive(st, st.triage[s]) then st.pc.kept[s := st.triage[s]] else st.pc.kept;
      st.(pc := Scanning(st.pc.session, st.pc.todo - {s}, kept))
    case Decide =>
      st.(triage := st.pc.kept, pc := if st.pc.session in st.pc.kept then Idle else Noting(st.pc.session))
    case Note(ok) =>
      if !ok then st.(pc := Idle)
      else
        var t := |st.kinds|;
        Created(st, Triage(st.pc.session)).(triage := st.triage[st.pc.session := t], pc := Launching(t))
    case Launch(ok) => (if ok then Started(st, st.pc.thread) else st).(pc := Idle)
    case CallWake => st.(pc := Sorting(Cts, 0, []))
    case LookAtWorker =>
      var t := Workers(st, st.pc.lane)[st.pc.next];
      st.(pc := Sorting(st.pc.lane, st.pc.next + 1, if Alive(st, t) then st.pc.live + [t] else st.pc.live))
    case Sorted => WithWorkers(st, st.pc.lane, st.pc.live).(pc := Filling(st.pc.lane))
    case Append =>
      var (lane, t) := (st.pc.lane, |st.kinds|);
      WithWorkers(Created(st, Worker(lane)), lane, Workers(st, lane) + [t]).(pc := Hiring(lane, t))
    case Hire(ok) =>
      if ok then Started(st, st.pc.thread).(pc := Filling(st.pc.lane)) else st.(pc := Idle)
    case Full => st.(pc := if st.pc.lane == Cts then Sorting(Liepin, 0, []) else Idle)
    case CleanUp(t) => Deregistered(st, t)
    case Dies(t) => st.(phases := st.phases[t := Dead])
  }

  /* ---------- The registry invariant ---------- */

  ghost predicate Shape(st: State) {
    && |st.kinds| == |st.phases|
    && forall s :: s in st.triage ==> st.triage[s] < |st.kinds| && st.kinds[st.triage[s]] == Triage(s)
  }

  /** A running triage thread is the one registered for its session. */
  ghost predicate TriageRegistered(st: State) {
    forall t :: 0 <= t < |st.kinds| == |st.phases| && st.kinds[t].Triage? && st.phases[t] == Running ==>
      st.kinds[t].session in st.triage && st.triage[st.kinds[t].session] == t
  }

  ghost predicate Distinct(threads: seq<nat>) {
    forall i, j :: 0 <= i < j < |threads| ==> threads[i] != threads[j]
  }

  /** The list of a lane holds every live worker of the lane, nothing foreign, no thread twice, and
      never more than the lane's worker count. */
  ghost predicate LaneListed(st: State, lane: Lane) {
    && |Workers(st, lane)| <= WorkerCount(lane) && Distinct(Workers(st, lane))
    && (forall t :: t in Workers(st, lane) ==> t < |st.kinds| && st.kinds[t] == Worker(lane))
    && forall t :: 0 <= t < |st.kinds| == |st.phases| && st.kinds[t] == Worker(lane) && Alive(st, t) ==>
         t in Workers(st, lane)
  }

  ghost predicate ScanOk(st: State, todo: set<string>, kept: map<string, nat>) {
    && todo <= st.triage.Keys
    && (forall s :: s in kept ==> s in st.triage && kept[s] == st.triage[s])
    && forall s :: s in st.triage && s !in todo && s !in kept ==> !Alive(st, st.triage[s])
  }

  ghost predicate SortOk(st: State, lane: Lane, next: nat, live: seq<nat>) {
    && next <= |Workers(st, lane)| && |live| <= next && Distinct(live)
    && (forall t :: t in live ==> t in Workers(st, lane)[..next])
    && forall t :: t in Workers(st, lane)[..next] && Alive(st, t) ==> t in live
  }

  ghost predicate PcOk(st: State) {
    match st.pc
    case Idle => true
    case Scanning(session, todo, kept) => ScanOk(st, todo, kept)
    case Noting(session) => session !in st.triage
    case Launching(t) =>
      && t < |st.kinds| == |st.phases| && st.kinds[t].Triage? && st.phases[t] == Unstarted
      && st.kinds[t].session in st.triage && st.triage[st.kinds[t].session] == t
    case Sorting(lane, next, live) => SortOk(st, lane, next, live)
    case Filling(lane) => true
    case Hiring(lane, t) =>
      && t < |st.kinds| == |st.phases| && st.kinds[t] == Worker(lane) && st.phases[t] == Unstarted
      && t in Workers(st, lane)
  }

  ghost predicate Inv(st: State) {
    Shape(st) && TriageRegistered(st) && LaneListed(st, Cts) && LaneListed(st, Liepin) && PcOk(st)
  }

  /** Nothing but the phases of threads differs, and no thread has come alive. */
  ghost predicate OnlyDeaths(st: State, after: State) {
    && after == st.(phases := after.phases) && |after.phases| == |st.phases|
    && forall t :: 0 <= t < |st.phases| && after.phases[t] != st.phases[t] ==>
         && st.phases[t] != Unstarted && after.phases[t] != Running
         && !(st.phases[t] == Dead && after.phases[t] == Leaving)
  }

  lemma DeathsKeepLane(st: State, after: State, lane: Lane)
    requires OnlyDeaths(st, after) && LaneListed(st, lane)
    ensures LaneListed(after, lane)
  {}

  lemma DeathsKeep(st: State, after: State)
    requires Inv(st) && OnlyDeaths(st, after)
    ensures Inv(after)
  {
    DeathsKeepLane(st, after, Cts);
    DeathsKeepLane(st, after, Liepin);
    hide LaneListed;
  }

  lemma DeregisteredKeeps(st: State, t: nat)
    requires Inv(st) && Enabled(st, CleanUp(t))
    ensures Inv(Deregistered(st, t))
  {
    var left := st.(phases := st.phases[t := Leaving]);
    DeathsKeep(st, left);
    assert LaneListed(Deregistered(st, t), Cts) && LaneListed(Deregistered(st, t), Liepin);
    hide LaneListed;
  }

  /** A thread that cleans up takes exactly the registrations that name it: its own, unless a later
      call has replaced it. From then on it keeps no call of its session from starting another. */
  lemma DeregisteredMeans(st: State, t: nat)
    requires Inv(st) && Enabled(st, CleanUp(t))
    ensures var after := Deregistered(st, t);
            && (forall s :: s in after.triage <==> s in st.triage && st.triage[s] != t)
            && (forall s :: s in after.triage ==> after.triage[s] == st.triage[s])
            && after == st.(triage := after.triage, phases := st.phases[t := Leaving])
            && RunningTriage(after, st.kinds[t].session) == {}
  {
    var after := Deregistered(st, t);
    DeregisteredKeeps(st, t);
    RunningAreRegistered(after, st.kinds[t].session);
    hide LaneListed;
  }

  /** Creating a thread that is not started yet disturbs no list. */
  lemma CreatedKeepsLane(st: State, after: State, kind: Kind, lane: Lane)
    requires Shape(st) && LaneListed(st, lane)
    requires after.kinds == st.kinds + [kind] && after.phases == st.phases + [Unstarted]
    requires Workers(after, lane) == Workers(st, lane)
    ensures LaneListed(after, lane)
  {
    forall t | 0 <= t < |after.kinds| && after.kinds[t] == Worker(lane) && Alive(after, t)
      ensures t in Workers(after, lane)
    {
      assert Alive(st, t);
    }
  }

  lemma NoteKeeps(st: State)
    requires Inv(st) && st.pc.Noting?
    ensures Inv(Step(st, Note(true)))
  {
    var after := Step(st, Note(true));
    CreatedKeepsLane(st, after, Triage(st.pc.session), Cts);
    CreatedKeepsLane(st, after, Triage(st.pc.session), Liepin);
    hide LaneListed;
    assert Shape(after) && TriageRegistered(after);
  }

  lemma LaunchKeeps(st: State, t: nat)
    requires Inv(st) && st.pc == Launching(t)
    ensures Inv(Step(st, Launch(true)))
  {
    var after := Step(st, Launch(true));
    assert LaneListed(after, Cts) && LaneListed(after, Liepin);
    hide LaneListed;
  }

  function Other(lane: Lane): Lane {
    if lane == Cts then Liepin else Cts
  }

  lemma DistinctMore(threads: seq<nat>, t: nat)
    requires Distinct(threads) && t !in threads
    ensures Distinct(threads + [t])
  {}

  lemma AppendListed(st: State, lane: Lane)
    requires Shape(st) && LaneListed(st, lane) && st.pc == Filling(lane) && Enabled(st, Append)
    ensures LaneListed(Step(st, Append), lane)
  {
    DistinctMore(Workers(st, lane), |st.kinds|);
    hide Distinct;
  }

  lemma AppendKeeps(st: State, lane: Lane)
    requires Inv(st) && st.pc == Filling(lane) && Enabled(st, Append)
    ensures Inv(Step(st, Append))
  {
    var after := Step(st, Append);
    CreatedKeepsLane(st, after, Worker(lane), Other(lane));
    AppendListed(st, lane);
    hide LaneListed;
    assert Shape(after) && TriageRegistered(after);
  }

  lemma HireKeeps(st: State, lane: Lane, t: nat)
    requires Inv(st) && st.pc == Hiring(lane, t)
    ensures Inv(Step(st, Hire(true)))
  {
    var after := Step(st, Hire(true));
    assert LaneListed(after, Cts) && LaneListed(after, Liepin);
    hide LaneListed;
  }

  /** The workers kept so far, over a bare list. */
  ghost predicate Sifted(workers: seq<nat>, alive: set<nat>, next: nat, live: seq<nat>) {
    && next <= |workers| && |live| <= next && Distinct(live)
    && (forall t :: t in live ==> t in workers[..next])
    && forall t :: t in workers[..next] && t in alive ==> t in live
  }

  lemma SiftNext(workers: seq<nat>, alive: set<nat>, next: nat, live: seq<nat>)
    requires Distinct(workers) && Sifted(workers, alive, next, live) && next < |workers|
    ensures Sifted(workers, alive, next + 1, if workers[next] in alive then live + [workers[next]] else live)
  {
    assert workers[..next + 1] == workers[..next] + [workers[next]];
    assert workers[next] !in workers[..next];
    DistinctMore(live, workers[next]);
    hide Distinct;
  }

  ghost function AliveThreads(st: State): (r: set<nat>)
    ensures forall t: nat :: t in r <==> Alive(st, t)
  {
    set t | t in Range(|st.phases|) && Alive(st, t)
  }

  lemma SiftedIff(st: State, lane: Lane, next: nat, live: seq<nat>)
    ensures Sifted(Workers(st, lane), AliveThreads(st), next, live) <==> SortOk(st, lane, next, live)
  {
    hide Distinct, Alive;
  }

  lemma LookAtWorkerKeeps(st: State, lane: Lane, next: nat, live: seq<nat>)
    requires Inv(st) && st.pc == Sorting(lane, next, live) && Enabled(st, LookAtWorker)
    ensures Inv(Step(st, LookAtWorker))
  {
    assert Distinct(Workers(st, lane)) && SortOk(st, lane, next, live) by {
      assert LaneListed(st, lane);
    }
    hide Inv, Distinct, SortOk, Sifted;
    SiftedIff(st, lane, next, live);
    SiftNext(Workers(st, lane), AliveThreads(st), next, live);
    var t := Workers(st, lane)[next];
    var live' := if Alive(st, t) then live + [t] else live;
    SiftedIff(st, lane, next + 1, live');
    SortPcKeeps(st, lane, next + 1, live');
  }

  lemma SortPcKeeps(st: State, lane: Lane, next: nat, live: seq<nat>)
    requires Inv(st) && SortOk(st, lane, next, live)
    ensures Inv(st.(pc := Sorting(lane, next, live)))
  {
    assert SortOk(st.(pc := Sorting(lane, next, live)), lane, next, live);
    hide SortOk, Inv;
    PcKeeps(st, Sorting(lane, next, live));
  }

  lemma SortedKeeps(st: State, lane: Lane, next: nat, live: seq<nat>)
    requires Inv(st) && st.pc == Sorting(lane, next, live) && Enabled(st, Sorted)
    ensures Inv(Step(st, Sorted))
  {
    var after := Step(st, Sorted);
    assert Workers(st, lane)[..next] == Workers(st, lane);
    assert LaneListed(after, lane);
    assert LaneListed(after, Other(lane));
    hide LaneListed;
  }

  /** Steps that move only the program counter. */
  lemma PcKeeps(st: State, pc: Pc)
    requires Inv(st) && PcOk(st.(pc := pc))
    ensures Inv(st.(pc := pc))
  {
    assert LaneListed(st.(pc := pc), Cts) && LaneListed(st.(pc := pc), Liepin);
    hide LaneListed, PcOk;
  }

  lemma DecideKeeps(st: State)
    requires Inv(st) && Enabled(st, Decide)
    ensures Inv(Step(st, Decide))
  {
    var after := Step(st, Decide);
    assert LaneListed(after, Cts) && LaneListed(after, Liepin);
    hide LaneListed;
  }

  lemma {:induction false} StepKeeps(st: State, e: Event)
    requires Inv(st) && Enabled(st, e)
    ensures Inv(Step(st, e))
  {
    hide Inv;
    match e
    case CallTriage(session) => TriagePcKeeps(st, e);
    case LookAt(s) => TriagePcKeeps(st, e);
    case Decide => DecideKeeps(st);
    case Note(ok) => if ok { NoteKeeps(st); } else { PcKeeps(st, Idle); }
    case Launch(ok) => if ok { LaunchKeeps(st, st.pc.thread); } else { PcKeeps(st, Idle); }
    case CallWake => PcKeeps(st, Sorting(Cts, 0, []));
    case LookAtWorker => LookAtWorkerKeeps(st, st.pc.lane, st.pc.next, st.pc.live);
    case Sorted => SortedKeeps(st, st.pc.lane, st.pc.next, st.pc.live);
    case Append => AppendKeeps(st, st.pc.lane);
    case Hire(ok) => if ok { HireKeeps(st, st.pc.lane, st.pc.thread); } else { PcKeeps(st, Idle); }
    case Full => PcKeeps(st, if st.pc.lane == Cts then Sorting(Liepin, 0, []) else Idle);
    case CleanUp(t) => DeregisteredKeeps(st, t);
    case Dies(t) => DeathsKeep(st, Step(st, e));
  }

  lemma TriagePcKeeps(st: State, e: Event)
    requires Inv(st) && Enabled(st, e) && (e.CallTriage? || e.LookAt?)
    ensures Inv(Step(st, e))
  {
    PcKeeps(st, Step(st, e).pc);
    hide Inv;
  }

  /* ---------- Every interleaving ---------- */

  ghost predicate Follows(st: State, e: Event, after: State) {
    Enabled(st, e) && after == Step(st, e)
  }

  /** `trace` visits every state of a run from the empty registry. */
  ghost predicate IsRun(trace: seq<State>, events: seq<Event>) {
    && |trace| == |events| + 1 && trace[0] == INITIAL
    && forall i :: 0 <= i < |events| ==> Follows(trace[i], events[i], trace[i + 1])
  }

  lemma InitialInv()
    ensures Inv(INITIAL)
  {}

  lemma {:induction false} RunKeeps(trace: seq<State>, events: seq<Event>, i: nat)
    requires IsRun(trace, events) && i <= |events|
    ensures Inv(trace[i])
  {
    hide Inv, Step, Enabled;
    if i == 0 {
      InitialInv();
    } else {
      RunKeeps(trace, events, i - 1);
      assert Follows(trace[i - 1], events[i - 1], trace[i]);
      StepKeeps(trace[i - 1], events[i - 1]);
    }
  }

  ghost function LiveWorkers(st: State, lane: Lane): set<nat> {
    set t | t in Range(|st.kinds|) && st.kinds[t] == Worker(lane) && Alive(st, t)
  }

  /** The triage threads of a session between start and cleanup. */
  ghost function RunningTriage(st: State, session: string): set<nat> {
    set t | t in Range(|st.kinds|) && st.kinds[t] == Triage(session) && t < |st.phases| && st.phases[t] == Running
  }

  lemma {:induction false} MembersBound(members: set<nat>, list: seq<nat>)
    requires forall t :: t in members ==> t in list
    ensures |members| <= |list|
  {
    if list == [] {
      assert members == {};
    } else {
      var n := |list| - 1;
      assert list == list[..n] + [list[n]];
      MembersBound(members - {list[n]}, list[..n]);
    }
  }

  lemma RunningAreRegistered(st: State, session: string)
    requires Shape(st) && TriageRegistered(st)
    ensures forall t :: t in RunningTriage(st, session) ==> session in st.triage && t == st.triage[session]
  {}

  /** In every state of every interleaving, the middle of calls included, at most one triage thread
      per session is between its start and its cleanup, and no lane has more live workers than its
      worker count. */
  lemma MutualExclusion(trace: seq<State>, events: seq<Event>, i: nat, session: string, lane: Lane)
    requires IsRun(trace, events) && i <= |events|
    ensures |RunningTriage(trace[i], session)| <= 1
    ensures |LiveWorkers(trace[i], lane)| <= |Workers(trace[i], lane)| <= if lane == Cts then 2 else 1
  {
    RunKeeps(trace, events, i);
    var st := trace[i];
    MembersBound(LiveWorkers(st, lane), Workers(st, lane));
    RunningAreRegistered(st, session);
    if session in st.triage {
      MembersBound(RunningTriage(st, session), [st.triage[session]]);
    } else {
      assert RunningTriage(st, session) == {};
    }
  }

  /** A triage call that gets as far as starting its thread does so when no triage thread of the
      session is running, and its thread is then the only one. */
  lemma LaunchIsOnly(trace: seq<State>, events: seq<Event>, i: nat)
    requires IsRun(trace, events) && i < |events| && events[i] == Launch(true)
    ensures trace[i].pc.Launching?
    ensures var (st, t) := (trace[i], trace[i].pc.thread);
            && t < |st.kinds| && st.kinds[t].Triage?
            && RunningTriage(st, st.kinds[t].session) == {}
            && RunningTriage(trace[i + 1], st.kinds[t].session) == {t}
  {
    RunKeeps(trace, events, i);
    assert Follows(trace[i], events[i], trace[i + 1]);
    var st, t := trace[i], trace[i].pc.thread;
    RunningAreRegistered(st, st.kinds[t].session);
    hide Inv;
  }

  /* ---------- What a call has seen ---------- */

  /** The thread was alive at some moment of the scan that is still going on. */
  ghost predicate SeenByScan(trace: seq<State>, i: nat, session: string, t: nat) {
    i < |trace| && exists k: nat :: SeenAt(trace, k, i, session, t)
  }

  ghost predicate SeenAt(trace: seq<State>, k: nat, i: nat, session: string, t: nat) {
    && k <= i < |trace| && Alive(trace[k], t)
    && forall m :: k <= m <= i ==> trace[m].pc.Scanning? && trace[m].pc.session == session
  }

  lemma SeenOn(trace: seq<State>, i: nat, session: string, t: nat)
    requires SeenByScan(trace, i, session, t) && i + 1 < |trace|
    requires trace[i + 1].pc.Scanning? && trace[i + 1].pc.session == session
    ensures SeenByScan(trace, i + 1, session, t)
  {
    hide Alive;
    var k: nat :| SeenAt(trace, k, i, session, t);
    assert SeenAt(trace, k, i + 1, session, t);
  }

  /** Every thread the scan keeps was alive when it was looked at. */
  lemma {:induction false} KeptWasAlive(trace: seq<State>, events: seq<Event>, i: nat, s: string)
    requires IsRun(trace, events) && i <= |events| && trace[i].pc.Scanning? && s in trace[i].pc.kept
    ensures SeenByScan(trace, i, trace[i].pc.session, trace[i].pc.kept[s])
  {
    hide Alive;
    if i > 0 {
      assert Follows(trace[i - 1], events[i - 1], trace[i]);
      var before := trace[i - 1];
      if before.pc.Scanning? && s in before.pc.kept && before.pc.kept[s] == trace[i].pc.kept[s] {
        KeptWasAlive(trace, events, i - 1, s);
        SeenOn(trace, i - 1, trace[i].pc.session, trace[i].pc.kept[s]);
      } else {
        assert SeenAt(trace, i - 1, i, trace[i].pc.session, trace[i].pc.kept[s]);
      }
    }
  }

  /** A triage call is refused exactly when it has kept a thread of its session; that thread was alive
      when the call looked at it, and when it has kept none, no thread registered for the session is
      alive. */
  lemma RefusedIff(trace: seq<State>, events: seq<Event>, i: nat)
    requires IsRun(trace, events) && i < |events| && events[i] == Decide
    ensures trace[i].pc.Scanning?
    ensures var (st, session) := (trace[i], trace[i].pc.session);
            && (trace[i + 1].pc == Idle <==> session in st.pc.kept)
            && (session in st.pc.kept ==>
                  && session in st.triage && st.pc.kept[session] == st.triage[session]
                  && SeenByScan(trace, i, session, st.triage[session]))
            && (session !in st.pc.kept ==>
                  !(session in st.triage && Alive(st, st.triage[session])) && RunningTriage(st, session) == {})
  {
    RunKeeps(trace, events, i);
    assert Follows(trace[i], events[i], trace[i + 1]);
    var st := trace[i];
    RunningAreRegistered(st, st.pc.session);
    if st.pc.session in st.pc.kept {
      KeptWasAlive(trace, events, i, st.pc.session);
    }
  }

  /** Deciding keeps every registration whose thread is alive, and each it keeps had a live thread
      when the call looked at it. */
  lemma DecidePrunes(trace: seq<State>, events: seq<Event>, i: nat, s: string)
    requires IsRun(trace, events) && i < |events| && events[i] == Decide
    ensures trace[i].pc.Scanning?
    ensures var (st, after) := (trace[i], trace[i + 1]);
            && (s in st.triage && Alive(st, st.triage[s]) ==> s in after.triage)
            && (s in after.triage ==>
                 && s in st.triage && after.triage[s] == st.triage[s]
                 && SeenByScan(trace, i, st.pc.session, st.triage[s]))
  {
    RunKeeps(trace, events, i);
    assert Follows(trace[i], events[i], trace[i + 1]);
    if s in trace[i].pc.kept {
      KeptWasAlive(trace, events, i, s);
    }
    hide SeenByScan;
  }

  ghost predicate InLane(pc: Pc, lane: Lane) {
    (pc.Sorting? || pc.Filling? || pc.Hiring?) && pc.lane == lane
  }

  ghost predicate LiveAt(trace: seq<State>, k: nat, i: nat, lane: Lane, t: nat) {
    k <= i < |trace| && Alive(trace[k], t) && forall m :: k <= m <= i ==> InLane(trace[m].pc, lane)
  }

  /** The thread was alive at some moment of the call's work on this lane, still going on. */
  ghost predicate LiveDuring(trace: seq<State>, i: nat, lane: Lane, t: nat) {
    exists k: nat :: LiveAt(trace, k, i, lane, t)
  }

  lemma LiveOn(trace: seq<State>, i: nat, lane: Lane, t: nat)
    requires LiveDuring(trace, i, lane, t) && i + 1 < |trace| && InLane(trace[i + 1].pc, lane)
    ensures LiveDuring(trace, i + 1, lane, t)
  {
    hide Alive, InLane;
    var k: nat :| LiveAt(trace, k, i, lane, t);
    assert LiveAt(trace, k, i + 1, lane, t);
  }

  /** The workers a lane call has so far settled on: those it found alive and those it started. */
  ghost predicate Settled(st: State, lane: Lane, t: nat) {
    || (st.pc.Sorting? && st.pc.lane == lane && t in st.pc.live)
    || (st.pc.Filling? && st.pc.lane == lane && t in Workers(st, lane))
    || (st.pc.Hiring? && st.pc.lane == lane && t in Workers(st, lane) && t != st.pc.thread)
  }

  /** A worker becomes settled only by being found alive or by being started. */
  lemma SettledGrows(st: State, e: Event, lane: Lane, t: nat)
    requires Inv(st) && Enabled(st, e) && Settled(Step(st, e), lane, t)
    ensures InLane(Step(st, e).pc, lane)
    ensures Settled(st, lane, t) || (InLane(st.pc, lane) && Alive(st, t)) || Alive(Step(st, e), t)
  {
    hide Inv;
    if e.Append? {
      SettledByAppend(st, lane, t);
    } else if e.Hire? {
      SettledByHire(st, e.ok, lane, t);
    }
  }

  lemma SettledByAppend(st: State, lane: Lane, t: nat)
    requires Enabled(st, Append) && Settled(Step(st, Append), lane, t)
    ensures InLane(Step(st, Append).pc, lane) && Settled(st, lane, t)
  {}

  lemma SettledByHire(st: State, ok: bool, lane: Lane, t: nat)
    requires Enabled(st, Hire(ok)) && Settled(Step(st, Hire(ok)), lane, t)
    ensures InLane(Step(st, Hire(ok)).pc, lane)
    ensures Settled(st, lane, t) || Alive(Step(st, Hire(ok)), t)
  {}

  lemma {:induction false} SettledWereLive(trace: seq<State>, events: seq<Event>, i: nat, lane: Lane, t: nat)
    requires IsRun(trace, events) && i <= |events| && Settled(trace[i], lane, t)
    ensures LiveDuring(trace, i, lane, t)
  {
    if i > 0 {
      SettledBefore(trace, events, i, lane, t);
      hide IsRun, Settled, Alive, InLane;
      if Settled(trace[i - 1], lane, t) {
        SettledWereLive(trace, events, i - 1, lane, t);
        LiveOn(trace, i - 1, lane, t);
      }
    }
  }

  lemma SettledBefore(trace: seq<State>, events: seq<Event>, i: nat, lane: Lane, t: nat)
    requires IsRun(trace, events) && 0 < i <= |events| && Settled(trace[i], lane, t)
    ensures InLane(trace[i].pc, lane)
    ensures Settled(trace[i - 1], lane, t) || LiveDuring(trace, i, lane, t)
  {
    RunKeeps(trace, events, i - 1);
    assert Follows(trace[i - 1], events[i - 1], trace[i]);
    SettledGrows(trace[i - 1], events[i - 1], lane, t);
    hide Step, Enabled, Settled, Alive, InLane, Inv;
    if InLane(trace[i - 1].pc, lane) && Alive(trace[i - 1], t) {
      assert LiveAt(trace, i - 1, i, lane, t);
    } else if Alive(trace[i], t) {
      assert LiveAt(trace, i, i, lane, t);
    }
  }

  /** A call that has filled a lane leaves exactly its worker count of workers in the list, each of
      them alive at some moment of the call: when the call looked at it or when the call started it. */
  lemma FilledLane(trace: seq<State>, events: seq<Event>, i: nat, t: nat)
    requires IsRun(trace, events) && i < |events| && events[i] == Full
    ensures trace[i].pc.Filling?
    ensures var lane := trace[i].pc.lane;
            && |Workers(trace[i + 1], lane)| == (if lane == Cts then 2 else 1)
            && (t in Workers(trace[i + 1], lane) ==> LiveDuring(trace, i, lane, t))
  {
    RunKeeps(trace, events, i);
    assert Follows(trace[i], events[i], trace[i + 1]);
    if t in Workers(trace[i], trace[i].pc.lane) {
      SettledWereLive(trace, events, i, trace[i].pc.lane, t);
    }
    hide LiveDuring;
  }

  /** The thread has died while the call was at work on this lane, as it still is. */
  ghost predicate DiedSince(trace: seq<State>, events: seq<Event>, i: nat, lane: Lane, t: nat) {
    exists m: nat :: DiesAt(trace, events, m, i, lane, t)
  }

  ghost predicate DiesAt(trace: seq<State>, events: seq<Event>, m: nat, i: nat, lane: Lane, t: nat) {
    m < i < |trace| && m < |events| && events[m] == Dies(t) && forall n :: m <= n <= i ==> InLane(trace[n].pc, lane)
  }

  lemma DeadStays(st: State, e: Event, t: nat)
    requires Inv(st) && Enabled(st, e) && t < |st.phases| && st.phases[t] == Dead
    ensures t < |Step(st, e).phases| && Step(st, e).phases[t] == Dead
  {}

  lemma AliveStays(st: State, e: Event, t: nat)
    requires Enabled(st, e) && Alive(st, t) && e != Dies(t)
    ensures Alive(Step(st, e), t)
  {}

  /** A thread that was alive and did not die is alive. */
  lemma {:induction false} AliveOn(trace: seq<State>, events: seq<Event>, k: nat, i: nat, t: nat)
    requires IsRun(trace, events) && k <= i <= |events| && Alive(trace[k], t)
    requires forall m :: k <= m < i ==> events[m] != Dies(t)
    ensures Alive(trace[i], t)
    decreases i - k
  {
    hide Alive, Step, Enabled;
    if k < i {
      assert Follows(trace[k], events[k], trace[k + 1]);
      AliveStays(trace[k], events[k], t);
      AliveOn(trace, events, k + 1, i, t);
    }
  }

  lemma {:induction false} DeadOn(trace: seq<State>, events: seq<Event>, k: nat, i: nat, t: nat)
    requires IsRun(trace, events) && k <= i <= |events| && t < |trace[k].phases| && trace[k].phases[t] == Dead
    ensures !Alive(trace[i], t)
    decreases i - k
  {
    if k < i {
      RunKeeps(trace, events, k);
      assert Follows(trace[k], events[k], trace[k + 1]);
      hide Inv, Step, Enabled, IsRun;
      DeadStays(trace[k], events[k], t);
      DeadOn(trace, events, k + 1, i, t);
    }
  }

  lemma DeathKills(trace: seq<State>, events: seq<Event>, m: nat, t: nat)
    requires IsRun(trace, events) && m < |events| && events[m] == Dies(t)
    ensures t < |trace[m + 1].phases| && trace[m + 1].phases[t] == Dead
  {
    assert Follows(trace[m], events[m], trace[m + 1]);
  }

  /** Of the workers a filled lane lists, those are alive that have not died during the call's work on
      the lane. */
  lemma ListedAliveIff(trace: seq<State>, events: seq<Event>, i: nat, lane: Lane, t: nat)
    requires IsRun(trace, events) && i < |events| && events[i] == Full && trace[i].pc == Filling(lane)
    requires t in Workers(trace[i], lane)
    ensures Alive(trace[i], t) <==> !DiedSince(trace, events, i, lane, t)
  {
    SettledWereLive(trace, events, i, lane, t);
    hide IsRun, Alive, InLane, Workers;
    if DiedSince(trace, events, i, lane, t) {
      var m: nat :| DiesAt(trace, events, m, i, lane, t);
      DeathKills(trace, events, m, t);
      DeadOn(trace, events, m + 1, i, t);
    } else {
      var k: nat :| LiveAt(trace, k, i, lane, t);
      forall m | k <= m < i
        ensures events[m] != Dies(t)
      {
        assert !DiesAt(trace, events, m, i, lane, t);
      }
      AliveOn(trace, events, k, i, t);
    }
  }

  lemma FullKeepsThreads(trace: seq<State>, events: seq<Event>, i: nat, lane: Lane)
    requires IsRun(trace, events) && i < |events| && events[i] == Full && trace[i].pc == Filling(lane)
    ensures Workers(trace[i + 1], lane) == Workers(trace[i], lane)
    ensures LiveWorkers(trace[i + 1], lane) == LiveWorkers(trace[i], lane)
    ensures forall t: nat :: Alive(trace[i + 1], t) <==> Alive(trace[i], t)
    ensures forall t: nat :: t in LiveWorkers(trace[i], lane) <==> t in Workers(trace[i], lane) && Alive(trace[i], t)
  {
    RunKeeps(trace, events, i);
    assert Follows(trace[i], events[i], trace[i + 1]);
    assert LaneListed(trace[i], lane);
  }

  /** A lane that a call has filled holds a live worker exactly when one of its workers has not died
      since the call looked at it or started it: exactly those are alive. */
  lemma LaneStaffedIff(trace: seq<State>, events: seq<Event>, i: nat, lane: Lane)
    requires IsRun(trace, events) && i < |events| && events[i] == Full && trace[i].pc == Filling(lane)
    ensures forall t :: t in LiveWorkers(trace[i + 1], lane) <==>
                        t in Workers(trace[i + 1], lane) && !DiedSince(trace, events, i, lane, t)
    ensures LiveWorkers(trace[i + 1], lane) != {} <==>
              exists t :: t in Workers(trace[i + 1], lane) && !DiedSince(trace, events, i, lane, t)
  {
    FullKeepsThreads(trace, events, i, lane);
    hide IsRun, Alive, DiedSince, LiveWorkers;
    forall t | t in Workers(trace[i], lane)
      ensures Alive(trace[i], t) <==> !DiedSince(trace, events, i, lane, t)
    {
      ListedAliveIff(trace, events, i, lane, t);
    }
    if LiveWorkers(trace[i + 1], lane) != {} {
      var t :| t in LiveWorkers(trace[i + 1], lane);
    }
  }

  /** But none of them need be alive any more: a worker that finds no job ends at once. */
  lemma FilledLaneMayBeIdle()
    ensures var (trace, events) := (IdleTrace(), IdleEvents());
            && IsRun(trace, events) && events[|events| - 1] == Full
            && trace[|events|].cts == [0, 1] && LiveWorkers(trace[|events|], Cts) == {}
  {
    var trace, events := IdleTrace(), IdleEvents();
    IdleFirst();
    IdleMiddle();
    IdleSecond();
    IdleLast();
    hide Follows;
    assert IsRun(trace, events);
    hide IsRun;
    assert LiveWorkers(trace[9], Cts) == {};
  }

  ghost function IdleEvents(): seq<Event> {
    [CallWake, Sorted, Append, Hire(true), Dies(0), Append, Hire(true), Dies(1), Full]
  }

  ghost function IdleTrace(): seq<State> {
    var w := Worker(Cts);
    [INITIAL,
     State(map[], [], [], [], [], Sorting(Cts, 0, [])),
     State(map[], [], [], [], [], Filling(Cts)),
     State(map[], [0], [], [w], [Unstarted], Hiring(Cts, 0)),
     State(map[], [0], [], [w], [Running], Filling(Cts)),
     State(map[], [0], [], [w], [Dead], Filling(Cts)),
     State(map[], [0, 1], [], [w, w], [Dead, Unstarted], Hiring(Cts, 1)),
     State(map[], [0, 1], [], [w, w], [Dead, Running], Filling(Cts)),
     State(map[], [0, 1], [], [w, w], [Dead, Dead], Filling(Cts)),
     State(map[], [0, 1], [], [w, w], [Dead, Dead], Sorting(Liepin, 0, []))]
  }

  lemma IdleFirst()
    ensures var (trace, events) := (IdleTrace(), IdleEvents());
            forall i :: 0 <= i < 3 ==> Follows(trace[i], events[i], trace[i + 1])
  {
    var trace, events := IdleTrace(), IdleEvents();
    assert Follows(trace[0], events[0], trace[1]);
    assert Follows(trace[1], events[1], trace[2]);
    assert Follows(trace[2], events[2], trace[3]);
  }

  lemma IdleMiddle()
    ensures var (trace, events) := (IdleTrace(), IdleEvents());
            forall i :: 3 <= i < 5 ==> Follows(trace[i], events[i], trace[i + 1])
  {
    var trace, events := IdleTrace(), IdleEvents();
    assert Follows(trace[3], events[3], trace[4]);
    assert Follows(trace[4], events[4], trace[5]);
  }

  lemma IdleSecond()
    ensures var (trace, events) := (IdleTrace(), IdleEvents());
            forall i :: 5 <= i < 6 ==> Follows(trace[i], events[i], trace[i + 1])
  {
    var trace, events := IdleTrace(), IdleEvents();
    assert Follows(trace[5], events[5], trace[6]);
  }

  lemma IdleLast()
    ensures var (trace, events) := (IdleTrace(), IdleEvents());
            forall i :: 6 <= i < 9 ==> Follows(trace[i], events[i], trace[i + 1])
  {
    var trace, events := IdleTrace(), IdleEvents();
    assert Follows(trace[6], events[6], trace[7]);
    assert Follows(trace[7], events[7], trace[8]);
    assert Follows(trace[8], events[8], trace[9]);
  }

  /* ---------- The registry in place ---------- */

  lemma TraceGrows(trace: seq<State>, events: seq<Event>, e: Event, after: State)
    requires IsRun(trace, events) && Follows(trace[|trace| - 1], e, after)
    ensures IsRun(trace + [after], events + [e])
  {
    hide Follows;
    var more, es := trace + [after], events + [e];
    forall i | 0 <= i < |es|
      ensures Follows(more[i], es[i], more[i + 1])
    {
      if i < |events| {
        assert Follows(trace[i], events[i], trace[i + 1]);
      }
    }
  }

  /** Starting the threads numbered `from` up to `to` succeeds for each of them. */
  ghost predicate AllStart(starts: nat -> bool, from: nat, to: nat) {
    forall n: nat :: from <= n < to ==> starts(n)
  }

  /** The registry's fields, with the run of the step machine they have gone through. Between two
      steps of a call, `Others` lets any threads die. */
  class Registry {
    var triage: map<string, nat>
    var cts: seq<nat>
    var liepin: seq<nat>
    var kinds: seq<Kind>
    var phases: seq<Phase>
    ghost var pc: Pc
    ghost var trace: seq<State>
    ghost var events: seq<Event>

    ghost function View(): State
      reads this
    {
      State(triage, cts, liepin, kinds, phases, pc)
    }

    ghost predicate Valid()
      reads this
    {
      |trace| == |events| + 1 && IsRun(trace, events) && trace[|trace| - 1] == View()
    }

    constructor ()
      ensures Valid() && View() == INITIAL
    {
      triage, cts, liepin, kinds, phases, pc := map[], [], [], [], [], Idle;
      trace, events := [INITIAL], [];
    }

    predicate IsAlive(t: nat)
      reads this
      ensures IsAlive(t) <==> Alive(View(), t)
    {
      t < |phases| && (phases[t] == Running || phases[t] == Leaving)
    }

    /** Created, but its start has not succeeded: no call will find it alive. */
    predicate IsUnstarted(t: nat)
      reads this`phases
    {
      t < |phases| && phases[t] == Unstarted
    }

    /** The fields have just moved by one step of the machine. */
    ghost method Record(e: Event)
      requires |trace| == |events| + 1 && IsRun(trace, events) && Follows(trace[|trace| - 1], e, View())
      modifies this`trace, this`events
      ensures Valid() && trace == old(trace) + [View()] && events == old(events) + [e]
    {
      TraceGrows(trace, events, e, View());
      trace, events := trace + [View()], events + [e];
    }

    method Others()
      requires Valid()
      modifies this`phases, this`trace, this`events
      ensures Valid() && old(trace) <= trace && |phases| == |old(phases)|
    {
      var deaths: nat :| deaths >= 0;
      hide IsRun;
      for d := 0 to deaths
        invariant Valid() && old(trace) <= trace && |phases| == |old(phases)|
      {
        var t: nat :| t >= 0;
        if IsAlive(t) {
          phases := phases[t := Dead];
          Record(Dies(t));
        }
      }
    }

    lemma Sound()
      requires Valid()
      ensures Inv(View())
    {
      RunKeeps(trace, events, |trace| - 1);
    }

    /** `Refused`: a thread of the session was found alive during the call. `Launched`: the call's thread
        is the session's only running one. */
    method StartRequirementTriage(session: string, wanted: bool, notes: bool, starts: bool) returns (answer: Answer)
      requires Valid() && pc == Idle
      modifies this
      ensures Valid() && pc == Idle && old(trace) <= trace
      ensures answer == NotWanted <==> !wanted
      ensures answer == NotWanted ==> View() == old(View()) && trace == old(trace)
      ensures answer == Refused ==>
                && |trace| >= 2 && session in triage && SeenByScan(trace, |trace| - 2, session, triage[session])
      ensures answer == Launched ==> RunningTriage(View(), session) == {|kinds| - 1} && |kinds| > |old(kinds)|
      ensures answer == Failed ==> !notes || !starts
      ensures answer == Launched ==> notes && starts
      ensures answer == Failed && !notes ==> session !in triage
      ensures answer == Failed && notes ==> session in triage && IsUnstarted(triage[session])
    {
      hide IsRun, Inv, RunningTriage, SeenByScan, Follows, IsUnstarted;
      if !wanted {
        return NotWanted;
      }
      Others();
      var kept := Scan(session);
      DecideOn(session, kept);
      if session in kept {
        return Refused;
      }
      Others();
      answer := Open(session, notes, starts);
    }

    method DecideOn(session: string, kept: map<string, nat>)
      requires Valid() && pc == Scanning(session, {}, kept)
      modifies this`triage, this`pc, this`trace, this`events
      ensures Valid() && old(trace) <= trace && pc == if session in kept then Idle else Noting(session)
      ensures session in kept ==>
                && |trace| >= 2 && session in triage && SeenByScan(trace, |trace| - 2, session, triage[session])
    {
      hide IsRun, RunningTriage, SeenByScan;
      ghost var at := |trace| - 1;
      triage, pc := kept, if session in kept then Idle else Noting(session);
      Record(Decide);
      hide Follows;
      RefusedIff(trace, events, at);
    }

    lemma NotedIsFree(session: string)
      requires Valid() && pc == Noting(session)
      ensures session !in triage
    {
      hide IsRun;
      Sound();
    }

    lemma LaunchingIsReady(session: string)
      requires Valid() && |kinds| > 0 && pc == Launching(|kinds| - 1) && kinds[|kinds| - 1] == Triage(session)
      ensures session in triage && triage[session] == |kinds| - 1 && IsUnstarted(|kinds| - 1)
    {
      hide IsRun;
      Sound();
    }

    lemma HiringIsReady(lane: Lane)
      requires Valid() && |kinds| > 0 && pc == Hiring(lane, |kinds| - 1)
      ensures IsUnstarted(|kinds| - 1)
    {
      hide IsRun;
      Sound();
    }

    /** Record the opening notes, register a thread and start it. */
    method Open(session: string, notes: bool, starts: bool) returns (answer: Answer)
      requires Valid() && pc == Noting(session)
      modifies this
      ensures Valid() && pc == Idle && old(trace) <= trace
      ensures answer == Launched ==> RunningTriage(View(), session) == {|kinds| - 1} && |kinds| > |old(kinds)|
      ensures answer == if notes && starts then Launched else Failed
      ensures !notes ==> session !in triage
      ensures notes && !starts ==> session in triage && IsUnstarted(triage[session])
    {
      hide IsRun, RunningTriage, IsUnstarted;
      NotedIsFree(session);
      if !notes {
        pc := Idle;
        Record(Note(false));
        return Failed;
      }
      Register(session);
      Others();
      LaunchingIsReady(session);
      if !starts {
        pc := Idle;
        Record(Launch(false));
        return Failed;
      }
      StartThread(session);
      return Launched;
    }

    method Register(session: string)
      requires Valid() && pc == Noting(session)
      modifies this
      ensures Valid() && old(trace) <= trace && |kinds| == |old(kinds)| + 1
      ensures pc == Launching(|kinds| - 1) && kinds[|kinds| - 1] == Triage(session) && |phases| == |kinds|
    {
      hide IsRun;
      Sound();
      hide Inv;
      var t := |kinds|;
      triage, pc := triage[session := t], Launching(t);
      kinds, phases := kinds + [Triage(session)], phases + [Unstarted];
      Record(Note(true));
    }

    method StartThread(session: string)
      requires Valid() && |kinds| > 0 && pc == Launching(|kinds| - 1) && |phases| == |kinds|
      requires kinds[|kinds| - 1] == Triage(session)
      modifies this`phases, this`pc, this`trace, this`events
      ensures Valid() && pc == Idle && old(trace) <= trace
      ensures RunningTriage(View(), session) == {|kinds| - 1}
    {
      hide IsRun, RunningTriage;
      ghost var at := |trace| - 1;
      phases, pc := phases[|kinds| - 1 := Running], Idle;
      Record(Launch(true));
      hide Follows;
      LaunchIsOnly(trace, events, at);
    }

    /** Look at the registered threads one by one. */
    method Scan(session: string) returns (kept: map<string, nat>)
      requires Valid() && pc == Idle
      modifies this`phases, this`pc, this`trace, this`events
      ensures Valid() && pc == Scanning(session, {}, kept) && old(trace) <= trace && |phases| == |old(phases)|
    {
      hide IsRun, Follows;
      var todo := triage.Keys;
      kept := map[];
      BeginScan(session);
      while todo != {}
        invariant Valid() && pc == Scanning(session, todo, kept) && todo <= triage.Keys
        invariant old(trace) <= trace && |phases| == |old(phases)|
        decreases |todo|
      {
        Others();
        var s :| s in todo;
        kept := LookAtThread(session, todo, kept, s);
        todo := todo - {s};
      }
    }

    method BeginScan(session: string)
      requires Valid() && pc == Idle
      modifies this`pc, this`trace, this`events
      ensures Valid() && pc == Scanning(session, triage.Keys, map[]) && old(trace) <= trace
    {
      hide IsRun;
      pc := Scanning(session, triage.Keys, map[]);
      Record(CallTriage(session));
    }

    method LookAtThread(session: string, todo: set<string>, before: map<string, nat>, s: string)
        returns (kept: map<string, nat>)
      requires Valid() && pc == Scanning(session, todo, before) && s in todo && s in triage
      modifies this`pc, this`trace, this`events
      ensures Valid() && pc == Scanning(session, todo - {s}, kept) && old(trace) <= trace
    {
      hide IsRun;
      kept := before;
      if IsAlive(triage[s]) {
        kept := kept[s := triage[s]];
      }
      pc := Scanning(session, todo - {s}, kept);
      Record(LookAt(s));
    }

    /** The locked part of a triage thread's cleanup. */
    method CleanUpTriage(t: nat)
      requires Valid() && pc == Idle && t < |kinds| && t < |phases| && kinds[t].Triage? && phases[t] == Running
      modifies this
      ensures Valid() && pc == Idle && View() == Deregistered(old(View()), t)
      ensures trace == old(trace) + [View()]
      ensures forall s :: s in triage <==> s in old(triage) && old(triage)[s] != t
      ensures forall s :: s in triage ==> triage[s] == old(triage)[s]
      ensures phases == old(phases)[t := Leaving] && kinds == old(kinds) && cts == old(cts) && liepin == old(liepin)
    {
      Sound();
      DeregisteredMeans(View(), t);
      hide IsRun, Inv;
      var session := kinds[t].session;
      phases := phases[t := Leaving];
      if session in triage && triage[session] == t {
        triage := triage - {session};
      }
      Record(CleanUp(t));
    }

    /** Look at the workers of a lane one by one and keep the live ones. */
    method Sort(lane: Lane)
      requires Valid() && pc == Sorting(lane, 0, [])
      modifies this`cts, this`liepin, this`phases, this`pc, this`trace, this`events
      ensures Valid() && pc == Filling(lane) && old(trace) <= trace && |phases| == |old(phases)|
      ensures Workers(View(), Other(lane)) == old(Workers(View(), Other(lane)))
    {
      hide IsRun, Follows;
      var live: seq<nat> := [];
      var workers := if lane == Cts then cts else liepin;
      for next := 0 to |workers|
        invariant Valid() && pc == Sorting(lane, next, live) && workers == Workers(View(), lane)
        invariant old(trace) <= trace && |phases| == |old(phases)|
        invariant cts == old(cts) && liepin == old(liepin)
      {
        Others();
        live := LookAtOne(lane, workers, next, live);
      }
      Others();
      Keep(lane, workers, live);
    }

    method LookAtOne(lane: Lane, workers: seq<nat>, next: nat, before: seq<nat>) returns (live: seq<nat>)
      requires Valid() && pc == Sorting(lane, next, before) && workers == Workers(View(), lane) && next < |workers|
      modifies this`pc, this`trace, this`events
      ensures Valid() && pc == Sorting(lane, next + 1, live) && old(trace) <= trace
    {
      hide IsRun;
      live := if IsAlive(workers[next]) then before + [workers[next]] else before;
      pc := Sorting(lane, next + 1, live);
      Record(LookAtWorker);
    }

    method Keep(lane: Lane, workers: seq<nat>, live: seq<nat>)
      requires Valid() && pc == Sorting(lane, |workers|, live) && workers == Workers(View(), lane)
      modifies this`cts, this`liepin, this`pc, this`trace, this`events
      ensures Valid() && pc == Filling(lane) && old(trace) <= trace
      ensures Workers(View(), Other(lane)) == old(Workers(View(), Other(lane)))
    {
      hide IsRun;
      if lane == Cts { cts := live; } else { liepin := live; }
      pc := Filling(lane);
      Record(Sorted);
    }

    /** It succeeds exactly when every start does. Then the lane's list is full, and each of its workers
        was alive at some moment of the call. */
    method StartLaneWorkers(lane: Lane, starts: nat -> bool) returns (ok: bool)
      requires Valid() && pc == Sorting(lane, 0, [])
      modifies this
      ensures Valid() && old(trace) <= trace && |old(kinds)| <= |kinds|
      ensures ok <==> AllStart(starts, |old(kinds)|, |kinds|)
      ensures Workers(View(), Other(lane)) == old(Workers(View(), Other(lane)))
      ensures !ok ==> pc == Idle
      ensures ok ==>
                && pc == (if lane == Cts then Sorting(Liepin, 0, []) else Idle)
                && |Workers(View(), lane)| == (if lane == Cts then 2 else 1) && |trace| >= 2
                && forall t :: t in Workers(View(), lane) ==> LiveDuring(trace, |trace| - 2, lane, t)
    {
      hide IsRun, LiveDuring, Follows, IsUnstarted;
      Sort(lane);
      var workers := if lane == Cts then cts else liepin;
      while |workers| < WorkerCount(lane)
        invariant Valid() && pc == Filling(lane) && old(trace) <= trace
        invariant workers == Workers(View(), lane)
        invariant Workers(View(), Other(lane)) == old(Workers(View(), Other(lane)))
        invariant |old(kinds)| <= |kinds| && AllStart(starts, |old(kinds)|, |kinds|)
        decreases WorkerCount(lane) - |workers|
      {
        ok, workers := HireOne(lane, workers, starts);
        if !ok {
          return;
        }
      }
      Others();
      Leave(lane);
      ok := true;
    }

    /** Create one worker and start it. */
    method HireOne(lane: Lane, before: seq<nat>, starts: nat -> bool) returns (ok: bool, workers: seq<nat>)
      requires Valid() && pc == Filling(lane) && before == Workers(View(), lane) && |before| < WorkerCount(lane)
      modifies this
      ensures Valid() && old(trace) <= trace && workers == Workers(View(), lane) && |workers| == |before| + 1
      ensures pc == if ok then Filling(lane) else Idle
      ensures |kinds| == |old(kinds)| + 1 && ok == starts(|old(kinds)|)
      ensures Workers(View(), Other(lane)) == old(Workers(View(), Other(lane)))
      ensures !ok ==> workers[|workers| - 1] == |kinds| - 1 && IsUnstarted(|kinds| - 1)
    {
      hide IsRun, Follows, IsUnstarted;
      Others();
      workers := AppendWorker(lane, before);
      ok := StartHired(lane, starts);
    }

    method StartHired(lane: Lane, starts: nat -> bool) returns (ok: bool)
      requires Valid() && |phases| == |kinds| > 0 && pc == Hiring(lane, |kinds| - 1)
      modifies this`phases, this`pc, this`trace, this`events
      ensures Valid() && old(trace) <= trace
      ensures ok == starts(|kinds| - 1) && pc == if ok then Filling(lane) else Idle
      ensures !ok ==> IsUnstarted(|kinds| - 1)
    {
      hide IsRun, Follows, IsUnstarted;
      Others();
      ok := starts(|kinds| - 1);
      if ok {
        StartWorker(lane);
      } else {
        GiveUp(lane);
      }
    }

    method AppendWorker(lane: Lane, before: seq<nat>) returns (workers: seq<nat>)
      requires Valid() && pc == Filling(lane) && before == Workers(View(), lane) && |before| < WorkerCount(lane)
      modifies this
      ensures Valid() && old(trace) <= trace && |kinds| == |old(kinds)| + 1 && |phases| == |kinds|
      ensures pc == Hiring(lane, |kinds| - 1) && workers == Workers(View(), lane) == before + [|kinds| - 1]
      ensures Workers(View(), Other(lane)) == old(Workers(View(), Other(lane)))
    {
      hide IsRun;
      Sound();
      hide Inv;
      var t := |kinds|;
      workers := before + [t];
      if lane == Cts { cts := workers; } else { liepin := workers; }
      kinds, phases, pc := kinds + [Worker(lane)], phases + [Unstarted], Hiring(lane, t);
      Record(Append);
    }

    method GiveUp(lane: Lane)
      requires Valid() && |phases| == |kinds| > 0 && pc == Hiring(lane, |kinds| - 1)
      modifies this`pc, this`trace, this`events
      ensures Valid() && pc == Idle && old(trace) <= trace && IsUnstarted(|kinds| - 1)
    {
      hide IsRun, IsUnstarted;
      HiringIsReady(lane);
      pc := Idle;
      Record(Hire(false));
    }

    method StartWorker(lane: Lane)
      requires Valid() && |phases| == |kinds| > 0 && pc == Hiring(lane, |kinds| - 1)
      modifies this`phases, this`pc, this`trace, this`events
      ensures Valid() && pc == Filling(lane) && old(trace) <= trace
    {
      hide IsRun;
      phases, pc := phases[|kinds| - 1 := Running], Filling(lane);
      Record(Hire(true));
    }

    /** The lane is full: go on to the next one, or return. */
    method Leave(lane: Lane)
      requires Valid() && pc == Filling(lane) && |Workers(View(), lane)| >= WorkerCount(lane)
      modifies this`pc, this`trace, this`events
      ensures Valid() && old(trace) <= trace && |trace| >= 2
      ensures pc == (if lane == Cts then Sorting(Liepin, 0, []) else Idle)
      ensures |Workers(View(), lane)| == WorkerCount(lane)
      ensures forall t :: t in Workers(View(), lane) ==> LiveDuring(trace, |trace| - 2, lane, t)
    {
      hide IsRun, LiveDuring;
      ghost var at := |trace| - 1;
      pc := if lane == Cts then Sorting(Liepin, 0, []) else Idle;
      Record(Full);
      hide Follows;
      forall t | t in Workers(View(), lane)
        ensures LiveDuring(trace, |trace| - 2, lane, t)
      {
        FilledLane(trace, events, at, t);
      }
      FilledLane(trace, events, at, 0);
    }

    /** It succeeds exactly when every start does, and then both lists are full. */
    method WakeUp(starts: nat -> bool) returns (ok: bool)
      requires Valid() && pc == Idle
      modifies this
      ensures Valid() && pc == Idle && old(trace) <= trace && |old(kinds)| <= |kinds|
      ensures ok <==> AllStart(starts, |old(kinds)|, |kinds|)
      ensures ok ==> |cts| == 2 && |liepin| == 1
    {
      hide IsRun;
      Others();
      pc := Sorting(Cts, 0, []);
      Record(CallWake);
      ok := StartLaneWorkers(Cts, starts);
      if ok {
        ok := StartLaneWorkers(Liepin, starts);
      }
    }
  }
}
