/** Judging the candidates of a run: labels come from the cache or from one agent call per distinct
    snapshot, the calls run in any order under a concurrency limit, and the labels written back make
    a rerun silent. */
module Judging {
  import opened Options
  import Metrics

  /** The schema of a label admits the scores 0 to 3 only. */
  type Score = x: int | 0 <= x <= Metrics.BEST

  datatype Label = Label(score: Score, rationale: string)

  /** `snapshot` is the stored snapshot hash, empty when the candidate carries none. */
  datatype Candidate = Candidate(id: string, snapshot: string, raw: string)

  datatype LabelKey = LabelKey(task: string, snapshot: string, contract: string)

  type Store = map<LabelKey, Label>

  datatype Judged = Judged(verdict: Label, cacheHit: bool, latency: nat)

  datatype Write = Write(snapshot: string, verdict: Label, latency: nat)

  /** What one call to the judge is about: a job's id, the judging contract, the snapshot hash and the
      agent, whose answer may depend on the candidate it is shown and may be a failure. */
  datatype Setting = Setting(
    task: string,
    contract: string,
    hash: string -> string,
    ask: (Candidate, string) -> Option<Label>)

  function SnapshotOf(k: Setting, c: Candidate): string {
    if c.snapshot != "" then c.snapshot else k.hash(c.raw)
  }

  function KeyOf(k: Setting, snapshot: string): LabelKey {
    LabelKey(k.task, snapshot, k.contract)
  }

  /* ---------- Which label belongs to a snapshot ---------- */

  /** The candidates that carry a snapshot, in their order. */
  ghost function Aliases(k: Setting, candidates: seq<Candidate>, snapshot: string): seq<Candidate> {
    if candidates == [] then []
    else
      var n := |candidates| - 1;
      Aliases(k, candidates[..n], snapshot)
      + if SnapshotOf(k, candidates[n]) == snapshot then [candidates[n]] else []
  }

  lemma AliasesGrow(k: Setting, candidates: seq<Candidate>, c: Candidate, snapshot: string)
    ensures Aliases(k, candidates + [c], snapshot)
         == Aliases(k, candidates, snapshot) + if SnapshotOf(k, c) == snapshot then [c] else []
  {
    assert (candidates + [c])[..|candidates|] == candidates;
  }

  lemma {:induction false} AliasesMeaning(k: Setting, candidates: seq<Candidate>, snapshot: string)
    ensures forall c :: c in Aliases(k, candidates, snapshot) <==> c in candidates && SnapshotOf(k, c) == snapshot
  {
    if candidates != [] {
      var n := |candidates| - 1;
      assert candidates == candidates[..n] + [candidates[n]];
      AliasesMeaning(k, candidates[..n], snapshot);
    }
  }

  lemma NoMembers(candidates: seq<Candidate>)
    ensures (forall c :: c !in candidates) ==> candidates == []
  {
    assert candidates != [] ==> candidates[0] in candidates;
  }

  lemma {:induction false} AliasesHead(k: Setting, candidates: seq<Candidate>, i: nat, snapshot: string)
    requires i < |candidates| && SnapshotOf(k, candidates[i]) == snapshot
    requires forall j :: 0 <= j < i ==> SnapshotOf(k, candidates[j]) != snapshot
    ensures Aliases(k, candidates, snapshot) != [] && Aliases(k, candidates, snapshot)[0] == candidates[i]
    decreases |candidates|
  {
    var n := |candidates| - 1;
    AliasesMeaning(k, candidates[..n], snapshot);
    if i < n {
      AliasesHead(k, candidates[..n], i, snapshot);
    } else {
      NoMembers(Aliases(k, candidates[..n], snapshot));
    }
  }

  /** The cached label, or else the agent's answer for the first candidate with the snapshot. */
  ghost function LabelFor(k: Setting, store: Store, candidates: seq<Candidate>, snapshot: string): Option<Label> {
    var aliases := Aliases(k, candidates, snapshot);
    if KeyOf(k, snapshot) in store then Some(store[KeyOf(k, snapshot)])
    else if aliases == [] then None
    else k.ask(aliases[0], snapshot)
  }

  /** An uncached snapshot is labelled by the agent, who is shown the first candidate with it. */
  lemma FirstIsAsked(k: Setting, store: Store, candidates: seq<Candidate>, i: nat)
    requires i < |candidates|
    ensures var c := candidates[i];
            var snapshot := if c.snapshot == "" then k.hash(c.raw) else c.snapshot;
            var key := LabelKey(k.task, snapshot, k.contract);
            && (key in store ==> LabelFor(k, store, candidates, snapshot) == Some(store[key]))
            && ((key !in store && forall j :: 0 <= j < i ==> SnapshotOf(k, candidates[j]) != snapshot)
                 ==> LabelFor(k, store, candidates, snapshot) == k.ask(c, snapshot))
  {
    var snapshot := SnapshotOf(k, candidates[i]);
    if forall j :: 0 <= j < i ==> SnapshotOf(k, candidates[j]) != snapshot {
      AliasesHead(k, candidates, i, snapshot);
    }
  }

  ghost function Pending(k: Setting, store: Store, candidates: seq<Candidate>): set<string> {
    set c | c in candidates && KeyOf(k, SnapshotOf(k, c)) !in store :: SnapshotOf(k, c)
  }

  lemma PendingGrows(k: Setting, store: Store, candidates: seq<Candidate>, c: Candidate)
    ensures Pending(k, store, candidates + [c])
         == Pending(k, store, candidates) + if KeyOf(k, SnapshotOf(k, c)) in store then {} else {SnapshotOf(k, c)}
  {}

  ghost predicate Answered(k: Setting, store: Store, candidates: seq<Candidate>) {
    forall h :: h in Pending(k, store, candidates) ==> LabelFor(k, store, candidates, h).Some?
  }

  /** `j` is the judgement of candidate `c`: its snapshot's label, whether it was cached, and a
      latency of zero for cached labels only. */
  ghost predicate Describes(k: Setting, store: Store, candidates: seq<Candidate>, c: Candidate, j: Judged) {
    && LabelFor(k, store, candidates, SnapshotOf(k, c)) == Some(j.verdict)
    && (j.cacheHit <==> KeyOf(k, SnapshotOf(k, c)) in store)
    && (j.latency == 0 <==> j.cacheHit)
  }

  ghost predicate From(k: Setting, store: Store, candidates: seq<Candidate>, id: string, j: Judged) {
    exists c :: c in candidates && c.id == id && Describes(k, store, candidates, c, j)
  }

  ghost predicate Sound(k: Setting, store: Store, candidates: seq<Candidate>, results: map<string, Judged>) {
    forall id :: id in results ==> From(k, store, candidates, id, results[id])
  }

  /** The candidates whose snapshot is cached or in `done` have a judgement. */
  ghost predicate Covered(k: Setting, store: Store, candidates: seq<Candidate>, done: set<string>,
                          results: map<string, Judged>)
  {
    forall c :: c in candidates && (KeyOf(k, SnapshotOf(k, c)) in store || SnapshotOf(k, c) in done)
      ==> c.id in results
  }

  /** Every candidate has a judgement and every judgement is that of a candidate with its id. */
  ghost predicate Labelled(k: Setting, store: Store, candidates: seq<Candidate>, results: map<string, Judged>) {
    && (forall c :: c in candidates ==> c.id in results)
    && Sound(k, store, candidates, results)
  }

  ghost function Snapshots(writes: seq<Write>): seq<string> {
    seq(|writes|, i requires 0 <= i < |writes| => writes[i].snapshot)
  }

  ghost predicate Truthful(k: Setting, store: Store, candidates: seq<Candidate>, writes: seq<Write>) {
    forall i :: 0 <= i < |writes| ==> LabelFor(k, store, candidates, writes[i].snapshot) == Some(writes[i].verdict)
  }

  ghost predicate DistinctIds(candidates: seq<Candidate>) {
    forall i, j :: 0 <= i < j < |candidates| ==> candidates[i].id != candidates[j].id
  }

  /* ---------- The calls ---------- */

  datatype Event = Call(snapshot: string) | Answer(snapshot: string)

  ghost function Calls(events: seq<Event>): seq<string> {
    if events == [] then []
    else
      var n := |events| - 1;
      Calls(events[..n]) + if events[n].Call? then [events[n].snapshot] else []
  }

  ghost function InFlight(events: seq<Event>): int {
    if events == [] then 0
    else
      var n := |events| - 1;
      InFlight(events[..n]) + if events[n].Call? then 1 else -1
  }

  ghost predicate Bounded(events: seq<Event>, limit: nat) {
    forall n :: 0 <= n <= |events| ==> 0 <= InFlight(events[..n]) <= limit
  }

  lemma EventsGrow(events: seq<Event>, e: Event, limit: nat)
    requires Bounded(events, limit)
    ensures Calls(events + [e]) == if e.Call? then Calls(events) + [e.snapshot] else Calls(events)
    ensures InFlight(events + [e]) == InFlight(events) + if e.Call? then 1 else -1
    ensures 0 <= InFlight(events + [e]) <= limit ==> Bounded(events + [e], limit)
  {
    var more := events + [e];
    assert more[..|events|] == events;
    if 0 <= InFlight(more) <= limit {
      forall n | 0 <= n <= |more|
        ensures 0 <= InFlight(more[..n]) <= limit
      {
        if n <= |events| {
          assert more[..n] == events[..n];
        } else {
          assert more[..n] == more;
        }
      }
    }
  }

  /** The list names every member of the set exactly once, and nothing else. */
  ghost predicate Once(list: seq<string>, members: set<string>) {
    multiset(list) == multiset(members)
  }

  lemma OnceGrows(list: seq<string>, members: set<string>, h: string)
    requires Once(list, members) && h !in members
    ensures Once(list + [h], members + {h})
  {}

  /** The log of a run whose calls in `called` have started and whose calls in `running` have not
      answered yet. */
  ghost predicate Logged(events: seq<Event>, called: set<string>, running: set<string>, limit: nat) {
    && Bounded(events, limit)
    && InFlight(events) == |running| <= limit
    && Once(Calls(events), called)
  }

  lemma LogCall(events: seq<Event>, called: set<string>, running: set<string>, limit: nat, h: string)
    requires Logged(events, called, running, limit) && h !in called && h !in running && |running| < limit
    ensures Logged(events + [Call(h)], called + {h}, running + {h}, limit)
  {
    EventsGrow(events, Call(h), limit);
    OnceGrows(Calls(events), called, h);
    hide Once, Bounded, Calls, InFlight;
  }

  lemma LogAnswer(events: seq<Event>, called: set<string>, running: set<string>, limit: nat, h: string)
    requires Logged(events, called, running, limit) && h in running
    ensures Logged(events + [Answer(h)], called, running - {h}, limit)
  {
    assert |running - {h}| == |running| - 1;
    EventsGrow(events, Answer(h), limit);
    hide Once, Bounded, Calls, InFlight;
  }

  /** Each pending snapshot is waiting, or called and then running or done. */
  ghost predicate Parts(pending: set<string>, waiting: set<string>, called: set<string>, running: set<string>,
                        done: set<string>)
  {
    && waiting + called == pending && waiting !! called
    && running + done == called && running !! done
  }

  lemma PartsCall(pending: set<string>, waiting: set<string>, called: set<string>, running: set<string>,
                  done: set<string>, h: string)
    requires Parts(pending, waiting, called, running, done) && h in waiting
    ensures Parts(pending, waiting - {h}, called + {h}, running + {h}, done)
    ensures h !in called && h !in running
  {}

  lemma PartsAnswer(pending: set<string>, waiting: set<string>, called: set<string>, running: set<string>,
                    done: set<string>, h: string)
    requires Parts(pending, waiting, called, running, done) && h in running
    ensures Parts(pending, waiting, called, running - {h}, done + {h})
    ensures h !in done && h in pending && called <= pending && |running - {h}| < |running|
  {
    assert running == (running - {h}) + {h};
  }

  lemma PartsDone(pending: set<string>, called: set<string>, done: set<string>)
    requires Parts(pending, {}, called, {}, done)
    ensures done == called == pending
  {}

  /** What is known once the workers in `done` have finished. */
  ghost predicate Progress(k: Setting, store: Store, candidates: seq<Candidate>, done: set<string>,
                           results: map<string, Judged>, writes: seq<Write>)
  {
    && Sound(k, store, candidates, results)
    && Covered(k, store, candidates, done, results)
    && Truthful(k, store, candidates, writes)
    && Once(Snapshots(writes), done)
    && forall h :: h in done ==> LabelFor(k, store, candidates, h).Some?
  }

  /* ---------- Judging ---------- */

  lemma NothingStarted(k: Setting, store: Store, candidates: seq<Candidate>, limit: nat, results: map<string, Judged>)
    requires Sound(k, store, candidates, results) && Covered(k, store, candidates, {}, results)
    ensures Logged([], {}, {}, limit)
    ensures Progress(k, store, candidates, {}, results, [])
  {
    hide Sound, Covered;
  }

  lemma PendingUncached(k: Setting, store: Store, candidates: seq<Candidate>, h: string)
    requires h in Pending(k, store, candidates)
    ensures KeyOf(k, h) !in store
  {}

  lemma AllFinished(k: Setting, store: Store, candidates: seq<Candidate>, done: set<string>,
                    results: map<string, Judged>, writes: seq<Write>)
    requires Progress(k, store, candidates, done, results, writes) && done == Pending(k, store, candidates)
    ensures Answered(k, store, candidates) && Labelled(k, store, candidates, results)
    ensures Truthful(k, store, candidates, writes) && Once(Snapshots(writes), done)
  {
    hide Sound, Truthful, LabelFor, Once, Snapshots;
  }

  datatype Outcome = AgentFailed | Labels(results: map<string, Judged>, writes: seq<Write>)

  ghost predicate Bears(candidates: seq<Candidate>, id: string) {
    exists c :: c in candidates && c.id == id
  }

  lemma BearsGrows(candidates: seq<Candidate>, c: Candidate, id: string)
    ensures Bears(candidates + [c], id) <==> Bears(candidates, id) || c.id == id
  {
    if c.id == id {
      assert c in candidates + [c];
    } else if Bears(candidates, id) {
      var d :| d in candidates && d.id == id;
      assert d in candidates + [c];
    }
  }

  /** All aliases of a snapshot get its judgement. */
  method Spread(results: map<string, Judged>, aliases: seq<Candidate>, judged: Judged)
    returns (spread: map<string, Judged>)
    ensures forall id :: id in spread <==> id in results || Bears(aliases, id)
    ensures forall id :: id in spread ==> spread[id] == if Bears(aliases, id) then judged else results[id]
  {
    hide Bears;
    spread := results;
    BearsNone();
    for j := 0 to |aliases|
      invariant forall id :: id in spread <==> id in results || Bears(aliases[..j], id)
      invariant forall id :: id in spread ==> spread[id] == if Bears(aliases[..j], id) then judged else results[id]
    {
      spread := spread[aliases[j].id := judged];
      assert aliases[..j + 1] == aliases[..j] + [aliases[j]];
      forall id: string
        ensures Bears(aliases[..j + 1], id) <==> Bears(aliases[..j], id) || id == aliases[j].id
      {
        BearsGrows(aliases[..j], aliases[j], id);
      }
    }
    assert aliases[..|aliases|] == aliases;
  }

  lemma BearsNone()
    ensures forall id :: !Bears([], id)
  {}

  lemma CachedSound(k: Setting, store: Store, candidates: seq<Candidate>, results: map<string, Judged>, c: Candidate)
    requires Sound(k, store, candidates, results) && c in candidates && KeyOf(k, SnapshotOf(k, c)) in store
    ensures Sound(k, store, candidates, results[c.id := Judged(store[KeyOf(k, SnapshotOf(k, c))], true, 0)])
  {
    assert Describes(k, store, candidates, c, Judged(store[KeyOf(k, SnapshotOf(k, c))], true, 0));
    hide Describes;
  }

  /** The cache lookups: cached candidates are labelled, the others grouped by snapshot. */
  method LookUp(k: Setting, store: Store, candidates: seq<Candidate>)
    returns (results: map<string, Judged>, pending: map<string, seq<Candidate>>)
    ensures pending.Keys == Pending(k, store, candidates)
    ensures forall h :: h in pending ==> pending[h] == Aliases(k, candidates, h) && pending[h] != []
    ensures Sound(k, store, candidates, results) && Covered(k, store, candidates, {}, results)
  {
    hide Pending, Aliases, Sound, SnapshotOf, KeyOf;
    results, pending := map[], map[];
    LookUpNothing(k, store, candidates);
    for i := 0 to |candidates|
      invariant pending.Keys == Pending(k, store, candidates[..i])
      invariant forall h :: KeyOf(k, h) !in store ==>
                  Aliases(k, candidates[..i], h) == if h in pending then pending[h] else []
      invariant forall h :: h in pending ==> KeyOf(k, h) !in store && pending[h] != []
      invariant Sound(k, store, candidates, results) && Covered(k, store, candidates[..i], {}, results)
    {
      var c := candidates[i];
      var h := SnapshotOf(k, c);
      assert candidates[..i + 1] == candidates[..i] + [c];
      PendingGrows(k, store, candidates[..i], c);
      forall g: string
        ensures Aliases(k, candidates[..i + 1], g)
             == Aliases(k, candidates[..i], g) + if h == g then [c] else []
      {
        AliasesGrow(k, candidates[..i], c, g);
      }
      if KeyOf(k, h) in store {
        CachedSound(k, store, candidates, results, c);
        results := results[c.id := Judged(store[KeyOf(k, h)], true, 0)];
      } else {
        pending := pending[h := (if h in pending then pending[h] else []) + [c]];
      }
    }
    assert candidates[..|candidates|] == candidates;
  }

  lemma LookUpNothing(k: Setting, store: Store, candidates: seq<Candidate>)
    ensures Pending(k, store, []) == {} && forall h :: Aliases(k, [], h) == []
    ensures Sound(k, store, candidates, map[])
  {}

  lemma TruthfulGrows(k: Setting, store: Store, candidates: seq<Candidate>, writes: seq<Write>, w: Write)
    requires Truthful(k, store, candidates, writes)
    requires LabelFor(k, store, candidates, w.snapshot) == Some(w.verdict)
    ensures Truthful(k, store, candidates, writes + [w])
    ensures Snapshots(writes + [w]) == Snapshots(writes) + [w.snapshot]
  {
    hide LabelFor;
  }

  lemma SpreadSound(k: Setting, store: Store, candidates: seq<Candidate>, h: string, judged: Judged,
                    before: map<string, Judged>, after: map<string, Judged>)
    requires Sound(k, store, candidates, before)
    requires KeyOf(k, h) !in store && !judged.cacheHit && judged.latency >= 1
    requires LabelFor(k, store, candidates, h) == Some(judged.verdict)
    requires forall id :: id in after ==>
               if Bears(Aliases(k, candidates, h), id) then after[id] == judged
               else id in before && after[id] == before[id]
    ensures Sound(k, store, candidates, after)
  {
    AliasesMeaning(k, candidates, h);
    hide LabelFor, Aliases;
    forall id | id in after
      ensures From(k, store, candidates, id, after[id])
    {
      if c :| c in Aliases(k, candidates, h) && c.id == id {
        assert Describes(k, store, candidates, c, after[id]);
      }
    }
  }

  lemma SpreadCovers(k: Setting, store: Store, candidates: seq<Candidate>, h: string, done: set<string>,
                     before: map<string, Judged>, after: map<string, Judged>)
    requires Covered(k, store, candidates, done, before)
    requires forall id :: id in before || Bears(Aliases(k, candidates, h), id) ==> id in after
    ensures Covered(k, store, candidates, done + {h}, after)
  {
    AliasesMeaning(k, candidates, h);
    hide Aliases;
  }

  /** One worker, once its call has answered: it spreads the label and leaves a pending write. */
  method Finish(k: Setting, store: Store, candidates: seq<Candidate>, h: string, aliases: seq<Candidate>,
                results: map<string, Judged>, writes: seq<Write>, ghost done: set<string>)
    returns (outcome: Outcome)
    requires h in Pending(k, store, candidates) && aliases == Aliases(k, candidates, h) && aliases != []
    requires h !in done && Progress(k, store, candidates, done, results, writes)
    ensures outcome.Labels? <==> LabelFor(k, store, candidates, h).Some?
    ensures outcome.Labels? ==> Progress(k, store, candidates, done + {h}, outcome.results, outcome.writes)
  {
    hide Aliases, Sound, Truthful, Covered, Snapshots, Bears, Pending, Once;
    PendingUncached(k, store, candidates, h);
    match k.ask(aliases[0], h) {
      case None => return AgentFailed;
      case Some(verdict) =>
        var latency: nat :| latency >= 1;
        var judged := Judged(verdict, false, latency);
        var spread := Spread(results, aliases, judged);
        SpreadSound(k, store, candidates, h, judged, results, spread);
        SpreadCovers(k, store, candidates, h, done, results, spread);
        TruthfulGrows(k, store, candidates, writes, Write(h, verdict, latency));
        OnceGrows(Snapshots(writes), done, h);
        return Labels(spread, writes + [Write(h, verdict, latency)]);
    }
  }

  /** Every agent call starts while fewer than `limit` are running and any running call may be the
      next to answer; the first failing answer ends the judging. */
  method JudgeMany(k: Setting, store: Store, candidates: seq<Candidate>, limit: nat)
    returns (outcome: Outcome, events: seq<Event>)
    requires limit >= 1
    ensures outcome.Labels? <==> Answered(k, store, candidates)
    ensures outcome.Labels? ==>
              && Labelled(k, store, candidates, outcome.results)
              && Once(Snapshots(outcome.writes), Pending(k, store, candidates))
              && Truthful(k, store, candidates, outcome.writes)
              && Once(Calls(events), Pending(k, store, candidates))
    ensures outcome.AgentFailed? ==>
              exists called :: called <= Pending(k, store, candidates) && Once(Calls(events), called)
    ensures Bounded(events, limit)
  {
    hide Aliases, Sound, Truthful, Covered, Bounded, Calls, InFlight, Snapshots, Pending, LabelFor, Once;
    var results, pending := LookUp(k, store, candidates);
    var writes: seq<Write> := [];
    events := [];
    var waiting, running := pending.Keys, {};
    ghost var called: set<string>, done: set<string> := {}, {};
    NothingStarted(k, store, candidates, limit, results);
    assert Parts(pending.Keys, waiting, called, running, done);
    hide Logged, Progress, Parts;
    while waiting != {} || running != {}
      invariant Parts(pending.Keys, waiting, called, running, done)
      invariant Logged(events, called, running, limit)
      invariant Progress(k, store, candidates, done, results, writes)
      decreases 2 * |waiting| + |running|
    {
      if
      case waiting != {} && |running| < limit =>
        var h :| h in waiting;
        PartsCall(pending.Keys, waiting, called, running, done, h);
        LogCall(events, called, running, limit, h);
        events, called := events + [Call(h)], called + {h};
        waiting, running := waiting - {h}, running + {h};
      case running != {} =>
        var h :| h in running;
        PartsAnswer(pending.Keys, waiting, called, running, done, h);
        LogAnswer(events, called, running, limit, h);
        var finished := Finish(k, store, candidates, h, pending[h], results, writes, done);
        if finished.AgentFailed? {
          LogMeans(events, called, running, limit);
          return AgentFailed, events;
        }
        results, writes := finished.results, finished.writes;
        events := events + [Answer(h)];
        running, done := running - {h}, done + {h};
    }
    PartsDone(pending.Keys, called, done);
    LogMeans(events, called, running, limit);
    AllFinished(k, store, candidates, done, results, writes);
    outcome := Labels(results, writes);
  }

  lemma LogMeans(events: seq<Event>, called: set<string>, running: set<string>, limit: nat)
    requires Logged(events, called, running, limit)
    ensures Bounded(events, limit) && Once(Calls(events), called) && |running| <= limit
  {
    hide Bounded, InFlight, Calls, Once;
  }
}
