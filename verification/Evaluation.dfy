/** Evaluating a run: the candidates of two stages are judged once each, the new labels are recorded,
    and every stage row looks its label up by candidate id. */
module Evaluation {
  import opened Options
  import opened Judging
  import opened Metrics

  /* ---------- One candidate per id ---------- */

  /** Assignment in an insertion-ordered dictionary keyed by candidate id. */
  ghost function Put(unique: seq<Candidate>, c: Candidate): seq<Candidate> {
    if unique == [] then [c]
    else if unique[0].id == c.id then [c] + unique[1..]
    else [unique[0]] + Put(unique[1..], c)
  }

  ghost function Unique(candidates: seq<Candidate>): seq<Candidate> {
    if candidates == [] then []
    else Put(Unique(candidates[..|candidates| - 1]), candidates[|candidates| - 1])
  }

  lemma DistinctCons(c: Candidate, rest: seq<Candidate>)
    ensures DistinctIds([c] + rest) <==> DistinctIds(rest) && forall d :: d in rest ==> d.id != c.id
  {
    var s := [c] + rest;
    if DistinctIds(s) {
      forall i, j | 0 <= i < j < |rest|
        ensures rest[i].id != rest[j].id
      {
        assert s[i + 1].id != s[j + 1].id;
      }
      forall d | d in rest
        ensures d.id != c.id
      {
        var i :| 0 <= i < |rest| && rest[i] == d;
        assert s[0].id != s[i + 1].id;
      }
    }
  }

  lemma {:induction false} PutMeaning(unique: seq<Candidate>, c: Candidate)
    requires DistinctIds(unique)
    ensures DistinctIds(Put(unique, c))
    ensures forall d :: d in Put(unique, c) <==> d == c || (d in unique && d.id != c.id)
  {
    hide DistinctIds;
    DistinctCons(c, []);
    if unique == [] {
      assert DistinctIds([]) && [c] + [] == [c];
    } else {
      var rest := unique[1..];
      assert unique == [unique[0]] + rest;
      DistinctCons(unique[0], rest);
      if unique[0].id == c.id {
        DistinctCons(c, rest);
      } else {
        PutMeaning(rest, c);
        DistinctCons(unique[0], Put(rest, c));
      }
    }
  }

  /** Position `i` holds the last candidate with its id. */
  ghost predicate Last(candidates: seq<Candidate>, i: nat) {
    i < |candidates| && forall j :: i < j < |candidates| ==> candidates[j].id != candidates[i].id
  }

  ghost predicate IsLast(candidates: seq<Candidate>, c: Candidate) {
    exists i: nat :: Last(candidates, i) && candidates[i] == c
  }

  lemma LastGrows(candidates: seq<Candidate>, c: Candidate, d: Candidate)
    ensures IsLast(candidates + [c], d) <==> d == c || (IsLast(candidates, d) && d.id != c.id)
  {
    var n, more := |candidates|, candidates + [c];
    assert Last(more, n);
    forall i: nat | i < n
      ensures Last(more, i) <==> Last(candidates, i) && candidates[i].id != c.id
    {
      assert more[n] == c && forall j :: 0 <= j < n ==> more[j] == candidates[j];
    }
    if d != c && IsLast(more, d) {
      var i: nat :| Last(more, i) && more[i] == d;
      assert Last(candidates, i);
    }
    if IsLast(candidates, d) && d.id != c.id {
      var i: nat :| Last(candidates, i) && candidates[i] == d;
      assert Last(more, i) && more[i] == d;
    }
  }

  /** The unique candidates are exactly the last ones of each id. */
  lemma {:induction false} UniqueMeaning(candidates: seq<Candidate>)
    ensures DistinctIds(Unique(candidates))
    ensures forall c :: c in Unique(candidates) <==> IsLast(candidates, c)
  {
    if candidates != [] {
      var n := |candidates| - 1;
      assert candidates == candidates[..n] + [candidates[n]];
      UniqueMeaning(candidates[..n]);
      PutMeaning(Unique(candidates[..n]), candidates[n]);
      forall c: Candidate
        ensures c in Unique(candidates) <==> IsLast(candidates, c)
      {
        LastGrows(candidates[..n], candidates[n], c);
      }
    }
  }

  ghost function IdsOf(candidates: seq<Candidate>): seq<string> {
    seq(|candidates|, i requires 0 <= i < |candidates| => candidates[i].id)
  }

  lemma {:induction false} PutIds(unique: seq<Candidate>, c: Candidate)
    ensures IdsOf(Put(unique, c)) == if c.id in IdsOf(unique) then IdsOf(unique) else IdsOf(unique) + [c.id]
  {
    if unique != [] {
      var rest := unique[1..];
      assert IdsOf(unique) == [unique[0].id] + IdsOf(rest);
      if unique[0].id == c.id {
        assert IdsOf([c] + rest) == [c.id] + IdsOf(rest);
      } else {
        PutIds(rest, c);
        assert IdsOf([unique[0]] + Put(rest, c)) == [unique[0].id] + IdsOf(Put(rest, c));
      }
    }
  }

  /** Some candidate has the one id and no candidate up to it the other. */
  ghost predicate AppearsBefore(candidates: seq<Candidate>, one: string, other: string) {
    exists n :: 0 <= n < |candidates| && candidates[n].id == one && other !in IdsOf(candidates[..n + 1])
  }

  lemma AppearsMore(candidates: seq<Candidate>, c: Candidate, one: string, other: string)
    requires AppearsBefore(candidates, one, other)
    ensures AppearsBefore(candidates + [c], one, other)
  {
    var n :| 0 <= n < |candidates| && candidates[n].id == one && other !in IdsOf(candidates[..n + 1]);
    assert (candidates + [c])[..n + 1] == candidates[..n + 1];
  }

  lemma LastAppears(candidates: seq<Candidate>, c: Candidate, one: string)
    requires one in IdsOf(candidates) && c.id !in IdsOf(candidates)
    ensures AppearsBefore(candidates + [c], one, c.id)
  {
    var n :| 0 <= n < |candidates| && IdsOf(candidates)[n] == one;
    assert (candidates + [c])[..n + 1] == candidates[..n + 1];
    var front := IdsOf(candidates[..n + 1]);
    forall m | 0 <= m < |front|
      ensures front[m] != c.id
    {
      assert IdsOf(candidates)[m] in IdsOf(candidates);
    }
    assert (candidates + [c])[n].id == one;
  }

  /** The ids appear in the order in which they first appear among the candidates. */
  lemma {:induction false} UniqueOrder(candidates: seq<Candidate>)
    ensures forall id :: id in IdsOf(Unique(candidates)) <==> id in IdsOf(candidates)
    ensures forall i, j :: 0 <= i < j < |Unique(candidates)| ==>
              AppearsBefore(candidates, Unique(candidates)[i].id, Unique(candidates)[j].id)
  {
    if candidates != [] {
      var n := |candidates| - 1;
      var front, c := candidates[..n], candidates[n];
      assert candidates == front + [c] && IdsOf(candidates) == IdsOf(front) + [c.id];
      UniqueOrder(front);
      PutIds(Unique(front), c);
      var before, after := IdsOf(Unique(front)), IdsOf(Unique(candidates));
      hide AppearsBefore, Unique;
      forall i, j | 0 <= i < j < |Unique(candidates)|
        ensures AppearsBefore(candidates, Unique(candidates)[i].id, Unique(candidates)[j].id)
      {
        assert after[i] == Unique(candidates)[i].id && after[j] == Unique(candidates)[j].id;
        assert before[i] == Unique(front)[i].id == after[i] && before[i] in before;
        if j < |before| {
          assert before[j] == Unique(front)[j].id;
          AppearsMore(front, c, after[i], after[j]);
        } else {
          LastAppears(front, c, after[i]);
        }
      }
    }
  }

  /** Every candidate is represented by one with its id. */
  lemma {:induction false} UniqueCovers(candidates: seq<Candidate>, c: Candidate)
    requires c in candidates
    ensures exists d :: d in Unique(candidates) && d.id == c.id
  {
    var n := |candidates| - 1;
    assert candidates == candidates[..n] + [candidates[n]];
    UniqueMeaning(candidates[..n]);
    PutMeaning(Unique(candidates[..n]), candidates[n]);
    if c.id != candidates[n].id {
      UniqueCovers(candidates[..n], c);
      var d :| d in Unique(candidates[..n]) && d.id == c.id;
      assert d in Unique(candidates);
    } else {
      assert candidates[n] in Unique(candidates);
    }
  }

  function Values(order: seq<string>, latest: map<string, Candidate>): (r: seq<Candidate>)
    requires forall id :: id in order ==> id in latest
    ensures |r| == |order|
  {
    seq(|order|, i requires 0 <= i < |order| => latest[order[i]])
  }

  /** Insertion order and contents of a dictionary from id to candidate. */
  ghost predicate IsDict(order: seq<string>, latest: map<string, Candidate>) {
    && (forall id :: id in order <==> id in latest)
    && (forall i, j :: 0 <= i < j < |order| ==> order[i] != order[j])
    && (forall id :: id in latest ==> latest[id].id == id)
  }

  lemma ValuesCons(id: string, rest: seq<string>, latest: map<string, Candidate>)
    requires id in latest && forall r :: r in rest ==> r in latest
    ensures Values([id] + rest, latest) == [latest[id]] + Values(rest, latest)
  {
    assert forall r :: r in [id] + rest ==> r == id || r in rest;
  }

  lemma ValuesKept(rest: seq<string>, latest: map<string, Candidate>, c: Candidate)
    requires c.id !in rest && forall r :: r in rest ==> r in latest
    ensures Values(rest, latest[c.id := c]) == Values(rest, latest)
  {}

  lemma {:induction false} PutValues(order: seq<string>, latest: map<string, Candidate>, c: Candidate)
    requires forall id :: id in order ==> id in latest && latest[id].id == id
    requires forall i, j :: 0 <= i < j < |order| ==> order[i] != order[j]
    ensures var after := if c.id in order then order else order + [c.id];
            Put(Values(order, latest), c) == Values(after, latest[c.id := c])
  {
    var now := latest[c.id := c];
    ValuesCons(c.id, [], now);
    if order == [] {
      assert [c.id] + [] == [c.id] && order + [c.id] == [c.id];
    } else {
      var id, rest := order[0], order[1..];
      assert order == [id] + rest;
      ValuesCons(id, rest, latest);
      if id == c.id {
        ValuesKept(rest, latest, c);
        ValuesCons(id, rest, now);
      } else {
        PutValues(rest, latest, c);
        var after := if c.id in rest then rest else rest + [c.id];
        ValuesCons(id, after, now);
        assert order + [c.id] == [id] + (rest + [c.id]);
      }
      hide Values;
    }
  }

  method CollectUnique(candidates: seq<Candidate>) returns (unique: seq<Candidate>)
    ensures unique == Unique(candidates)
  {
    var order: seq<string>, latest: map<string, Candidate> := [], map[];
    for i := 0 to |candidates|
      invariant IsDict(order, latest) && Values(order, latest) == Unique(candidates[..i])
    {
      var c := candidates[i];
      assert candidates[..i + 1][..i] == candidates[..i];
      PutValues(order, latest, c);
      order := if c.id in latest then order else order + [c.id];
      latest := latest[c.id := c];
    }
    assert candidates[..|candidates|] == candidates;
    unique := Values(order, latest);
  }

  /* ---------- Recording labels ---------- */

  ghost predicate Writes(k: Setting, writes: seq<Write>, key: LabelKey, verdict: Label) {
    exists w :: w in writes && key == LabelKey(k.task, w.snapshot, k.contract) && w.verdict == verdict
  }

  ghost predicate Touches(k: Setting, writes: seq<Write>, key: LabelKey) {
    exists w :: w in writes && key == LabelKey(k.task, w.snapshot, k.contract)
  }

  method Record(k: Setting, store: Store, writes: seq<Write>) returns (after: Store)
    ensures forall key :: key in after <==> key in store || Touches(k, writes, key)
    ensures forall key :: key in after ==>
              if Touches(k, writes, key) then Writes(k, writes, key, after[key]) else after[key] == store[key]
  {
    after := store;
    for i := 0 to |writes|
      invariant forall key :: key in after <==> key in store || Touches(k, writes[..i], key)
      invariant forall key :: key in after ==>
                  if Touches(k, writes[..i], key) then Writes(k, writes[..i], key, after[key])
                  else after[key] == store[key]
    {
      var w := writes[i];
      ghost var before := after;
      after := after[KeyOf(k, w.snapshot) := w.verdict];
      assert writes[..i + 1] == writes[..i] + [w];
      forall key: LabelKey
        ensures Touches(k, writes[..i + 1], key) <==> Touches(k, writes[..i], key) || key == KeyOf(k, w.snapshot)
        ensures forall v :: Writes(k, writes[..i], key, v) ==> Writes(k, writes[..i + 1], key, v)
      {
        TouchesGrows(k, writes[..i], w, key);
      }
      assert w in writes[..i + 1];
      assert Writes(k, writes[..i + 1], KeyOf(k, w.snapshot), w.verdict);
    }
    assert writes[..|writes|] == writes;
  }

  lemma TouchesGrows(k: Setting, writes: seq<Write>, w: Write, key: LabelKey)
    ensures Touches(k, writes + [w], key) <==> Touches(k, writes, key) || key == KeyOf(k, w.snapshot)
    ensures forall v :: Writes(k, writes, key, v) ==> Writes(k, writes + [w], key, v)
  {
    if key == KeyOf(k, w.snapshot) {
      assert w in writes + [w];
    }
    forall v | Writes(k, writes, key, v)
      ensures Writes(k, writes + [w], key, v)
    {
      var x :| x in writes && KeyOf(k, x.snapshot) == key && x.verdict == v;
      assert x in writes + [w];
    }
    if Touches(k, writes, key) {
      var x :| x in writes && KeyOf(k, x.snapshot) == key;
      assert x in writes + [w];
    }
  }

  /** Exactly the uncached snapshots were added, each with its label; nothing else changed. */
  ghost predicate Recorded(k: Setting, store: Store, candidates: seq<Candidate>, after: Store) {
    && (forall key :: key in after <==>
          || key in store
          || (key.task == k.task && key.contract == k.contract && key.snapshot in Pending(k, store, candidates)))
    && (forall key :: key in store ==> after[key] == store[key])
    && (forall key :: key in after && key !in store ==>
          LabelFor(k, store, candidates, key.snapshot) == Some(after[key]))
  }

  lemma SnapshotsTouched(k: Setting, writes: seq<Write>, key: LabelKey, pending: set<string>)
    requires Once(Snapshots(writes), pending)
    ensures Touches(k, writes, key) <==> key.snapshot in pending && key == KeyOf(k, key.snapshot)
  {
    assert forall h :: h in multiset(Snapshots(writes)) <==> h in pending;
    if Touches(k, writes, key) {
      var i :| 0 <= i < |writes| && key == LabelKey(k.task, writes[i].snapshot, k.contract);
      assert Snapshots(writes)[i] == key.snapshot;
    }
    if key.snapshot in pending {
      assert key.snapshot in Snapshots(writes);
      var i :| 0 <= i < |writes| && Snapshots(writes)[i] == key.snapshot;
      assert writes[i] in writes;
    }
  }

  lemma RecordedByWrites(k: Setting, store: Store, candidates: seq<Candidate>, writes: seq<Write>, after: Store)
    requires Once(Snapshots(writes), Pending(k, store, candidates)) && Truthful(k, store, candidates, writes)
    requires forall key :: key in after <==> key in store || Touches(k, writes, key)
    requires forall key :: key in after ==>
               if Touches(k, writes, key) then Writes(k, writes, key, after[key]) else after[key] == store[key]
    ensures Recorded(k, store, candidates, after)
  {
    forall key: LabelKey
      ensures Touches(k, writes, key) <==>
                key.snapshot in Pending(k, store, candidates) && key == KeyOf(k, key.snapshot)
    {
      SnapshotsTouched(k, writes, key, Pending(k, store, candidates));
    }
    hide LabelFor, Touches;
    forall key | key in after && key !in store
      ensures LabelFor(k, store, candidates, key.snapshot) == Some(after[key])
    {
      var w :| w in writes && KeyOf(k, w.snapshot) == key && w.verdict == after[key];
    }
    forall key | key in store
      ensures !Touches(k, writes, key)
    {
      if key.snapshot in Pending(k, store, candidates) {
        PendingUncached(k, store, candidates, key.snapshot);
      }
    }
  }

  /* ---------- Stages ---------- */

  datatype Row = Row(rank: nat, id: string, snapshot: string, verdict: Label, cacheHit: bool)

  datatype Stage = Stage(rows: seq<Row>, ndcg: real, precision: real, total: real)

  function Top(candidates: seq<Candidate>): (r: seq<Candidate>)
    ensures r <= candidates && |r| == if |candidates| < 10 then |candidates| else 10
  {
    if |candidates| <= TOP_K then candidates else candidates[..TOP_K]
  }

  function ScoresOf(rows: seq<Row>): (r: seq<int>)
    ensures Scores(r) && |r| == |rows|
  {
    seq(|rows|, i requires 0 <= i < |rows| => rows[i].verdict.score)
  }

  ghost predicate Measured(stage: Stage, w: Discount) {
    && stage.ndcg == Ndcg(ScoresOf(stage.rows), w)
    && stage.precision == Precision(ScoresOf(stage.rows))
    && stage.total == Total(stage.ndcg, stage.precision)
  }

  ghost predicate RowFor(k: Setting, row: Row, rank: nat, c: Candidate, j: Judged) {
    && row.rank == rank && row.id == c.id && row.verdict == j.verdict && row.cacheHit == j.cacheHit
    && row.snapshot == if c.snapshot == "" then k.hash(c.raw) else c.snapshot
  }

  method StageResult(k: Setting, candidates: seq<Candidate>, judged: map<string, Judged>, w: Discount)
    returns (stage: Stage)
    requires forall c :: c in Top(candidates) ==> c.id in judged
    ensures |stage.rows| == (if |candidates| < 10 then |candidates| else 10) && Measured(stage, w)
    ensures forall i :: 0 <= i < |stage.rows| ==>
              candidates[i].id in judged && RowFor(k, stage.rows[i], i + 1, candidates[i], judged[candidates[i].id])
  {
    var rows: seq<Row>, top := [], Top(candidates);
    for i := 0 to |top|
      invariant |rows| == i
      invariant forall n :: 0 <= n < i ==> RowFor(k, rows[n], n + 1, top[n], judged[top[n].id])
    {
      var j := judged[top[i].id];
      rows := rows + [Row(i + 1, top[i].id, SnapshotOf(k, top[i]), j.verdict, j.cacheHit)];
    }
    var ndcg, precision := Ndcg(ScoresOf(rows), w), Precision(ScoresOf(rows));
    stage := Stage(rows, ndcg, precision, Total(ndcg, precision));
  }

  ghost predicate JudgedAs(k: Setting, store: Store, judged: seq<Candidate>, c: Candidate, row: Row) {
    && c in judged && c.id == row.id
    && LabelFor(k, store, judged, SnapshotOf(k, c)) == Some(row.verdict)
    && (row.cacheHit <==> KeyOf(k, SnapshotOf(k, c)) in store)
  }

  ghost predicate IsRow(k: Setting, store: Store, judged: seq<Candidate>, top: Candidate, rank: nat, row: Row) {
    && row.rank == rank && row.id == top.id && row.snapshot == SnapshotOf(k, top)
    && exists c :: JudgedAs(k, store, judged, c, row)
  }

  /** The rows of a stage: in rank order, each with the label and the cache flag of the judged
      candidate that has the row's id. */
  ghost predicate RowsOf(k: Setting, store: Store, judged: seq<Candidate>, top: seq<Candidate>, rows: seq<Row>) {
    && |rows| == |top|
    && forall i :: 0 <= i < |rows| ==> IsRow(k, store, judged, top[i], i + 1, rows[i])
  }

  lemma StageRows(k: Setting, store: Store, judged: seq<Candidate>, results: map<string, Judged>,
                  top: seq<Candidate>, rows: seq<Row>)
    requires Labelled(k, store, judged, results)
    requires |rows| == |top| && forall c :: c in top ==> c.id in results
    requires forall i :: 0 <= i < |rows| ==> RowFor(k, rows[i], i + 1, top[i], results[top[i].id])
    ensures RowsOf(k, store, judged, top, rows)
  {
    hide LabelFor, KeyOf;
    forall i | 0 <= i < |rows|
      ensures IsRow(k, store, judged, top[i], i + 1, rows[i])
    {
      assert RowFor(k, rows[i], i + 1, top[i], results[top[i].id]);
      assert From(k, store, judged, top[i].id, results[top[i].id]);
      var c :| c in judged && c.id == top[i].id && Describes(k, store, judged, c, results[top[i].id]);
      assert JudgedAs(k, store, judged, c, rows[i]);
    }
  }

  ghost function JudgedCandidates(first: seq<Candidate>, last: seq<Candidate>): seq<Candidate> {
    Unique(Top(first) + Top(last))
  }

  datatype Evaluation = Raised | Evaluated(first: Stage, last: Stage)

  ghost predicate IsStage(k: Setting, store: Store, judged: seq<Candidate>, candidates: seq<Candidate>, stage: Stage,
                          w: Discount)
  {
    RowsOf(k, store, judged, Top(candidates), stage.rows) && Measured(stage, w)
  }

  /** Both stages of a run, labelled from `store` and the agent, and the store `after` recording. */
  ghost predicate IsEvaluation(k: Setting, store: Store, first: seq<Candidate>, last: seq<Candidate>, w: Discount,
                               e: Evaluation, after: Store)
  {
    var judged := JudgedCandidates(first, last);
    && e.Evaluated?
    && IsStage(k, store, judged, first, e.first, w) && IsStage(k, store, judged, last, e.last, w)
    && Recorded(k, store, judged, after)
  }

  lemma LookupsHit(first: seq<Candidate>, last: seq<Candidate>, c: Candidate)
    requires c in Top(first) || c in Top(last)
    ensures exists d :: d in JudgedCandidates(first, last) && d.id == c.id
  {
    UniqueCovers(Top(first) + Top(last), c);
  }

  lemma LabelledHas(k: Setting, store: Store, judged: seq<Candidate>, results: map<string, Judged>, id: string)
    requires Labelled(k, store, judged, results)
    requires exists d :: d in judged && d.id == id
    ensures id in results
  {}

  /** The evaluation either raises, with the store as it was, or records exactly one new label per
      uncached snapshot and labels every row of both stages. */
  method EvaluateRun(k: Setting, store: Store, first: seq<Candidate>, last: seq<Candidate>, limit: nat, w: Discount)
    returns (evaluation: Evaluation, after: Store, events: seq<Event>)
    requires limit >= 1
    ensures evaluation.Evaluated? <==> Answered(k, store, JudgedCandidates(first, last))
    ensures evaluation.Raised? ==> after == store
    ensures evaluation.Evaluated? ==>
              && IsEvaluation(k, store, first, last, w, evaluation, after)
              && Once(Calls(events), Pending(k, store, JudgedCandidates(first, last)))
    ensures Bounded(events, limit)
  {
    hide LabelFor, Aliases, Unique, Recorded, Labelled, Truthful, Snapshots, Calls, Pending, Bounded, Once, Answered;
    hide Touches, Writes, Measured, RowsOf, RowFor, Top;
    var unique := CollectUnique(Top(first) + Top(last));
    var outcome;
    outcome, events := JudgeMany(k, store, unique, limit);
    if outcome.AgentFailed? {
      return Raised, store, events;
    }
    after := Record(k, store, outcome.writes);
    RecordedByWrites(k, store, unique, outcome.writes, after);
    forall c | c in Top(first) || c in Top(last)
      ensures c.id in outcome.results
    {
      LookupsHit(first, last, c);
      LabelledHas(k, store, unique, outcome.results, c.id);
    }
    var one := StageResult(k, first, outcome.results, w);
    var two := StageResult(k, last, outcome.results, w);
    StageRows(k, store, unique, outcome.results, Top(first), one.rows);
    StageRows(k, store, unique, outcome.results, Top(last), two.rows);
    evaluation := Evaluated(one, two);
  }

  /* ---------- Independence of the worker order ---------- */

  /** Two rows for the same candidate, judged under settings that hash alike, come from the same
      judged candidate. */
  lemma OneSource(k: Setting, s1: Store, k2: Setting, s2: Store, judged: seq<Candidate>, top: Candidate, rank: nat,
                  r1: Row, r2: Row)
    returns (c: Candidate)
    requires DistinctIds(judged) && IsRow(k, s1, judged, top, rank, r1) && IsRow(k2, s2, judged, top, rank, r2)
    ensures JudgedAs(k, s1, judged, c, r1) && JudgedAs(k2, s2, judged, c, r2)
  {
    hide LabelFor, SnapshotOf, KeyOf, DistinctIds;
    c :| JudgedAs(k, s1, judged, c, r1);
    var d :| JudgedAs(k2, s2, judged, d, r2);
    SameId(judged, c, d);
  }

  lemma SameId(judged: seq<Candidate>, c: Candidate, d: Candidate)
    requires DistinctIds(judged) && c in judged && d in judged && c.id == d.id
    ensures c == d
  {}

  lemma RowsAgree(k: Setting, store: Store, judged: seq<Candidate>, top: seq<Candidate>, r1: seq<Row>, r2: seq<Row>)
    requires DistinctIds(judged)
    requires RowsOf(k, store, judged, top, r1) && RowsOf(k, store, judged, top, r2)
    ensures r1 == r2
  {
    hide LabelFor, SnapshotOf, KeyOf, DistinctIds;
    forall i | 0 <= i < |top|
      ensures r1[i] == r2[i]
    {
      var c := OneSource(k, store, k, store, judged, top[i], i + 1, r1[i], r2[i]);
    }
  }

  lemma StoresAgree(k: Setting, store: Store, judged: seq<Candidate>, s1: Store, s2: Store)
    requires Recorded(k, store, judged, s1) && Recorded(k, store, judged, s2)
    ensures s1 == s2
  {
    hide LabelFor, KeyOf, Pending;
  }

  /** However the workers interleave, an evaluation gives the same stages and the same store. */
  lemma OrderFree(k: Setting, store: Store, first: seq<Candidate>, last: seq<Candidate>, w: Discount,
                  e1: Evaluation, s1: Store, e2: Evaluation, s2: Store)
    requires IsEvaluation(k, store, first, last, w, e1, s1) && IsEvaluation(k, store, first, last, w, e2, s2)
    ensures e1 == e2 && s1 == s2
  {
    hide LabelFor, Recorded, RowsOf, Ndcg, Precision, Total, ScoresOf, Top, Unique;
    var judged := JudgedCandidates(first, last);
    UniqueMeaning(Top(first) + Top(last));
    StoresAgree(k, store, judged, s1, s2);
    RowsAgree(k, store, judged, Top(first), e1.first.rows, e2.first.rows);
    RowsAgree(k, store, judged, Top(last), e1.last.rows, e2.last.rows);
  }

  /* ---------- Reruns ---------- */

  /** Once the labels are recorded, judging candidates with the same snapshots calls no agent and
      gives the same labels, whatever the agent would now answer. */
  lemma RerunIsSilent(k: Setting, store: Store, judged: seq<Candidate>, after: Store, again: seq<Candidate>,
                      ask: (Candidate, string) -> Option<Label>)
    requires Recorded(k, store, judged, after)
    requires forall c :: c in again ==> exists d :: d in judged && SnapshotOf(k, d) == SnapshotOf(k, c)
    ensures Pending(k.(ask := ask), after, again) == {}
    ensures forall c :: c in again ==>
              && KeyOf(k, SnapshotOf(k, c)) in after
              && LabelFor(k.(ask := ask), after, again, SnapshotOf(k, c))
              == LabelFor(k, store, judged, SnapshotOf(k, c))
  {
    hide Aliases;
    forall c | c in again
      ensures KeyOf(k, SnapshotOf(k, c)) in after
      ensures LabelFor(k.(ask := ask), after, again, SnapshotOf(k, c)) == LabelFor(k, store, judged, SnapshotOf(k, c))
    {
      var d :| d in judged && SnapshotOf(k, d) == SnapshotOf(k, c);
      assert KeyOf(k, SnapshotOf(k, d)) in store || SnapshotOf(k, d) in Pending(k, store, judged);
    }
  }

  lemma RerunRow(k: Setting, store: Store, judged: seq<Candidate>, after: Store, top: Candidate, rank: nat,
                 ask: (Candidate, string) -> Option<Label>, r1: Row, r2: Row)
    requires DistinctIds(judged) && Recorded(k, store, judged, after)
    requires IsRow(k, store, judged, top, rank, r1) && IsRow(k.(ask := ask), after, judged, top, rank, r2)
    ensures r2 == r1.(cacheHit := true)
  {
    hide *;
    var c := OneSource(k, store, k.(ask := ask), after, judged, top, rank, r1, r2);
    RerunLabel(k, store, judged, after, c, ask, r1, r2);
    RowFields(k, store, judged, top, rank, r1);
    RowFields(k.(ask := ask), after, judged, top, rank, r2);
    SameSnapshot(k, top, ask);
  }

  lemma SameSnapshot(k: Setting, c: Candidate, ask: (Candidate, string) -> Option<Label>)
    ensures SnapshotOf(k.(ask := ask), c) == SnapshotOf(k, c)
  {}

  lemma RowFields(k: Setting, store: Store, judged: seq<Candidate>, top: Candidate, rank: nat, row: Row)
    requires IsRow(k, store, judged, top, rank, row)
    ensures row.rank == rank && row.id == top.id && row.snapshot == SnapshotOf(k, top)
  {}

  lemma RerunLabel(k: Setting, store: Store, judged: seq<Candidate>, after: Store, c: Candidate,
                   ask: (Candidate, string) -> Option<Label>, r1: Row, r2: Row)
    requires Recorded(k, store, judged, after)
    requires JudgedAs(k, store, judged, c, r1) && JudgedAs(k.(ask := ask), after, judged, c, r2)
    ensures r2.verdict == r1.verdict && r2.cacheHit
  {
    hide LabelFor, Recorded, Pending;
    RerunIsSilent(k, store, judged, after, judged, ask);
    SameSnapshot(k, c, ask);
  }

  lemma RerunRows(k: Setting, store: Store, judged: seq<Candidate>, after: Store, top: seq<Candidate>,
                  ask: (Candidate, string) -> Option<Label>, r1: seq<Row>, r2: seq<Row>)
    requires DistinctIds(judged) && Recorded(k, store, judged, after)
    requires RowsOf(k, store, judged, top, r1) && RowsOf(k.(ask := ask), after, judged, top, r2)
    ensures |r1| == |r2| && forall i :: 0 <= i < |r1| ==> r2[i] == r1[i].(cacheHit := true)
    ensures ScoresOf(r1) == ScoresOf(r2)
  {
    hide LabelFor, Recorded, DistinctIds, Pending, Scores;
    forall i | 0 <= i < |top|
      ensures r2[i] == r1[i].(cacheHit := true)
    {
      RerunRow(k, store, judged, after, top[i], i + 1, ask, r1[i], r2[i]);
    }
  }

  /** A rerun of the whole evaluation makes no call and scores both stages as before. */
  lemma RerunScoresAlike(k: Setting, store: Store, first: seq<Candidate>, last: seq<Candidate>, w: Discount,
                         ask: (Candidate, string) -> Option<Label>, e1: Evaluation, after: Store,
                         e2: Evaluation, again: Store)
    requires IsEvaluation(k, store, first, last, w, e1, after)
    requires IsEvaluation(k.(ask := ask), after, first, last, w, e2, again)
    ensures again == after
    ensures Pending(k.(ask := ask), after, JudgedCandidates(first, last)) == {}
    ensures (e1.first.ndcg, e1.first.precision, e1.first.total) == (e2.first.ndcg, e2.first.precision, e2.first.total)
    ensures (e1.last.ndcg, e1.last.precision, e1.last.total) == (e2.last.ndcg, e2.last.precision, e2.last.total)
  {
    hide LabelFor, Recorded, RowsOf, Ndcg, Precision, Total, ScoresOf, Top, Unique, Pending;
    var judged := JudgedCandidates(first, last);
    UniqueMeaning(Top(first) + Top(last));
    RerunIsSilent(k, store, judged, after, judged, ask);
    RerunRows(k, store, judged, after, Top(first), ask, e1.first.rows, e2.first.rows);
    RerunRows(k, store, judged, after, Top(last), ask, e1.last.rows, e2.last.rows);
    NothingRecorded(k.(ask := ask), after, judged, again);
  }

  lemma NothingRecorded(k: Setting, store: Store, judged: seq<Candidate>, after: Store)
    requires Recorded(k, store, judged, after) && Pending(k, store, judged) == {}
    ensures after == store
  {
    hide LabelFor, KeyOf, Pending;
  }

  /** The total of a stage lies between 0 and 1, and is 1 exactly when ten rows have the best score. */
  lemma StageTotal(stage: Stage, w: Discount)
    requires IsDiscount(w) && Measured(stage, w)
    ensures 0.0 <= stage.total <= 1.0
    ensures stage.total == 1.0 <==>
              |stage.rows| >= 10 && forall i :: 0 <= i < 10 ==> stage.rows[i].verdict.score == 3
  {
    TotalRange(ScoresOf(stage.rows), w);
    hide Ndcg, Precision, Total, Scores;
    if |stage.rows| >= TOP_K {
      assert forall i :: 0 <= i < TOP_K ==> ScoresOf(stage.rows)[i] == stage.rows[i].verdict.score;
    }
  }

  /* ---------- Whose label a row shows ---------- */

  ghost predicate OneSnapshotPerId(k: Setting, candidates: seq<Candidate>) {
    forall c, d :: c in candidates && d in candidates && c.id == d.id ==> SnapshotOf(k, c) == SnapshotOf(k, d)
  }

  /** Every row shows the label of its own snapshot. */
  ghost predicate OwnLabels(k: Setting, store: Store, judged: seq<Candidate>, rows: seq<Row>) {
    forall i :: 0 <= i < |rows| ==> LabelFor(k, store, judged, rows[i].snapshot) == Some(rows[i].verdict)
  }

  ghost predicate OwnStages(k: Setting, store: Store, judged: seq<Candidate>, e: Evaluation) {
    e.Evaluated? ==> OwnLabels(k, store, judged, e.first.rows) && OwnLabels(k, store, judged, e.last.rows)
  }

  /** Whatever the cache and the agent, every row of every evaluation shows the label of its snapshot. */
  ghost predicate AlwaysOwn(k: Setting, first: seq<Candidate>, last: seq<Candidate>, w: Discount) {
    forall store, ask, e, after :: IsEvaluation(k.(ask := ask), store, first, last, w, e, after) ==>
      OwnStages(k.(ask := ask), store, JudgedCandidates(first, last), e)
  }

  lemma UniqueWithin(candidates: seq<Candidate>, d: Candidate)
    requires d in Unique(candidates)
    ensures d in candidates
  {
    UniqueMeaning(candidates);
  }

  /** With one snapshot per id, a row's label is that of its snapshot. */
  lemma OneSnapshotOwns(k: Setting, store: Store, all: seq<Candidate>, top: seq<Candidate>, rows: seq<Row>)
    requires OneSnapshotPerId(k, all) && RowsOf(k, store, Unique(all), top, rows)
    requires forall c :: c in top ==> c in all
    ensures OwnLabels(k, store, Unique(all), rows)
  {
    hide LabelFor, Unique, SnapshotOf;
    forall i | 0 <= i < |rows|
      ensures LabelFor(k, store, Unique(all), rows[i].snapshot) == Some(rows[i].verdict)
    {
      assert IsRow(k, store, Unique(all), top[i], i + 1, rows[i]);
      var c :| JudgedAs(k, store, Unique(all), c, rows[i]);
      UniqueWithin(all, c);
      assert top[i] in all;
    }
  }

  /* ---------- Every answered input has an evaluation ---------- */

  ghost predicate HasJudged(judged: seq<Candidate>, id: string) {
    exists d :: d in judged && d.id == id
  }

  ghost function JudgedWith(judged: seq<Candidate>, id: string): Candidate
    requires HasJudged(judged, id)
  {
    var d :| d in judged && d.id == id;
    d
  }

  ghost predicate AllLabelled(k: Setting, store: Store, judged: seq<Candidate>) {
    forall c :: c in judged ==> LabelFor(k, store, judged, SnapshotOf(k, c)).Some?
  }

  ghost predicate Represented(judged: seq<Candidate>, top: seq<Candidate>) {
    forall i :: 0 <= i < |top| ==> HasJudged(judged, top[i].id)
  }

  ghost function MakeRow(k: Setting, store: Store, judged: seq<Candidate>, c: Candidate, rank: nat): Row
    requires AllLabelled(k, store, judged) && HasJudged(judged, c.id)
  {
    var d := JudgedWith(judged, c.id);
    Row(rank, c.id, SnapshotOf(k, c), LabelFor(k, store, judged, SnapshotOf(k, d)).value,
        KeyOf(k, SnapshotOf(k, d)) in store)
  }

  lemma MakeRows(k: Setting, store: Store, judged: seq<Candidate>, top: seq<Candidate>) returns (rows: seq<Row>)
    requires AllLabelled(k, store, judged) && Represented(judged, top)
    ensures RowsOf(k, store, judged, top, rows)
  {
    rows := seq(|top|, i requires 0 <= i < |top| => MakeRow(k, store, judged, top[i], i + 1));
    hide LabelFor, SnapshotOf, KeyOf;
    forall i | 0 <= i < |top|
      ensures IsRow(k, store, judged, top[i], i + 1, rows[i])
    {
      assert JudgedAs(k, store, judged, JudgedWith(judged, top[i].id), rows[i]);
    }
  }

  lemma MakeStore(k: Setting, store: Store, judged: seq<Candidate>) returns (after: Store)
    requires AllLabelled(k, store, judged)
    ensures Recorded(k, store, judged, after)
  {
    hide LabelFor;
    var pending := Pending(k, store, judged);
    assert forall h :: h in pending ==> LabelFor(k, store, judged, h).Some?;
    var added := map h | h in pending :: KeyOf(k, h) := LabelFor(k, store, judged, h).value;
    after := added + store;
  }

  lemma EvaluationExists(k: Setting, store: Store, first: seq<Candidate>, last: seq<Candidate>, w: Discount)
      returns (e: Evaluation, after: Store)
    requires AllLabelled(k, store, JudgedCandidates(first, last))
    ensures IsEvaluation(k, store, first, last, w, e, after)
  {
    var judged := JudgedCandidates(first, last);
    forall c | c in Top(first) || c in Top(last)
      ensures HasJudged(judged, c.id)
    {
      LookupsHit(first, last, c);
    }
    hide AllLabelled, JudgedCandidates, Recorded, RowsOf, Top, Ndcg, Precision, Total;
    var one := MakeRows(k, store, judged, Top(first));
    var two := MakeRows(k, store, judged, Top(last));
    after := MakeStore(k, store, judged);
    e := Evaluated(Measure(one, w), Measure(two, w));
  }

  function Measure(rows: seq<Row>, w: Discount): (stage: Stage)
    ensures stage.rows == rows && Measured(stage, w)
  {
    var ndcg, precision := Ndcg(ScoresOf(rows), w), Precision(ScoresOf(rows));
    Stage(rows, ndcg, precision, Total(ndcg, precision))
  }

  /* ---------- Two snapshots under one id ---------- */

  /** An agent that tells one snapshot from all others. */
  ghost function Telling(right: string): (Candidate, string) -> Option<Label> {
    (x: Candidate, h: string) => if h == right then Some(Label(1, "")) else Some(Label(0, ""))
  }

  lemma TellingLabels(k: Setting, judged: seq<Candidate>, d: Candidate, h: string)
    requires d in judged && k.ask == Telling(SnapshotOf(k, d))
    ensures AllLabelled(k, map[], judged)
    ensures LabelFor(k, map[], judged, SnapshotOf(k, d)) == Some(Label(1, ""))
    ensures h != SnapshotOf(k, d) ==> LabelFor(k, map[], judged, h) != Some(Label(1, ""))
  {
    forall c | c in judged
      ensures Aliases(k, judged, SnapshotOf(k, c)) != []
    {
      AliasesMeaning(k, judged, SnapshotOf(k, c));
      assert c in Aliases(k, judged, SnapshotOf(k, c));
    }
    hide Aliases;
  }

  lemma MislabelledRow(k: Setting, judged: seq<Candidate>, top: seq<Candidate>, rows: seq<Row>, c: Candidate,
                       d: Candidate)
    requires DistinctIds(judged) && RowsOf(k, map[], judged, top, rows) && c in top && d in judged && c.id == d.id
    requires k.ask == Telling(SnapshotOf(k, d)) && SnapshotOf(k, c) != SnapshotOf(k, d)
    ensures !OwnLabels(k, map[], judged, rows)
  {
    TellingLabels(k, judged, d, SnapshotOf(k, c));
    hide LabelFor, SnapshotOf, DistinctIds, AllLabelled;
    var i :| 0 <= i < |top| && top[i] == c;
    assert IsRow(k, map[], judged, top[i], i + 1, rows[i]);
    var x :| JudgedAs(k, map[], judged, x, rows[i]);
    SameId(judged, x, d);
    assert rows[i].verdict == Label(1, "");
  }

  lemma MixedSnapshotsMislabel(k: Setting, first: seq<Candidate>, last: seq<Candidate>, w: Discount, c: Candidate,
                               d: Candidate)
    requires c in Top(first) || c in Top(last)
    requires d in JudgedCandidates(first, last) && c.id == d.id && SnapshotOf(k, c) != SnapshotOf(k, d)
    ensures !AlwaysOwn(k, first, last, w)
  {
    var judged, ask := JudgedCandidates(first, last), Telling(SnapshotOf(k, d));
    var k2 := k.(ask := ask);
    UniqueMeaning(Top(first) + Top(last));
    TellingLabels(k2, judged, d, SnapshotOf(k2, c));
    hide LabelFor, AllLabelled, DistinctIds, Telling, Recorded, RowsOf, Measured, OwnLabels, Unique, Top;
    var e, after := EvaluationExists(k2, map[], first, last, w);
    if c in Top(first) {
      MislabelledRow(k2, judged, Top(first), e.first.rows, c, d);
    } else {
      MislabelledRow(k2, judged, Top(last), e.last.rows, c, d);
    }
    assert !OwnStages(k2, map[], judged, e);
  }

  /** Whatever the cache and the agent, every row shows the label of its own snapshot: that holds
      exactly when no id comes with two snapshots. */
  lemma RowsShowOwnLabelsIff(k: Setting, first: seq<Candidate>, last: seq<Candidate>, w: Discount)
    ensures AlwaysOwn(k, first, last, w) <==> OneSnapshotPerId(k, Top(first) + Top(last))
  {
    var all := Top(first) + Top(last);
    hide LabelFor, Unique, Top, RowsOf, Recorded, Measured, OwnLabels;
    if OneSnapshotPerId(k, all) {
      forall store, ask, e, after | IsEvaluation(k.(ask := ask), store, first, last, w, e, after)
        ensures OwnStages(k.(ask := ask), store, JudgedCandidates(first, last), e)
      {
        assert forall x :: SnapshotOf(k.(ask := ask), x) == SnapshotOf(k, x);
        OneSnapshotOwns(k.(ask := ask), store, all, Top(first), e.first.rows);
        OneSnapshotOwns(k.(ask := ask), store, all, Top(last), e.last.rows);
      }
    } else {
      var c, d :| c in all && d in all && c.id == d.id && SnapshotOf(k, c) != SnapshotOf(k, d);
      UniqueCovers(all, c);
      var x :| x in Unique(all) && x.id == c.id;
      MixedSnapshotsMislabel(k, first, last, w, if SnapshotOf(k, c) != SnapshotOf(k, x) then c else d, x);
    }
  }
}
