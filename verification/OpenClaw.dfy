/** The OpenClaw baseline: a budgeted search tool, a step loop per round and a round loop, driven by
    a responder and a search service that may answer anything. */
module OpenClaw {
  import opened Options

  const MAX_ROUNDS: nat := 10
  const TOP_K: nat := 10

  type Id = string

  datatype Candidate = Candidate(id: Id, data: int)

  /* ---------- Shortlists ---------- */

  /** The known ids of a list, each once, in order of first appearance. */
  ghost function Known(ids: seq<Id>, store: map<Id, Candidate>): seq<Id> {
    if ids == [] then []
    else
      var before, id := Known(ids[..|ids| - 1], store), ids[|ids| - 1];
      if id in before || id !in store then before else before + [id]
  }

  ghost function Take(ids: seq<Id>, limit: nat): seq<Id> {
    if |ids| <= limit then ids else ids[..limit]
  }

  ghost function Ids(candidates: seq<Candidate>): seq<Id> {
    seq(|candidates|, i requires 0 <= i < |candidates| => candidates[i].id)
  }

  ghost predicate Distinct(ids: seq<Id>) {
    forall i, j :: 0 <= i < j < |ids| ==> ids[i] != ids[j]
  }

  /** Every stored candidate is filed under its own id. */
  ghost predicate Filed(store: map<Id, Candidate>) {
    forall id :: id in store ==> store[id].id == id
  }

  /** Of two listed ids, the one listed first appears first among `all`. */
  ghost predicate FirstsInOrder(all: seq<Id>, ids: seq<Id>) {
    forall i, j :: 0 <= i < j < |ids| ==> exists k :: 0 <= k < |all| && all[k] == ids[i] && ids[j] !in all[..k + 1]
  }

  lemma {:induction false} KnownMeaning(ids: seq<Id>, store: map<Id, Candidate>)
    ensures Distinct(Known(ids, store))
    ensures forall id :: id in Known(ids, store) <==> id in ids && id in store
    ensures FirstsInOrder(ids, Known(ids, store))
  {
    if ids != [] {
      var n := |ids| - 1;
      KnownMeaning(ids[..n], store);
      assert ids == ids[..n] + [ids[n]];
      var before, known := Known(ids[..n], store), Known(ids, store);
      forall i, j | 0 <= i < j < |known|
        ensures exists k :: 0 <= k < |ids| && ids[k] == known[i] && known[j] !in ids[..k + 1]
      {
        assert known[i] == before[i];
        var k: nat;
        if j < |before| {
          k :| k < n && ids[..n][k] == before[i] && before[j] !in ids[..n][..k + 1];
        } else {
          assert before[i] in before;
          k :| k < n && ids[..n][k] == before[i];
        }
        assert ids[..n][..k + 1] == ids[..k + 1];
        assert ids[k] == known[i] && known[j] !in ids[..k + 1];
      }
    }
  }

  /** The ids of a list, each once, in order of first appearance. */
  ghost function Firsts(ids: seq<Id>): seq<Id> {
    if ids == [] then []
    else
      var before, id := Firsts(ids[..|ids| - 1]), ids[|ids| - 1];
      if id in before then before else before + [id]
  }

  /** Where every id is stored, the known ids are the ids. */
  lemma {:induction false} FirstsKnown(ids: seq<Id>, store: map<Id, Candidate>)
    requires forall id :: id in ids ==> id in store
    ensures Known(ids, store) == Firsts(ids)
  {
    if ids != [] {
      FirstsKnown(ids[..|ids| - 1], store);
      assert ids[|ids| - 1] in ids;
    }
  }

  lemma FirstsMeaning(ids: seq<Id>)
    ensures Distinct(Firsts(ids)) && FirstsInOrder(ids, Firsts(ids))
    ensures forall id :: id in Firsts(ids) <==> id in ids
  {
    var store := map id | id in ids :: Candidate(id, 0);
    FirstsKnown(ids, store);
    KnownMeaning(ids, store);
  }

  /** A list of distinct known ids is its own list of known ids. */
  lemma {:induction false} KnownStable(ids: seq<Id>, store: map<Id, Candidate>)
    requires Distinct(ids) && forall id :: id in ids ==> id in store
    ensures Known(ids, store) == ids
  {
    if ids != [] {
      var n := |ids| - 1;
      KnownStable(ids[..n], store);
      assert ids == ids[..n] + [ids[n]] && ids[n] in ids;
    }
  }

  lemma {:induction false} KnownExtends(ids: seq<Id>, n: nat, store: map<Id, Candidate>)
    requires n <= |ids|
    ensures Known(ids[..n], store) <= Known(ids, store)
    decreases |ids| - n
  {
    if n == |ids| {
      assert ids[..n] == ids;
    } else {
      assert ids[..n + 1][..n] == ids[..n];
      KnownExtends(ids, n + 1, store);
    }
  }

  lemma KnownNext(ids: seq<Id>, i: nat, store: map<Id, Candidate>)
    requires i < |ids|
    ensures var before := Known(ids[..i], store);
            Known(ids[..i + 1], store) == if ids[i] in before || ids[i] !in store then before else before + [ids[i]]
  {
    assert ids[..i + 1][..i] == ids[..i];
  }

  /** Rank a snapshot: the first `limit` known ids; none at all is an error. */
  method RankedCandidates(ids: seq<Id>, store: map<Id, Candidate>, limit: nat) returns (r: Option<seq<Candidate>>)
    requires limit >= 1 && Filed(store)
    ensures r.None? <==> forall id :: id in ids ==> id !in store
    ensures r.Some? ==> Ids(r.value) == Take(Known(ids, store), limit)
    ensures r.Some? ==> Ids(r.value) <= Known(ids, store) && |r.value| <= limit
    ensures r.Some? ==> |r.value| == limit || |r.value| == |Known(ids, store)|
    ensures r.Some? ==> r.value != [] && forall c :: c in r.value ==> c.id in store && store[c.id] == c
  {
    hide Known;
    var seen: set<Id> := {};
    var selected: seq<Candidate> := [];
    KnownMeaning(ids, store);
    KnownMeaning(ids[..0], store);
    NoMembers(Known(ids[..0], store));
    for i := 0 to |ids|
      invariant Ids(selected) == Known(ids[..i], store) && |selected| < limit
      invariant forall id :: id in seen <==> id in Known(ids[..i], store)
      invariant forall c :: c in selected ==> c.id in store && store[c.id] == c
    {
      KnownNext(ids, i, store);
      if ids[i] in seen || ids[i] !in store {
        continue;
      }
      seen := seen + {ids[i]};
      selected := selected + [store[ids[i]]];
      assert Ids(selected) == Known(ids[..i + 1], store);
      if |selected| >= limit {
        KnownExtends(ids, i + 1, store);
        TakePrefix(Ids(selected), Known(ids, store), limit);
        assert Known(ids, store)[0] in Known(ids, store);
        return Some(selected);
      }
    }
    assert ids[..|ids|] == ids;
    if selected == [] {
      assert forall id :: id in ids && id in store ==> id in Known(ids, store);
      return None;
    }
    assert Ids(selected)[0] in Known(ids, store);
    return Some(selected);
  }

  lemma TakePrefix(front: seq<Id>, ids: seq<Id>, limit: nat)
    requires front <= ids && |front| == limit
    ensures front == Take(ids, limit)
  {}

  lemma NoMembers(ids: seq<Id>)
    ensures (forall id :: id !in ids) ==> ids == []
  {
    assert ids != [] ==> ids[0] in ids;
  }

  /* ---------- The search tool ---------- */

  /** What the search service does with an accepted search. */
  datatype Search = Fails | Finds(candidates: seq<Candidate>)

  /** A tool call: another tool, arguments that do not validate, or a search for a page. */
  datatype Call = Unsupported | Malformed | Request(page: nat, search: Search)

  datatype Reply = Searched | Exhausted | Raised

  /** The settings: attempts and pages allowed in a round. */
  datatype Limits = Limits(attempts: nat, pages: nat)

  /** The tool's fields, with the calls of the earlier rounds and of the current one. */
  datatype Tool = Tool(
    limits: Limits,
    store: map<Id, Candidate>,
    callsUsed: nat,
    totalCalls: nat,
    roundNew: seq<Id>,
    firstSearch: seq<Id>,
    past: seq<seq<Call>>,
    calls: seq<Call>)

  function Fresh(limits: Limits): Tool {
    Tool(limits, map[], 0, 0, [], [], [], [])
  }

  function StartRound(t: Tool): Tool {
    t.(callsUsed := 0, roundNew := [], past := t.past + [t.calls], calls := [])
  }

  function Accepts(t: Tool, page: nat): bool {
    t.totalCalls + 1 <= MAX_ROUNDS && t.callsUsed + 1 <= t.limits.attempts && page <= t.limits.pages
  }

  function AddAll(t: Tool, candidates: seq<Candidate>): Tool
    decreases |candidates|
  {
    if candidates == [] then t else AddAll(AddOne(t, candidates[0]), candidates[1..])
  }

  function AddOne(t: Tool, c: Candidate): Tool {
    var t' := if c.id in t.store then t else t.(roundNew := t.roundNew + [c.id]);
    t'.(store := t.store[c.id := c])
  }

  function TopIds(candidates: seq<Candidate>): seq<Id> {
    var n := if |candidates| <= TOP_K then |candidates| else TOP_K;
    seq(n, i requires 0 <= i < n => candidates[i].id)
  }

  function Receive(t: Tool, candidates: seq<Candidate>): Tool {
    AddAll(t.(firstSearch := if t.firstSearch == [] then TopIds(candidates) else t.firstSearch), candidates)
  }

  /** Every request counts as a call; an accepted one also counts as a search. */
  function Ask(t: Tool, page: nat): Tool {
    t.(callsUsed := t.callsUsed + 1, totalCalls := if Accepts(t, page) then t.totalCalls + 1 else t.totalCalls)
  }

  function Invoke(t: Tool, call: Call): (Tool, Reply) {
    var called := t.(calls := t.calls + [call]);
    match call
    case Unsupported => (called, Raised)
    case Malformed => (called, Raised)
    case Request(page, search) =>
      if !Accepts(t, page) then (Ask(called, page), Exhausted)
      else match search
        case Fails => (Ask(called, page), Raised)
        case Finds(candidates) => (Receive(Ask(called, page), candidates), Searched)
  }

  /* ---------- What the calls so far amount to ---------- */

  /** The number of calls that are valid search requests. */
  ghost function Requests(calls: seq<Call>): (n: nat)
    ensures n <= |calls|
  {
    if calls == [] then 0
    else Requests(calls[..|calls| - 1]) + if calls[|calls| - 1].Request? then 1 else 0
  }

  /** Call `i` of a round is sent to the service: it asks for an allowed page, fewer requests than the
      allowed attempts precede it in the round, and fewer than ten searches precede it in the run,
      `before` of them in earlier rounds. */
  ghost predicate IsSent(calls: seq<Call>, i: nat, before: nat, limits: Limits)
    requires i < |calls|
    decreases i, 1
  {
    && calls[i].Request? && calls[i].page <= limits.pages
    && Requests(calls[..i]) < limits.attempts
    && before + Sent(calls, i, before, limits) < 10
  }

  /** The number of the first `n` calls of a round that are sent. */
  ghost function Sent(calls: seq<Call>, n: nat, before: nat, limits: Limits): nat
    requires n <= |calls|
    decreases n, 0
  {
    if n == 0 then 0
    else Sent(calls, n - 1, before, limits) + if IsSent(calls, n - 1, before, limits) then 1 else 0
  }

  /** What the sent searches among the first `n` calls found, search by search. */
  ghost function Results(calls: seq<Call>, n: nat, before: nat, limits: Limits): seq<seq<Candidate>>
    requires n <= |calls|
  {
    if n == 0 then []
    else
      var rest, call := Results(calls, n - 1, before, limits), calls[n - 1];
      if IsSent(calls, n - 1, before, limits) && call.search.Finds? then rest + [call.search.candidates] else rest
  }

  ghost function SentAll(rounds: seq<seq<Call>>, limits: Limits): nat {
    if rounds == [] then 0
    else
      var last := |rounds| - 1;
      var before := SentAll(rounds[..last], limits);
      before + Sent(rounds[last], |rounds[last]|, before, limits)
  }

  ghost function ResultsAll(rounds: seq<seq<Call>>, limits: Limits): seq<seq<Candidate>> {
    if rounds == [] then []
    else
      var last := |rounds| - 1;
      ResultsAll(rounds[..last], limits)
      + Results(rounds[last], |rounds[last]|, SentAll(rounds[..last], limits), limits)
  }

  ghost function Flat(results: seq<seq<Candidate>>): seq<Candidate> {
    if results == [] then [] else Flat(results[..|results| - 1]) + results[|results| - 1]
  }

  /** The store holds, for each id found so far, the candidate last found under it. */
  ghost predicate Holds(store: map<Id, Candidate>, found: seq<Candidate>) {
    && (forall c :: c in found ==> c.id in store)
    && forall id :: id in store ==> LastFound(found, id, store[id])
  }

  ghost predicate LastFound(found: seq<Candidate>, id: Id, c: Candidate) {
    exists i :: 0 <= i < |found| && found[i] == c && c.id == id && forall j :: i < j < |found| ==> found[j].id != id
  }

  /** The list is that of the first search that found any: its first ten candidates' ids, in order. */
  ghost predicate IsFirstSearch(ids: seq<Id>, results: seq<seq<Candidate>>) {
    || (ids == [] && forall k :: 0 <= k < |results| ==> results[k] == [])
    || exists k :: 0 <= k < |results| && IsTop(ids, results[k]) && forall j :: 0 <= j < k ==> results[j] == []
  }

  ghost predicate IsTop(ids: seq<Id>, candidates: seq<Candidate>) {
    && candidates != [] && |ids| == (if |candidates| < 10 then |candidates| else 10)
    && forall i :: 0 <= i < |ids| ==> ids[i] == candidates[i].id
  }

  /** The ids in order of first appearance, without those that appear before the last `results`. */
  ghost predicate IsNew(ids: seq<Id>, earlier: seq<Candidate>, found: seq<Candidate>) {
    Firsts(Ids(found)) == Firsts(Ids(earlier)) + ids
  }

  ghost function Earlier(t: Tool): nat {
    SentAll(t.past, t.limits)
  }

  ghost function Found(t: Tool): seq<seq<Candidate>> {
    ResultsAll(t.past, t.limits) + Results(t.calls, |t.calls|, Earlier(t), t.limits)
  }

  ghost predicate CountsOk(t: Tool) {
    && t.callsUsed == Requests(t.calls)
    && t.totalCalls == Earlier(t) + Sent(t.calls, |t.calls|, Earlier(t), t.limits) <= 10
  }

  ghost predicate FoundOk(t: Tool, results: seq<seq<Candidate>>) {
    && Holds(t.store, Flat(results))
    && IsFirstSearch(t.firstSearch, results)
    && IsNew(t.roundNew, Flat(ResultsAll(t.past, t.limits)), Flat(results))
  }

  /** Every field of the tool follows from the calls so far. */
  ghost predicate ToolOk(t: Tool) {
    CountsOk(t) && FoundOk(t, Found(t))
  }

  lemma FreshOk(limits: Limits)
    ensures ToolOk(Fresh(limits))
  {}

  lemma StartRoundOk(t: Tool)
    requires ToolOk(t)
    ensures ToolOk(StartRound(t)) && Earlier(StartRound(t)) == t.totalCalls
  {
    assert StartRound(t).past[..|t.past|] == t.past;
    assert Found(StartRound(t)) == Found(t);
  }

  /* Adding a call changes nothing about the calls before it. */

  lemma {:induction false} CallsExtend(calls: seq<Call>, more: seq<Call>, n: nat, before: nat, limits: Limits)
    requires n <= |calls|
    ensures Sent(calls + more, n, before, limits) == Sent(calls, n, before, limits)
    ensures Results(calls + more, n, before, limits) == Results(calls, n, before, limits)
    ensures n < |calls| ==> (IsSent(calls + more, n, before, limits) <==> IsSent(calls, n, before, limits))
  {
    assert (calls + more)[..n] == calls[..n];
    if n > 0 {
      CallsExtend(calls, more, n - 1, before, limits);
    }
  }

  /** What one more call adds: a request, perhaps a search, perhaps what it found. */
  lemma OneMoreCall(t: Tool, call: Call)
    ensures var t', i := t.(calls := t.calls + [call]), |t.calls|;
            && (Requests(t'.calls) == Requests(t.calls) + if call.Request? then 1 else 0)
            && (IsSent(t'.calls, i, Earlier(t), t.limits)
                <==> call.Request? && call.page <= t.limits.pages && Requests(t.calls) < t.limits.attempts
                     && Earlier(t) + Sent(t.calls, i, Earlier(t), t.limits) < 10)
            && (Sent(t'.calls, i + 1, Earlier(t), t.limits)
                == Sent(t.calls, i, Earlier(t), t.limits)
                   + if IsSent(t'.calls, i, Earlier(t), t.limits) then 1 else 0)
            && (Found(t') == if IsSent(t'.calls, i, Earlier(t), t.limits) && call.search.Finds?
                             then Found(t) + [call.search.candidates] else Found(t))
  {
    var t', i := t.(calls := t.calls + [call]), |t.calls|;
    assert t'.calls[..i] == t.calls;
    CallsExtend(t.calls, [call], i, Earlier(t), t.limits);
    hide IsSent, Requests;
  }

  lemma IdsAppend(a: seq<Candidate>, b: seq<Candidate>)
    ensures Ids(a + b) == Ids(a) + Ids(b)
  {}

  /** Storing one more candidate. */
  lemma AddOneOk(t: Tool, c: Candidate, earlier: seq<Candidate>, found: seq<Candidate>)
    requires Holds(t.store, found) && IsNew(t.roundNew, earlier, found)
    ensures Holds(AddOne(t, c).store, found + [c]) && IsNew(AddOne(t, c).roundNew, earlier, found + [c])
  {
    var store, all := AddOne(t, c).store, found + [c];
    forall id | id in store
      ensures LastFound(all, id, store[id])
    {
      if id == c.id {
        assert all[|found|] == c;
      } else {
        var i :| 0 <= i < |found| && found[i] == t.store[id] && forall j :: i < j < |found| ==> found[j].id != id;
        assert all[i] == store[id];
      }
    }
    AddOneNew(t, c, earlier, found);
  }

  lemma AddOneNew(t: Tool, c: Candidate, earlier: seq<Candidate>, found: seq<Candidate>)
    requires Holds(t.store, found) && IsNew(t.roundNew, earlier, found)
    ensures IsNew(AddOne(t, c).roundNew, earlier, found + [c])
  {
    IdsAppend(found, [c]);
    FirstsMeaning(Ids(found));
    assert (Ids(found) + [c.id])[..|found|] == Ids(found);
    forall i | 0 <= i < |found|
      ensures Ids(found)[i] in t.store
    {
      assert found[i] in found;
    }
    if c.id in t.store {
      var i :| 0 <= i < |found| && found[i].id == c.id;
      assert Ids(found)[i] == c.id;
    }
  }

  /** Nothing but the stored candidates and the new ids differs. */
  ghost predicate OnlyStoreDiffers(t: Tool, t': Tool) {
    t' == t.(store := t'.store, roundNew := t'.roundNew)
  }

  lemma {:induction false} AddAllOk(t: Tool, candidates: seq<Candidate>, earlier: seq<Candidate>, found: seq<Candidate>)
    requires Holds(t.store, found) && IsNew(t.roundNew, earlier, found)
    ensures var t' := AddAll(t, candidates);
            && Holds(t'.store, found + candidates) && IsNew(t'.roundNew, earlier, found + candidates)
            && OnlyStoreDiffers(t, t')
    decreases |candidates|
  {
    hide Holds, IsNew, Firsts;
    if candidates == [] {
      assert found + candidates == found;
    } else {
      var t1, head, rest := AddOne(t, candidates[0]), [candidates[0]], candidates[1..];
      AddOneOk(t, candidates[0], earlier, found);
      AddAllOk(t1, rest, earlier, found + head);
      Regroup(found, candidates);
    }
  }

  lemma Regroup<T>(front: seq<T>, back: seq<T>)
    requires back != []
    ensures front + [back[0]] + back[1..] == front + back
  {}

  lemma FirstSearchKept(ids: seq<Id>, results: seq<seq<Candidate>>, candidates: seq<Candidate>)
    requires IsFirstSearch(ids, results)
    ensures IsFirstSearch(if ids == [] then TopIds(candidates) else ids, results + [candidates])
  {
    var all := results + [candidates];
    if ids == [] {
      assert all[|results|] == candidates;
    } else {
      var k :| 0 <= k < |results| && IsTop(ids, results[k]) && forall j :: 0 <= j < k ==> results[j] == [];
      assert all[k] == results[k];
    }
  }

  /** Whatever a search finds is added to what was found. */
  lemma ReceiveOk(t: Tool, candidates: seq<Candidate>, results: seq<seq<Candidate>>)
    requires FoundOk(t, results)
    ensures FoundOk(Receive(t, candidates), results + [candidates])
    ensures OnlyStoreDiffers(t, Receive(t, candidates).(firstSearch := t.firstSearch))
  {
    var ready := t.(firstSearch := if t.firstSearch == [] then TopIds(candidates) else t.firstSearch);
    FirstSearchKept(t.firstSearch, results, candidates);
    AddAllOk(ready, candidates, Flat(ResultsAll(t.past, t.limits)), Flat(results));
    assert (results + [candidates])[..|results|] == results;
  }

  /** Call `i` of a round raises: another tool, invalid arguments, or a sent search that fails. */
  ghost predicate Raises(calls: seq<Call>, i: nat, before: nat, limits: Limits)
    requires i < |calls|
  {
    !calls[i].Request? || (IsSent(calls, i, before, limits) && calls[i].search.Fails?)
  }

  /** Every call keeps the tool in step with its calls, whatever is asked and whatever the service
      answers. */
  lemma InvokeOk(t: Tool, call: Call)
    requires ToolOk(t)
    ensures var (t', reply) := Invoke(t, call);
            && ToolOk(t') && t'.calls == t.calls + [call] && t'.past == t.past && t'.limits == t.limits
            && (reply == Searched <==> t'.totalCalls == t.totalCalls + 1 && call.search.Finds?)
            && (reply == Exhausted <==> call.Request? && t'.totalCalls == t.totalCalls)
            && (reply == Raised <==> Raises(t'.calls, |t.calls|, Earlier(t), t.limits))
  {
    OneMoreCall(t, call);
    var called := t.(calls := t.calls + [call]);
    assert Earlier(called) == Earlier(t);
    hide Sent, Results, ResultsAll, SentAll, Requests, IsSent, Holds, IsFirstSearch, IsNew, Flat, AddAll;
    if call.Request? {
      var asked := Ask(called, call.page);
      if Accepts(t, call.page) && call.search.Finds? {
        ReceiveOk(asked, call.search.candidates, Found(t));
      }
    }
  }

  /** In a round that starts with budget left, a search is really sent exactly when one of the
      round's calls asks for a page within the page limit, as one of the first attempts. */
  lemma RoundSearchedIff(t: Tool)
    requires ToolOk(t) && Earlier(t) < 10
    ensures t.totalCalls > Earlier(t) <==>
            exists i :: 0 <= i < |t.calls| && t.calls[i].Request? && t.calls[i].page <= t.limits.pages
                        && Requests(t.calls[..i]) < t.limits.attempts
  {
    SentIff(t.calls, |t.calls|, Earlier(t), t.limits);
  }

  lemma {:induction false} SentIff(calls: seq<Call>, n: nat, before: nat, limits: Limits)
    requires n <= |calls| && before < 10
    ensures Sent(calls, n, before, limits) > 0 <==>
            exists i :: 0 <= i < n && calls[i].Request? && calls[i].page <= limits.pages
                        && Requests(calls[..i]) < limits.attempts
  {
    if n > 0 {
      SentIff(calls, n - 1, before, limits);
    }
  }

  /** So a round can pass the "at least one search" test without sending one. */
  lemma RoundWithoutSearch(t: Tool, search: Search)
    requires ToolOk(t)
    ensures var asked := Invoke(StartRound(t), Request(t.limits.pages + 1, search)).0;
            asked.callsUsed == 1 && asked.totalCalls == t.totalCalls
  {}

  class SearchTool {
    const limits: Limits
    var store: map<Id, Candidate>
    var callsUsed: nat
    var totalCalls: nat
    var roundNew: seq<Id>
    var firstSearch: seq<Id>
    ghost var past: seq<seq<Call>>
    ghost var calls: seq<Call>

    ghost function Value(): Tool
      reads this
    {
      Tool(limits, store, callsUsed, totalCalls, roundNew, firstSearch, past, calls)
    }

    constructor (limits: Limits)
      ensures Value() == Fresh(limits)
    {
      this.limits := limits;
      store, callsUsed, totalCalls, roundNew, firstSearch := map[], 0, 0, [], [];
      past, calls := [], [];
    }

    method Start()
      modifies this
      ensures Value() == StartRound(old(Value()))
    {
      past, calls := past + [calls], [];
      callsUsed, roundNew := 0, [];
    }

    method InvokeAsync(call: Call) returns (reply: Reply)
      modifies this
      ensures (Value(), reply) == Invoke(old(Value()), call)
    {
      hide AddAll, TopIds;
      calls := calls + [call];
      if !call.Request? {
        return Raised;
      }
      callsUsed := callsUsed + 1;
      var nextTotal := totalCalls + 1;
      if nextTotal > MAX_ROUNDS || callsUsed > limits.attempts || call.page > limits.pages {
        return Exhausted;
      }
      totalCalls := nextTotal;
      if call.search.Fails? {
        return Raised;
      }
      var candidates := call.search.candidates;
      if firstSearch == [] {
        firstSearch := TopIds(candidates);
      }
      File(candidates);
      return Searched;
    }

    method File(candidates: seq<Candidate>)
      modifies this
      ensures Value() == AddAll(old(Value()), candidates)
    {
      for i := 0 to |candidates|
        invariant AddAll(Value(), candidates[i..]) == AddAll(old(Value()), candidates)
      {
        assert candidates[i..][1..] == candidates[i + 1..];
        var candidate := candidates[i];
        ghost var before := Value();
        if candidate.id !in store {
          roundNew := roundNew + [candidate.id];
        }
        store := store[candidate.id := candidate];
        assert Value() == AddOne(before, candidate);
      }
      assert candidates[|candidates|..] == [];
    }
  }

  /* ---------- One round ---------- */

  datatype Snapshot = Snapshot(stop: bool, reason: string, ids: seq<Id>)

  /** The text of a response: none, not a valid snapshot, or a snapshot. */
  datatype Text = Blank | Invalid | Parsed(snapshot: Snapshot)

  datatype Response = Response(calls: seq<Call>, text: Text)

  /** The responses in the order in which the run receives them: any responder answers some such. */
  type Responses = nat -> Response

  datatype RoundError = ToolError | NoSearch | NoText | InvalidJson | StepLimit

  datatype RoundEnd = Ended(snapshot: Snapshot) | Broke(error: RoundError)

  predicate ValidSnapshot(s: Snapshot) {
    1 <= |s.ids| <= TOP_K
  }

  ghost predicate NoneRaises(calls: seq<Call>, n: nat, before: nat, limits: Limits)
    requires n <= |calls|
  {
    forall i :: 0 <= i < n ==> !Raises(calls, i, before, limits)
  }

  lemma NoneRaisesExtends(calls: seq<Call>, more: seq<Call>, before: nat, limits: Limits)
    requires NoneRaises(calls, |calls|, before, limits)
    ensures NoneRaises(calls + more, |calls|, before, limits)
  {
    forall i | 0 <= i < |calls|
      ensures !Raises(calls + more, i, before, limits)
    {
      CallsExtend(calls, more, i, before, limits);
      assert !Raises(calls, i, before, limits);
      assert (calls + more)[i] == calls[i];
    }
  }

  lemma OneMoreMade(t: Tool, call: Call)
    requires ToolOk(t) && NoneRaises(t.calls, |t.calls|, Earlier(t), t.limits)
    ensures var (t', reply) := Invoke(t, call);
            && ToolOk(t') && t'.calls == t.calls + [call] && t'.past == t.past && t'.limits == t.limits
            && Earlier(t') == Earlier(t)
            && NoneRaises(t'.calls, |t.calls|, Earlier(t), t.limits)
            && (reply == Raised ==> Raises(t'.calls, |t.calls|, Earlier(t), t.limits))
            && (reply != Raised ==> NoneRaises(t'.calls, |t'.calls|, Earlier(t), t.limits))
  {
    InvokeOk(t, call);
    NoneRaisesExtends(t.calls, [call], Earlier(t), t.limits);
    hide ToolOk, Invoke, Raises, SentAll;
  }

  /** A response's calls are made one by one until one raises. */
  method CallTools(tool: SearchTool, calls: seq<Call>) returns (ok: bool, ghost made: nat)
    requires ToolOk(tool.Value()) && NoneRaises(tool.calls, |tool.calls|, Earlier(tool.Value()), tool.limits)
    modifies tool
    ensures ToolOk(tool.Value()) && tool.past == old(tool.past)
    ensures made <= |calls| && tool.calls == old(tool.calls) + calls[..made]
    ensures ok ==> made == |calls| && NoneRaises(tool.calls, |tool.calls|, Earlier(tool.Value()), tool.limits)
    ensures !ok ==> made > 0 && NoneRaises(tool.calls, |tool.calls| - 1, Earlier(tool.Value()), tool.limits)
    ensures !ok ==> Raises(tool.calls, |tool.calls| - 1, Earlier(tool.Value()), tool.limits)
  {
    hide ToolOk, Invoke, Raises, NoneRaises, SentAll;
    made := 0;
    for i := 0 to |calls|
      invariant ToolOk(tool.Value()) && tool.past == old(tool.past)
      invariant made == i && tool.calls == old(tool.calls) + calls[..i]
      invariant NoneRaises(tool.calls, |tool.calls|, Earlier(tool.Value()), tool.limits)
    {
      OneMoreMade(tool.Value(), calls[i]);
      var reply := tool.InvokeAsync(calls[i]);
      made := i + 1;
      assert calls[..made] == calls[..i] + [calls[i]];
      if reply == Raised {
        return false, made;
      }
    }
    return true, made;
  }

  /** A response without calls whose text is no valid snapshot. */
  ghost predicate Unusable(r: Response) {
    r.calls == [] && (r.text.Invalid? || (r.text.Parsed? && (r.text.snapshot.ids == [] || |r.text.snapshot.ids| > 10)))
  }

  ghost function AllCalls(responses: Responses, from: nat, upto: nat): seq<Call>
    requires from <= upto
  {
    if from == upto then [] else AllCalls(responses, from, upto - 1) + responses(upto - 1).calls
  }

  /** The responses from `from` on, up to `upto`, leave the round open: each has calls, none of which
      raises, except that one of them may be an unusable text after some request. */
  ghost predicate LeftOpen(responses: Responses, from: nat, upto: nat, before: nat, limits: Limits)
    requires from <= upto
  {
    var calls := AllCalls(responses, from, upto);
    && NoneRaises(calls, |calls|, before, limits)
    && (forall k :: from <= k < upto && responses(k).calls == []
         ==> Unusable(responses(k)) && Requests(AllCalls(responses, from, k)) > 0)
    && forall j, k :: from <= j < k < upto && Unusable(responses(j)) ==> !Unusable(responses(k))
  }

  /** One of the responses was an unusable text. */
  ghost predicate Repaired(responses: Responses, from: nat, upto: nat) {
    exists k :: from <= k < upto && Unusable(responses(k))
  }

  /** A round whose responses are those from `from` up to `upto` ends this way. */
  ghost predicate RoundRan(responses: Responses, from: nat, upto: nat, t: Tool, end: RoundEnd) {
    && from <= upto <= from + t.limits.attempts + 3
    && if end == Broke(StepLimit) then
         && upto == from + t.limits.attempts + 3
         && LeftOpen(responses, from, upto, Earlier(t), t.limits) && t.calls == AllCalls(responses, from, upto)
       else
         && from < upto && LeftOpen(responses, from, upto - 1, Earlier(t), t.limits)
         && LastResponse(AllCalls(responses, from, upto - 1), responses(upto - 1), t, end)
         && (end == Broke(InvalidJson) <==>
              Unusable(responses(upto - 1)) && Repaired(responses, from, upto - 1))
  }

  /** The response that ends a round, after the calls of the ones before it. */
  ghost predicate LastResponse(before: seq<Call>, r: Response, t: Tool, end: RoundEnd) {
    if r.calls != [] then
      && end == Broke(ToolError)
      && exists made :: 0 < made <= |r.calls| && t.calls == before + r.calls[..made]
                     && Raises(t.calls, |t.calls| - 1, Earlier(t), t.limits)
                     && NoneRaises(t.calls, |t.calls| - 1, Earlier(t), t.limits)
    else
      && t.calls == before
      && (end == Broke(NoSearch) <==> Requests(before) == 0)
      && (end == Broke(NoText) <==> Requests(before) > 0 && r.text.Blank?)
      && (end.Ended? ==> Requests(before) > 0 && r.text == Parsed(end.snapshot) && 1 <= |end.snapshot.ids| <= 10)
      && end != Broke(ToolError)
  }

  lemma LeftOpenMore(responses: Responses, from: nat, upto: nat, before: nat, limits: Limits)
    requires from <= upto && LeftOpen(responses, from, upto, before, limits)
    requires responses(upto).calls != [] ==>
               var calls := AllCalls(responses, from, upto) + responses(upto).calls;
               NoneRaises(calls, |calls|, before, limits)
    requires responses(upto).calls == [] ==>
               && Unusable(responses(upto)) && Requests(AllCalls(responses, from, upto)) > 0
               && !Repaired(responses, from, upto)
    ensures LeftOpen(responses, from, upto + 1, before, limits)
    ensures AllCalls(responses, from, upto + 1) == AllCalls(responses, from, upto) + responses(upto).calls
  {
    hide Raises, Requests;
    assert AllCalls(responses, from, upto + 1) == AllCalls(responses, from, upto) + responses(upto).calls;
    assert AllCalls(responses, from, upto) + [] == AllCalls(responses, from, upto);
  }

  lemma RepairedMore(responses: Responses, from: nat, upto: nat)
    requires from <= upto
    ensures Repaired(responses, from, upto + 1) <==> Repaired(responses, from, upto) || Unusable(responses(upto))
  {}

  lemma EndsByCall(responses: Responses, from: nat, upto: nat, t: Tool, made: nat)
    requires from <= upto < from + t.limits.attempts + 3 && LeftOpen(responses, from, upto, Earlier(t), t.limits)
    requires 0 < made <= |responses(upto).calls|
    requires t.calls == AllCalls(responses, from, upto) + responses(upto).calls[..made]
    requires NoneRaises(t.calls, |t.calls| - 1, Earlier(t), t.limits)
    requires Raises(t.calls, |t.calls| - 1, Earlier(t), t.limits)
    ensures RoundRan(responses, from, upto + 1, t, Broke(ToolError))
  {
    hide LeftOpen, AllCalls, NoneRaises, Raises, SentAll;
  }

  lemma EndsByText(responses: Responses, from: nat, upto: nat, t: Tool, end: RoundEnd)
    requires from <= upto < from + t.limits.attempts + 3 && LeftOpen(responses, from, upto, Earlier(t), t.limits)
    requires responses(upto).calls == [] && t.calls == AllCalls(responses, from, upto)
    requires end == if Requests(t.calls) == 0 then Broke(NoSearch)
                    else if responses(upto).text.Blank? then Broke(NoText)
                    else if Unusable(responses(upto)) then Broke(InvalidJson) else Ended(responses(upto).text.snapshot)
    requires end == Broke(InvalidJson) ==> Repaired(responses, from, upto)
    requires end == Broke(NoSearch) ==> !Repaired(responses, from, upto)
    ensures RoundRan(responses, from, upto + 1, t, end)
  {
    hide LeftOpen, AllCalls, Requests, SentAll;
  }

  lemma RepairedAfterRequest(responses: Responses, from: nat, upto: nat, before: nat, limits: Limits)
    requires from <= upto && LeftOpen(responses, from, upto, before, limits)
    requires Repaired(responses, from, upto)
    ensures Requests(AllCalls(responses, from, upto)) > 0
  {
    var k :| from <= k < upto && Unusable(responses(k));
    RequestsGrow(responses, from, k, upto);
  }

  lemma {:induction false} RequestsGrow(responses: Responses, from: nat, k: nat, upto: nat)
    requires from <= k <= upto
    ensures Requests(AllCalls(responses, from, k)) <= Requests(AllCalls(responses, from, upto))
    decreases upto - k
  {
    if k < upto {
      RequestsAppend(AllCalls(responses, from, k), responses(k).calls);
      RequestsGrow(responses, from, k + 1, upto);
    }
  }

  lemma {:induction false} RequestsAppend(calls: seq<Call>, more: seq<Call>)
    ensures Requests(calls + more) == Requests(calls) + Requests(more)
    decreases |more|
  {
    if more == [] {
      assert calls + more == calls;
    } else {
      assert (calls + more)[..|calls + more| - 1] == calls + more[..|more| - 1];
      RequestsAppend(calls, more[..|more| - 1]);
    }
  }

  /** The step loop: it asks for responses until one ends the round, and at most for three more than
      the attempts allowed. */
  method RunRound(tool: SearchTool, responses: Responses, from: nat) returns (end: RoundEnd, upto: nat)
    requires ToolOk(tool.Value()) && tool.calls == []
    modifies tool
    ensures ToolOk(tool.Value()) && tool.past == old(tool.past)
    ensures RoundRan(responses, from, upto, tool.Value(), end)
  {
    hide SentAll, Requests, Raises, FoundOk;
    var repairAttempted := false;
    upto := from;
    assert AllCalls(responses, from, upto) == [];
    for step := 0 to tool.limits.attempts + 3
      invariant ToolOk(tool.Value()) && tool.past == old(tool.past)
      invariant upto == from + step && tool.calls == AllCalls(responses, from, upto)
      invariant LeftOpen(responses, from, upto, Earlier(tool.Value()), tool.limits)
      invariant repairAttempted <==> Repaired(responses, from, upto)
    {
      var response := responses(upto);
      assert NoneRaises(tool.calls, |tool.calls|, Earlier(tool.Value()), tool.limits);
      assert tool.callsUsed == Requests(tool.calls);
      RepairedMore(responses, from, upto);
      if repairAttempted {
        RepairedAfterRequest(responses, from, upto, Earlier(tool.Value()), tool.limits);
      }
      ghost var past := upto;
      upto := upto + 1;
      hide ToolOk, NoneRaises, LeftOpen, AllCalls, RoundRan, Repaired;
      if response.calls != [] {
        var ok;
        ghost var made;
        ok, made := CallTools(tool, response.calls);
        if !ok {
          EndsByCall(responses, from, past, tool.Value(), made);
          return Broke(ToolError), upto;
        }
        assert response.calls[..made] == response.calls;
        LeftOpenMore(responses, from, past, Earlier(tool.Value()), tool.limits);
        continue;
      }
      if tool.callsUsed == 0 {
        EndsByText(responses, from, past, tool.Value(), Broke(NoSearch));
        return Broke(NoSearch), upto;
      }
      match response.text {
        case Blank =>
          EndsByText(responses, from, past, tool.Value(), Broke(NoText));
          return Broke(NoText), upto;
        case Parsed(snapshot) =>
          if ValidSnapshot(snapshot) {
            EndsByText(responses, from, past, tool.Value(), Ended(snapshot));
            return Ended(snapshot), upto;
          }
        case Invalid =>
      }
      if repairAttempted {
        EndsByText(responses, from, past, tool.Value(), Broke(InvalidJson));
        return Broke(InvalidJson), upto;
      }
      repairAttempted := true;
      LeftOpenMore(responses, from, past, Earlier(tool.Value()), tool.limits);
    }
    return Broke(StepLimit), upto;
  }

  /* ---------- The whole run ---------- */

  datatype StopReason = MaxRoundsReached | NoProgress | StoppedByAgent(reason: string)

  datatype RunError = RoundFailed(error: RoundError) | NoKnownIds | FirstRoundRanking | NoFirstRound | FinalRanking

  datatype Run =
    | Failed(error: RunError)
    | Done(stop: StopReason, roundsExecuted: nat, first: seq<Candidate>, final: seq<Candidate>)

  /** Once the store holds anything, the first search ranks, and to its own ids. */
  lemma FirstSearchRanks(t: Tool)
    requires ToolOk(t) && t.store != map[]
    ensures t.firstSearch != [] && forall id :: id in t.firstSearch ==> id in t.store
    ensures Known(t.firstSearch, t.store) == Firsts(t.firstSearch)
    ensures |Firsts(t.firstSearch)| <= 10 && Take(Firsts(t.firstSearch), 10) == Firsts(t.firstSearch)
  {
    var results := Found(t);
    var id :| id in t.store;
    assert LastFound(Flat(results), id, t.store[id]);
    if forall k :: 0 <= k < |results| ==> results[k] == [] {
      FlatEmpty(results);
      assert false;
    }
    var k :| 0 <= k < |results| && IsTop(t.firstSearch, results[k]);
    forall i | 0 <= i < |t.firstSearch|
      ensures t.firstSearch[i] in t.store
    {
      assert results[k][i] in results[k];
      FlatHas(results, k, results[k][i]);
    }
    hide ToolOk, IsTop;
    FirstsKnown(t.firstSearch, t.store);
    FirstsShorter(t.firstSearch);
  }

  lemma {:induction false} FirstsShorter(ids: seq<Id>)
    ensures |Firsts(ids)| <= |ids|
  {
    if ids != [] {
      FirstsShorter(ids[..|ids| - 1]);
    }
  }

  lemma {:induction false} FlatEmpty(results: seq<seq<Candidate>>)
    requires forall k :: 0 <= k < |results| ==> results[k] == []
    ensures Flat(results) == []
  {
    if results != [] {
      FlatEmpty(results[..|results| - 1]);
    }
  }

  lemma {:induction false} FlatHas(results: seq<seq<Candidate>>, k: nat, c: Candidate)
    requires k < |results| && c in results[k]
    ensures c in Flat(results)
    decreases |results|
  {
    if k < |results| - 1 {
      FlatHas(results[..|results| - 1], k, c);
    }
  }

  /** A shortlist taken from the store ranks to itself. */
  lemma ShortlistStable(ids: seq<Id>, store: map<Id, Candidate>)
    ensures var shortlist := Take(Known(ids, store), TOP_K);
            && Distinct(shortlist) && |shortlist| <= 10
            && (forall id :: id in shortlist ==> id in store && id in ids)
            && Take(Known(shortlist, store), TOP_K) == shortlist
  {
    var shortlist := Take(Known(ids, store), TOP_K);
    KnownMeaning(ids, store);
    assert forall id :: id in shortlist ==> id in Known(ids, store);
    KnownStable(shortlist, store);
  }

  /** A finished round: the tool at its end, its snapshot, its shortlist, and where its responses end. */
  datatype Round = Round(tool: Tool, snapshot: Snapshot, shortlist: seq<Id>, upto: nat)

  ghost predicate RoundDone(responses: Responses, from: nat, past: seq<seq<Call>>, limits: Limits, r: Round) {
    && ToolOk(r.tool) && r.tool.past == past && r.tool.limits == limits
    && RoundRan(responses, from, r.upto, r.tool, Ended(r.snapshot))
    && r.shortlist == Take(Known(r.snapshot.ids, r.tool.store), 10) && r.shortlist != []
  }

  /** The ranking of the first search, as the candidates then stood in the store. */
  ghost predicate FirstRanking(first: seq<Candidate>, t: Tool) {
    && first != [] && Ids(first) == Firsts(t.firstSearch)
    && IsFirstSearch(t.firstSearch, Found(t))
    && forall c :: c in first ==> c.id in t.store && t.store[c.id] == c
  }

  /** A round that fails: in its own steps, or because its snapshot lists no stored id. */
  ghost predicate RoundFails(responses: Responses, from: nat, t: Tool, error: RunError) {
    && ToolOk(t)
    && exists upto: nat, end ::
        && RoundRan(responses, from, upto, t, end)
        && match end
           case Broke(e) => error == RoundFailed(e)
           case Ended(snapshot) => error == NoKnownIds && forall id :: id in snapshot.ids ==> id !in t.store
  }

  lemma StoreFiled(t: Tool)
    requires ToolOk(t)
    ensures Filed(t.store)
  {
    forall id | id in t.store
      ensures t.store[id].id == id
    {
      assert LastFound(Flat(Found(t)), id, t.store[id]);
    }
  }

  /** The shortlist of a finished round ranks to itself. */
  lemma ShortlistRanks(responses: Responses, from: nat, past: seq<seq<Call>>, limits: Limits, r: Round)
    requires RoundDone(responses, from, past, limits, r)
    ensures Filed(r.tool.store) && Take(Known(r.shortlist, r.tool.store), 10) == r.shortlist
    ensures r.shortlist != [] && r.shortlist[0] in r.tool.store
  {
    hide Known, Take, RoundRan;
    StoreFiled(r.tool);
    ShortlistStable(r.snapshot.ids, r.tool.store);
  }

  /** One turn of the round loop, up to the stop checks. */
  method PlayRound(tool: SearchTool, responses: Responses, from: nat, first: Option<seq<Candidate>>)
      returns (error: Option<RunError>, snapshot: Snapshot, shortlist: seq<Id>, first': Option<seq<Candidate>>,
               upto: nat)
    requires ToolOk(tool.Value())
    modifies tool
    ensures ToolOk(tool.Value()) && tool.past == old(tool.past) + [old(tool.calls)]
    ensures Earlier(tool.Value()) == old(tool.totalCalls) && tool.totalCalls <= 10
    ensures error.Some? ==> RoundFails(responses, from, tool.Value(), error.value)
    ensures error.None? ==>
              && RoundDone(responses, from, tool.past, tool.limits, Round(tool.Value(), snapshot, shortlist, upto))
              && (first.Some? ==> first' == first)
              && (first.None? ==>
                   && first'.Some? && FirstRanking(first'.value, tool.Value())
                   && Ids(first'.value) == Take(Known(tool.firstSearch, tool.store), 10))
  {
    hide Known, Take, Distinct, IsFirstSearch, Firsts, RoundRan, Holds, IsNew, Sent, SentAll, Results, ResultsAll;
    snapshot, shortlist, first', error := Snapshot(false, "", []), [], first, None;
    StartRoundOk(tool.Value());
    tool.Start();
    var end;
    end, upto := RunRound(tool, responses, from);
    if end.Broke? {
      return Some(RoundFailed(end.error)), snapshot, shortlist, first', upto;
    }
    snapshot := end.snapshot;
    StoreFiled(tool.Value());
    var ranked := RankedCandidates(snapshot.ids, tool.store, TOP_K);
    if ranked.None? {
      return Some(NoKnownIds), snapshot, shortlist, first', upto;
    }
    assert ranked.value[0].id in tool.store;
    FirstSearchRanks(tool.Value());
    assert tool.firstSearch[0] in tool.store;
    shortlist := IdsOf(ranked.value);
    if first'.None? {
      first' := RankedCandidates(tool.firstSearch, tool.store, TOP_K);
      if first'.None? {
        error := Some(FirstRoundRanking);
      }
    }
  }

  ghost function From(rounds: seq<Round>, i: nat): nat
    requires i <= |rounds|
  {
    if i == 0 then 0 else rounds[i - 1].upto
  }

  /** The calls before a round: none before the first one, then those of the rounds so far. */
  ghost function PastOf(rounds: seq<Round>, i: nat): seq<seq<Call>>
    requires i <= |rounds|
  {
    if i == 0 then [[]] else rounds[i - 1].tool.past + [rounds[i - 1].tool.calls]
  }

  ghost predicate AllDone(responses: Responses, rounds: seq<Round>, limits: Limits) {
    forall i :: 0 <= i < |rounds| ==> RoundDone(responses, From(rounds, i), PastOf(rounds, i), limits, rounds[i])
  }

  /** Another round follows: the agent goes on, both budgets last, and the round found new ids or
      changed the shortlist. */
  ghost predicate GoesOn(rounds: seq<Round>, i: nat)
    requires i < |rounds|
  {
    && !rounds[i].snapshot.stop
    && rounds[i].tool.totalCalls < 10 && i + 1 < 10
    && (rounds[i].tool.roundNew != [] || rounds[i].shortlist != if i == 0 then [] else rounds[i - 1].shortlist)
  }

  /** Why the last round is the last. */
  ghost predicate StopsFor(rounds: seq<Round>, stop: StopReason)
    requires rounds != []
  {
    var last := rounds[|rounds| - 1];
    && !GoesOn(rounds, |rounds| - 1)
    && (last.snapshot.stop ==>
         stop == StoppedByAgent(if last.snapshot.reason == "" then "openclaw_stop" else last.snapshot.reason))
    && (!last.snapshot.stop ==>
         stop == if last.tool.totalCalls == 10 || |rounds| == 10 then MaxRoundsReached else NoProgress)
  }

  /** What the checks at the end of a round decide. */
  lemma Decides(rounds: seq<Round>, stop: Option<StopReason>)
    requires rounds != [] && |rounds| <= 10 && rounds[|rounds| - 1].tool.totalCalls <= 10
    requires var last := rounds[|rounds| - 1];
             var previous := if |rounds| == 1 then [] else rounds[|rounds| - 2].shortlist;
             stop == if last.snapshot.stop then
                       Some(StoppedByAgent(
                         if last.snapshot.reason != "" then last.snapshot.reason else "openclaw_stop"))
                     else if last.tool.totalCalls >= 10 || |rounds| == 10 then Some(MaxRoundsReached)
                     else if last.tool.roundNew == [] && last.shortlist == previous then Some(NoProgress) else None
    ensures if stop.None? then GoesOn(rounds, |rounds| - 1) else StopsFor(rounds, stop.value)
  {}

  lemma SameBegin(rounds: seq<Round>, r: Round, i: nat)
    requires i <= |rounds|
    ensures From(rounds + [r], i) == From(rounds, i) && PastOf(rounds + [r], i) == PastOf(rounds, i)
    ensures i < |rounds| && GoesOn(rounds, i) ==> GoesOn(rounds + [r], i)
  {}

  lemma AddRound(responses: Responses, rounds: seq<Round>, limits: Limits, r: Round)
    requires AllDone(responses, rounds, limits)
    requires RoundDone(responses, From(rounds, |rounds|), PastOf(rounds, |rounds|), limits, r)
    requires forall i :: 0 <= i < |rounds| ==> GoesOn(rounds, i)
    ensures AllDone(responses, rounds + [r], limits)
    ensures forall i :: 0 <= i < |rounds| ==> GoesOn(rounds + [r], i)
  {
    hide RoundDone, From, PastOf, GoesOn;
    var more := rounds + [r];
    forall i | 0 <= i < |rounds|
      ensures GoesOn(more, i)
    {
      SameBegin(rounds, r, i);
    }
    forall i | 0 <= i < |more|
      ensures RoundDone(responses, From(more, i), PastOf(more, i), limits, more[i])
    {
      SameBegin(rounds, r, i);
    }
  }

  lemma NoRounds(responses: Responses, limits: Limits)
    ensures AllDone(responses, [], limits)
  {}

  lemma LastDone(responses: Responses, rounds: seq<Round>, limits: Limits)
    requires rounds != [] && AllDone(responses, rounds, limits)
    ensures var r := rounds[|rounds| - 1];
            && Filed(r.tool.store) && Take(Known(r.shortlist, r.tool.store), 10) == r.shortlist
            && r.shortlist != [] && r.shortlist[0] in r.tool.store
  {
    var n := |rounds| - 1;
    hide RoundDone, Known, Take;
    ShortlistRanks(responses, From(rounds, n), PastOf(rounds, n), limits, rounds[n]);
  }

  /** The round loop. `rounds` are the finished rounds. */
  method RunBaseline(tool: SearchTool, responses: Responses) returns (run: Run, ghost rounds: seq<Round>)
    requires tool.Value() == Fresh(tool.limits)
    modifies tool
    ensures ToolOk(tool.Value()) && AllDone(responses, rounds, tool.limits) && |rounds| <= 10
    ensures forall i :: 0 <= i < |rounds| - 1 ==> GoesOn(rounds, i)
    ensures run.Failed? ==>
              && (rounds != [] ==> GoesOn(rounds, |rounds| - 1))
              && tool.past == PastOf(rounds, |rounds|)
              && RoundFails(responses, From(rounds, |rounds|), tool.Value(), run.error)
    ensures run.Done? ==>
              && rounds != [] && StopsFor(rounds, run.stop) && tool.Value() == rounds[|rounds| - 1].tool
              && run.roundsExecuted == tool.totalCalls <= 10
              && FirstRanking(run.first, rounds[0].tool)
              && Ids(run.final) == rounds[|rounds| - 1].shortlist
              && forall c :: c in run.final ==> c.id in tool.store && tool.store[c.id] == c
  {
    hide ToolOk, RoundDone, AllDone, FirstRanking, RoundFails, GoesOn, StopsFor, SentAll, Known, Take;
    FreshOk(tool.limits);
    NoRounds(responses, tool.limits);
    var first: Option<seq<Candidate>> := None;
    var stop: Option<StopReason> := None;
    var roundsExecuted: nat := 0;
    var shortlist: seq<Id> := [];
    rounds := [];
    var used: nat := 0;
    var round := 1;
    while stop.None?
      invariant ToolOk(tool.Value()) && AllDone(responses, rounds, tool.limits)
      invariant 1 <= round == |rounds| + 1 <= 11 && used == From(rounds, |rounds|)
      invariant tool.past + [tool.calls] == PastOf(rounds, |rounds|)
      invariant forall i :: 0 <= i < |rounds| - 1 ==> GoesOn(rounds, i)
      invariant tool.totalCalls <= 10 && (stop.None? ==> round <= 10)
      invariant rounds == [] ==> stop.None? && first.None? && shortlist == []
      invariant rounds != [] ==>
                  && tool.Value() == rounds[|rounds| - 1].tool && shortlist == rounds[|rounds| - 1].shortlist
                  && first.Some? && FirstRanking(first.value, rounds[0].tool) && roundsExecuted == tool.totalCalls
                  && if stop.None? then GoesOn(rounds, |rounds| - 1) else StopsFor(rounds, stop.value)
      decreases 11 - round, stop.None?
    {
      var previous := shortlist;
      var error, snapshot;
      error, snapshot, shortlist, first, used := PlayRound(tool, responses, used, first);
      if error.Some? {
        return Failed(error.value), rounds;
      }
      roundsExecuted := tool.totalCalls;
      ghost var done := Round(tool.Value(), snapshot, shortlist, used);
      AddRound(responses, rounds, tool.limits, done);
      rounds := rounds + [done];
      if snapshot.stop {
        stop := Some(StoppedByAgent(if snapshot.reason != "" then snapshot.reason else "openclaw_stop"));
      } else if tool.totalCalls >= MAX_ROUNDS || round == MAX_ROUNDS {
        stop := Some(MaxRoundsReached);
      } else if tool.roundNew == [] && shortlist == previous {
        stop := Some(NoProgress);
      }
      Decides(rounds, stop);
      round := round + 1;
    }
    if first.None? {
      return Failed(NoFirstRound), rounds;
    }
    LastDone(responses, rounds, tool.limits);
    var final := RankedCandidates(shortlist, tool.store, TOP_K);
    if final.None? {
      return Failed(FinalRanking), rounds;
    }
    run := Done(stop.value, roundsExecuted, first.value, final.value);
  }

  function IdsOf(candidates: seq<Candidate>): (r: seq<Id>)
    ensures r == Ids(candidates)
  {
    seq(|candidates|, i requires 0 <= i < |candidates| => candidates[i].id)
  }
}
