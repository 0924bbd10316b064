/** The resumable event stream: a generator polls a growing log and sends each event as two frames,
    and a client that loses the connection resumes from the last frame id it saw. */
module EventStream {
  import opened Options

  const PAGE: nat := 100
  const PRIMARY := "workbench_event"

  /** `mine`: the event belongs to the user (and session) the stream is for. */
  datatype Event = Event(seqNo: nat, mine: bool, name: string)

  datatype Frame = Frame(id: nat, name: string)

  /* ---------- The log ---------- */

  /** Events are appended with increasing sequence numbers. */
  ghost predicate IsLog(log: seq<Event>) {
    forall i, j :: 0 <= i < j < |log| ==> log[i].seqNo < log[j].seqNo
  }

  /** The stream's events after a sequence number, in order. */
  function Since(log: seq<Event>, after: nat): seq<Event> {
    if log == [] then []
    else
      var n := |log| - 1;
      Since(log[..n], after) + if log[n].mine && log[n].seqNo > after then [log[n]] else []
  }

  /** The store's answer to a poll. */
  function ListEvents(log: seq<Event>, after: nat, limit: nat): (r: seq<Event>)
    ensures r <= Since(log, after)
    ensures |r| == if |Since(log, after)| <= limit then |Since(log, after)| else limit
  {
    var all := Since(log, after);
    if |all| <= limit then all else all[..limit]
  }

  lemma {:induction false} SinceMembers(log: seq<Event>, after: nat)
    ensures forall e :: e in Since(log, after) ==> e in log && e.mine && e.seqNo > after
    ensures forall e :: e in log && e.mine && e.seqNo > after ==> e in Since(log, after)
  {
    if log != [] {
      var n := |log| - 1;
      SinceMembers(log[..n], after);
      assert log == log[..n] + [log[n]];
    }
  }

  /** The events come in the order of their numbers, each once. */
  lemma {:induction false} SinceIncreases(log: seq<Event>, after: nat)
    requires IsLog(log)
    ensures IsLog(Since(log, after))
  {
    if log != [] {
      var n := |log| - 1;
      SinceIncreases(log[..n], after);
      SinceMembers(log[..n], after);
    }
  }

  lemma {:induction false} SinceGrows(log: seq<Event>, more: seq<Event>, after: nat)
    requires log <= more
    ensures Since(log, after) <= Since(more, after)
    decreases |more|
  {
    if |log| < |more| {
      var n := |more| - 1;
      SinceGrows(log, more[..n], after);
    } else {
      assert log == more;
    }
  }

  /** The sequence number that `m` delivered events leave behind. */
  function Position(events: seq<Event>, m: nat, after: nat): nat
    requires m <= |events|
  {
    if m == 0 then after else events[m - 1].seqNo
  }

  lemma LogPrefix(log: seq<Event>)
    requires IsLog(log) && log != []
    ensures IsLog(log[..|log| - 1])
    ensures forall e :: e in log[..|log| - 1] ==> e.seqNo < log[|log| - 1].seqNo
  {}

  lemma {:induction false} SinceAllBelow(log: seq<Event>, after: nat)
    requires forall e :: e in log ==> e.seqNo <= after
    ensures Since(log, after) == []
  {
    if log != [] {
      var n := |log| - 1;
      assert log[n] in log && forall e :: e in log[..n] ==> e in log;
      SinceAllBelow(log[..n], after);
    }
  }

  ghost function LastSince(log: seq<Event>, after: nat): seq<Event>
    requires log != []
  {
    var last := log[|log| - 1];
    if last.mine && last.seqNo > after then [last] else []
  }

  lemma SinceStep(log: seq<Event>, after: nat)
    requires log != []
    ensures Since(log, after) == Since(log[..|log| - 1], after) + LastSince(log, after)
  {}

  lemma DropOfConcat<T>(s: seq<T>, t: seq<T>, m: nat)
    requires m <= |s|
    ensures (s + t)[m..] == s[m..] + t
  {}

  /** The events before position `m` come from the log without its last event. */
  lemma FromEarlier(log: seq<Event>, after: nat, m: nat)
    requires IsLog(log) && log != [] && 0 < m <= |Since(log[..|log| - 1], after)|
    requires var before := Since(log[..|log| - 1], after);
             Since(log[..|log| - 1], Position(before, m, after)) == before[m..]
    ensures m <= |Since(log, after)|
    ensures Since(log, Position(Since(log, after), m, after)) == Since(log, after)[m..]
  {
    var n := |log| - 1;
    var before := Since(log[..n], after);
    var from := Position(before, m, after);
    SinceMembers(log[..n], after);
    LogPrefix(log);
    assert before[m - 1] in before;
    assert after < from < log[n].seqNo;
    hide Since, IsLog;
    SinceStep(log, after);
    SinceStep(log, from);
    DropOfConcat(before, LastSince(log, after), m);
  }

  lemma FromLast(log: seq<Event>, after: nat, m: nat)
    requires IsLog(log) && log != [] && |Since(log[..|log| - 1], after)| < m <= |Since(log, after)|
    ensures Since(log, Position(Since(log, after), m, after)) == Since(log, after)[m..]
  {
    var n := |log| - 1;
    LogPrefix(log);
    hide IsLog;
    SinceStep(log, after);
    SinceStep(log, log[n].seqNo);
    SinceAllBelow(log[..n], log[n].seqNo);
    hide Since;
    assert Position(Since(log, after), m, after) == log[n].seqNo;
  }

  /** Asking again from the position of the m-th event gives exactly the events after it. */
  lemma {:induction false} SinceFromPosition(log: seq<Event>, after: nat, m: nat)
    requires IsLog(log) && m <= |Since(log, after)|
    ensures Since(log, Position(Since(log, after), m, after)) == Since(log, after)[m..]
  {
    if m > 0 {
      LogPrefix(log);
      hide IsLog, Position;
      if m <= |Since(log[..|log| - 1], after)| {
        SinceFromPosition(log[..|log| - 1], after, m);
        FromEarlier(log, after, m);
      } else {
        FromLast(log, after, m);
      }
    }
  }

  /* ---------- Frames ---------- */

  /** Each event is sent twice: under the common name, then under its own. */
  function Pairs(events: seq<Event>): (r: seq<Frame>)
    ensures |r| == 2 * |events|
  {
    if events == [] then []
    else
      var n := |events| - 1;
      Pairs(events[..n]) + [Frame(events[n].seqNo, PRIMARY), Frame(events[n].seqNo, events[n].name)]
  }

  /** How many events the first `n` frames begin. */
  function Begun(n: nat): nat {
    (n + 1) / 2
  }

  /** 1 when the last begun event still lacks its second frame. */
  function Odd(n: nat): nat {
    n % 2
  }

  lemma BegunSteps(n: nat)
    ensures 2 * Begun(n) == n + Odd(n)
    ensures n > 0 ==> Begun(n - 1) == Begun(n) - n % 2 && 1 <= Begun(n)
    ensures n > 2 ==> Begun(n - 2) == Begun(n) - 1
    ensures forall m: nat :: n <= 2 * m ==> Begun(n) <= m
  {}

  /** Frame by frame: an event's common frame, then its own. */
  lemma {:induction false} PairsAt(events: seq<Event>, n: nat)
    requires 0 < n <= 2 * |events|
    ensures 1 <= Begun(n) <= |events|
    ensures Pairs(events)[n - 1]
         == Frame(events[Begun(n) - 1].seqNo, if n % 2 == 1 then PRIMARY else events[Begun(n) - 1].name)
  {
    BegunSteps(n);
    var last := |events| - 1;
    if n <= 2 * last {
      PairsAt(events[..last], n);
    }
  }

  lemma {:induction false} PairsConcat(s: seq<Event>, t: seq<Event>)
    ensures Pairs(s + t) == Pairs(s) + Pairs(t)
  {
    if t == [] {
      assert s + t == s;
    } else {
      var n := |t| - 1;
      assert (s + t)[..|s| + n] == s + t[..n];
      PairsConcat(s, t[..n]);
    }
  }

  /* ---------- The generator ---------- */

  ghost predicate Growing(logs: seq<seq<Event>>) {
    && (forall i :: 0 <= i < |logs| ==> IsLog(logs[i]))
    && forall i, j :: 0 <= i <= j < |logs| ==> logs[i] <= logs[j]
  }

  /** The frames of the first `m` events after `after`, and the position they leave. */
  ghost predicate Sent(log: seq<Event>, after: nat, m: nat, frames: seq<Frame>, sequence: nat) {
    var all := Since(log, after);
    m <= |all| && frames == Pairs(all[..m]) && sequence == Position(all, m, after)
  }

  lemma SentLater(log: seq<Event>, more: seq<Event>, after: nat, m: nat, frames: seq<Frame>, sequence: nat)
    requires Sent(log, after, m, frames, sequence) && log <= more
    ensures Sent(more, after, m, frames, sequence)
  {
    SinceGrows(log, more, after);
    assert Since(more, after)[..m] == Since(log, after)[..m];
  }

  lemma SentOneMore(log: seq<Event>, after: nat, m: nat, frames: seq<Frame>, sequence: nat, e: Event)
    requires Sent(log, after, m, frames, sequence) && m < |Since(log, after)| && e == Since(log, after)[m]
    ensures Sent(log, after, m + 1, frames + [Frame(e.seqNo, PRIMARY), Frame(e.seqNo, e.name)], e.seqNo)
  {
    var all := Since(log, after);
    assert all[..m + 1][..m] == all[..m];
  }

  /** How many events have been sent after these polls: each sends a whole page or all that is
      left. */
  ghost function Progress(logs: seq<seq<Event>>, after: nat): nat {
    if logs == [] then 0
    else
      var n := |logs| - 1;
      var before, total := Progress(logs[..n], after), |Since(logs[n], after)|;
      if before + 100 <= total then before + 100 else total
  }

  /** While the log stays quiet, the polls drain it page by page. */
  lemma {:induction false} QuietLogDrains(logs: seq<seq<Event>>, after: nat, quiet: nat)
    requires quiet <= |logs| && logs != []
    requires forall i :: |logs| - quiet <= i < |logs| ==> logs[i] == logs[|logs| - 1]
    ensures Progress(logs, after) <= |Since(logs[|logs| - 1], after)|
    ensures 100 * quiet >= |Since(logs[|logs| - 1], after)| ==>
              Progress(logs, after) == |Since(logs[|logs| - 1], after)|
    ensures Progress(logs, after) >= 100 * quiet || Progress(logs, after) == |Since(logs[|logs| - 1], after)|
    decreases quiet
  {
    if quiet > 1 {
      var n := |logs| - 1;
      assert logs[..n][n - 1] == logs[n - 1] == logs[n];
      QuietLogDrains(logs[..n], after, quiet - 1);
    }
  }

  /** One poll's events, all sent. */
  method Send(ghost log: seq<Event>, ghost after: nat, ghost before: nat, events: seq<Event>, sent: seq<Frame>,
              start: nat)
    returns (frames: seq<Frame>, sequence: nat)
    requires Sent(log, after, before, sent, start)
    requires events <= Since(log, after)[before..]
    ensures Sent(log, after, before + |events|, frames, sequence)
  {
    hide Since, Sent;
    frames, sequence := sent, start;
    ghost var all := Since(log, after);
    SentWithin(log, after, before, sent, start);
    for j := 0 to |events|
      invariant Sent(log, after, before + j, frames, sequence)
    {
      var event := events[j];
      assert event == all[before..][j] == all[before + j];
      SentOneMore(log, after, before + j, frames, sequence, event);
      sequence := event.seqNo;
      frames := frames + [Frame(event.seqNo, PRIMARY), Frame(event.seqNo, event.name)];
    }
  }

  lemma SentWithin(log: seq<Event>, after: nat, m: nat, frames: seq<Frame>, sequence: nat)
    requires Sent(log, after, m, frames, sequence)
    ensures m <= |Since(log, after)|
  {}

  lemma NothingSent(log: seq<Event>, after: nat)
    ensures Sent(log, after, 0, [], after)
  {
    assert Since(log, after)[..0] == [];
  }

  lemma ListedNext(log: seq<Event>, after: nat, m: nat, frames: seq<Frame>, sequence: nat)
    requires Sent(log, after, m, frames, sequence) && IsLog(log)
    ensures var (events, all) := (ListEvents(log, sequence, PAGE), Since(log, after));
            m <= |all| && events <= all[m..] && |events| == if m + PAGE <= |all| then PAGE else |all| - m
  {
    SinceFromPosition(log, after, m);
  }

  /** The generator over the logs its polls find, one per poll, until it stops. It sends the events
      after `after` in order, without gap or repetition. */
  method Generate(logs: seq<seq<Event>>, after: nat) returns (frames: seq<Frame>, sequence: nat)
    requires Growing(logs)
    ensures logs == [] ==> frames == [] && sequence == after
    ensures logs != [] ==> Sent(logs[|logs| - 1], after, Progress(logs, after), frames, sequence)
  {
    hide Since, Sent, ListEvents, IsLog;
    frames, sequence := [], after;
    for i := 0 to |logs|
      invariant i == 0 ==> frames == [] && sequence == after
      invariant i > 0 ==> Sent(logs[i - 1], after, Progress(logs[..i], after), frames, sequence)
    {
      ghost var before := Progress(logs[..i], after);
      assert logs[..i + 1][..i] == logs[..i];
      if i == 0 {
        NothingSent(logs[0], after);
      } else {
        SentLater(logs[i - 1], logs[i], after, before, frames, sequence);
      }
      ListedNext(logs[i], after, before, frames, sequence);
      var events := ListEvents(logs[i], sequence, PAGE);
      frames, sequence := Send(logs[i], after, before, events, frames, sequence);
    }
    assert logs[..|logs|] == logs;
  }

  /* ---------- Reconnecting clients ---------- */

  function SequenceFromHeader(header: Option<int>): nat {
    match header
    case None => 0
    case Some(id) => if id > 0 then id else 0
  }

  function StartAfter(after: nat, header: Option<int>): nat {
    if after >= SequenceFromHeader(header) then after else SequenceFromHeader(header)
  }

  /** A stream starts after the greater of the number in the query and the id in the header, where a
      negative id counts as none. */
  lemma StartIs(after: nat, header: Option<int>)
    ensures StartAfter(after, header) >= after
    ensures header.Some? ==> StartAfter(after, header) >= header.value
    ensures StartAfter(after, header) == after || header == Some(StartAfter(after, header))
  {}

  /** One connection: the log as far as its generator came to see it, and the frames that arrived
      before the connection was cut. */
  datatype Connection = Connection(log: seq<Event>, received: seq<Frame>)

  /** The id the client sends when it reconnects: that of the last frame it received. */
  ghost function LastId(run: seq<Connection>): Option<int> {
    if run == [] then None
    else
      var n := |run| - 1;
      var received := run[n].received;
      if |received| == 0 then LastId(run[..n]) else Some(received[|received| - 1].id)
  }

  /** A connection may be cut after any number of frames of what its generator sends. */
  ghost predicate IsRun(after: nat, run: seq<Connection>) {
    run == []
    || (var n := |run| - 1;
        && IsRun(after, run[..n])
        && IsLog(run[n].log) && (n > 0 ==> run[n - 1].log <= run[n].log)
        && run[n].received <= Pairs(Since(run[n].log, StartAfter(after, LastId(run[..n])))))
  }

  /** What a generator sends over any logs, cut anywhere, is such a connection. */
  lemma GeneratedConnects(after: nat, run: seq<Connection>, log: seq<Event>, m: nat, frames: seq<Frame>,
                          sequence: nat, received: seq<Frame>)
    requires IsRun(after, run) && IsLog(log) && (run != [] ==> run[|run| - 1].log <= log)
    requires Sent(log, StartAfter(after, LastId(run)), m, frames, sequence) && received <= frames
    ensures IsRun(after, run + [Connection(log, received)])
  {
    var all := Since(log, StartAfter(after, LastId(run)));
    PairsConcat(all[..m], all[m..]);
    assert all == all[..m] + all[m..];
    assert (run + [Connection(log, received)])[..|run|] == run;
  }

  ghost function Received(run: seq<Connection>): seq<Frame> {
    if run == [] then [] else Received(run[..|run| - 1]) + run[|run| - 1].received
  }

  /** How many events have had their first frame delivered. */
  ghost function Delivered(run: seq<Connection>): nat {
    if run == [] then 0 else Delivered(run[..|run| - 1]) + Begun(|run[|run| - 1].received|)
  }

  /** The events, by their place, whose two frames a connection was cut between. */
  ghost function CutEvents(run: seq<Connection>): set<nat> {
    if run == [] then {}
    else
      CutEvents(run[..|run| - 1])
      + if Odd(|run[|run| - 1].received|) == 1 && Delivered(run) > 0 then {Delivered(run) - 1} else {}
  }

  /** The frames of the first `k` events, without the second frames of the events in `cut`. */
  ghost function Frames(all: seq<Event>, k: nat, cut: set<nat>): seq<Frame>
    requires k <= |all|
  {
    if k == 0 then []
    else
      var e := all[k - 1];
      Frames(all, k - 1, cut)
      + if k - 1 in cut then [Frame(e.seqNo, PRIMARY)] else [Frame(e.seqNo, PRIMARY), Frame(e.seqNo, e.name)]
  }

  lemma {:induction false} FramesSame(all: seq<Event>, more: seq<Event>, k: nat, cut: set<nat>, cut': set<nat>)
    requires k <= |all| <= |more| && all[..k] == more[..k]
    requires forall i: nat :: i < k ==> (i in cut <==> i in cut')
    ensures Frames(all, k, cut) == Frames(more, k, cut')
  {
    if k > 0 {
      assert all[k - 1] == all[..k][k - 1] == more[..k][k - 1] == more[k - 1];
      assert all[..k - 1] == all[..k][..k - 1] == more[..k][..k - 1] == more[..k - 1];
      FramesSame(all, more, k - 1, cut, cut');
    }
  }

  ghost function Ids(events: seq<Event>): (r: seq<nat>)
    ensures |r| == |events|
  {
    seq(|events|, i requires 0 <= i < |events| => events[i].seqNo)
  }

  /** The ids a client sees when it listens to the common name. */
  ghost function Handled(frames: seq<Frame>): seq<nat> {
    if frames == [] then []
    else
      var n := |frames| - 1;
      Handled(frames[..n]) + if frames[n].name == PRIMARY then [frames[n].id] else []
  }

  lemma {:induction false} HandledConcat(s: seq<Frame>, t: seq<Frame>)
    ensures Handled(s + t) == Handled(s) + Handled(t)
  {
    if t == [] {
      assert s + t == s;
    } else {
      var n := |t| - 1;
      assert (s + t)[..|s| + n] == s + t[..n];
      HandledConcat(s, t[..n]);
    }
  }

  ghost predicate OwnNames(events: seq<Event>) {
    forall e :: e in events ==> e.name != PRIMARY
  }

  lemma IdsGrow(events: seq<Event>, k: nat)
    requires 0 < k <= |events|
    ensures Ids(events[..k]) == Ids(events[..k - 1]) + [events[k - 1].seqNo]
  {}

  /** Under the common name the client sees each of the first `k` events once, cut or not. */
  lemma {:induction false} HandledOfFrames(all: seq<Event>, k: nat, cut: set<nat>)
    requires OwnNames(all) && k <= |all|
    ensures Handled(Frames(all, k, cut)) == Ids(all[..k])
  {
    if k > 0 {
      var e := all[k - 1];
      assert e in all;
      HandledOfFrames(all, k - 1, cut);
      var last := if k - 1 in cut then [Frame(e.seqNo, PRIMARY)] else [Frame(e.seqNo, PRIMARY), Frame(e.seqNo, e.name)];
      HandledConcat(Frames(all, k - 1, cut), last);
      HandledPair(e);
      IdsGrow(all, k);
      hide Handled, Ids;
    }
  }

  lemma HandledPair(e: Event)
    requires e.name != PRIMARY
    ensures Handled([Frame(e.seqNo, PRIMARY)]) == [e.seqNo]
    ensures Handled([Frame(e.seqNo, PRIMARY), Frame(e.seqNo, e.name)]) == [e.seqNo]
  {
    var first, second := Frame(e.seqNo, PRIMARY), Frame(e.seqNo, e.name);
    assert [first][..0] == [] && [first, second][..1] == [first];
  }

  ghost function IdAt(all: seq<Event>, k: nat): Option<int>
    requires k <= |all|
  {
    if k == 0 then None else Some(all[k - 1].seqNo)
  }

  /** The first `k` events have been delivered and nothing else: `last` is the id of the last frame,
      and of the events in `cut` only the first frame came. */
  ghost predicate Progressed(all: seq<Event>, k: nat, last: Option<int>, received: seq<Frame>, cut: set<nat>) {
    && k <= |all|
    && last == IdAt(all, k)
    && (forall c :: c in cut ==> c < k)
    && received == Frames(all, k, cut)
  }

  /** What a run of connections has delivered: the first events of the log and nothing else. */
  ghost predicate Caught(after: nat, run: seq<Connection>, log: seq<Event>) {
    Progressed(Since(log, after), Delivered(run), LastId(run), Received(run), CutEvents(run))
  }

  lemma StartIsPosition(after: nat, run: seq<Connection>, log: seq<Event>)
    requires Caught(after, run, log) && IsLog(log)
    ensures StartAfter(after, LastId(run)) == Position(Since(log, after), Delivered(run), after)
    ensures Since(log, StartAfter(after, LastId(run))) == Since(log, after)[Delivered(run)..]
  {
    var all, k := Since(log, after), Delivered(run);
    SinceMembers(log, after);
    if k > 0 {
      assert all[k - 1] in all;
    }
    SinceFromPosition(log, after, k);
  }

  lemma CaughtLater(after: nat, run: seq<Connection>, log: seq<Event>, more: seq<Event>)
    requires Caught(after, run, log) && log <= more
    ensures Caught(after, run, more)
  {
    SinceGrows(log, more, after);
    var all, later, k := Since(log, after), Since(more, after), Delivered(run);
    assert later[..k] == all[..k];
    FramesSame(all, later, k, CutEvents(run), CutEvents(run));
  }

  /** The cut events after `n` more frames from the k-th event on. */
  ghost function CutNow(cut: set<nat>, k: nat, n: nat): set<nat> {
    cut + if Odd(n) == 1 && k + Begun(n) > 0 then {k + Begun(n) - 1} else {}
  }

  lemma RunGrows(run: seq<Connection>, c: Connection)
    ensures Delivered(run + [c]) == Delivered(run) + Begun(|c.received|)
    ensures CutEvents(run + [c]) == CutNow(CutEvents(run), Delivered(run), |c.received|)
    ensures Received(run + [c]) == Received(run) + c.received
    ensures LastId(run + [c]) == if |c.received| == 0 then LastId(run) else Some(c.received[|c.received| - 1].id)
  {
    assert (run + [c])[..|run|] == run;
  }

  function First(e: Event): Frame {
    Frame(e.seqNo, PRIMARY)
  }

  function Second(e: Event): Frame {
    Frame(e.seqNo, e.name)
  }

  lemma FirstOfPair(all: seq<Event>, m: nat, cut: set<nat>)
    requires m < |all| && m !in cut
    ensures Frames(all, m + 1, cut + {m}) == Frames(all, m, cut) + [First(all[m])]
  {
    FramesSame(all, all, m, cut + {m}, cut);
  }

  lemma SecondOfPair(all: seq<Event>, m: nat, cut: set<nat>)
    requires m < |all| && m !in cut
    ensures Frames(all, m + 1, cut) == Frames(all, m + 1, cut + {m}) + [Second(all[m])]
  {
    FirstOfPair(all, m, cut);
    assert [First(all[m]), Second(all[m])] == [First(all[m])] + [Second(all[m])];
    assert Frames(all, m + 1, cut) == Frames(all, m, cut) + [First(all[m]), Second(all[m])];
  }

  /** Which event a cut after `n` frames falls into. */
  lemma CutSteps(cut: set<nat>, k: nat, n: nat)
    requires 0 < n
    ensures Begun(n) > 0
    ensures var m := k + Begun(n) - 1;
            if n % 2 == 1
            then k + Begun(n - 1) == m && CutNow(cut, k, n - 1) == cut && CutNow(cut, k, n) == cut + {m}
            else k + Begun(n - 1) == m + 1 && CutNow(cut, k, n - 1) == cut + {m} && CutNow(cut, k, n) == cut
  {
    BegunSteps(n);
    BegunSteps(n - 1);
  }

  lemma FrameOf(all: seq<Event>, k: nat, n: nat)
    requires k <= |all| && 0 < n <= 2 * |all[k..]|
    ensures 1 <= Begun(n) <= |all| - k
    ensures Pairs(all[k..])[n - 1] == if n % 2 == 1 then First(all[k + Begun(n) - 1]) else Second(all[k + Begun(n) - 1])
  {
    PairsAt(all[k..], n);
    hide Pairs, Begun;
    assert all[k..][Begun(n) - 1] == all[k + Begun(n) - 1];
  }

  lemma NextFrame(all: seq<Event>, k: nat, cut: set<nat>, n: nat)
    requires k <= |all| && 0 < n <= 2 * |all[k..]| && forall c :: c in cut ==> c < k
    ensures k + Begun(n) <= |all| && k + Begun(n - 1) <= |all|
    ensures Frames(all, k + Begun(n), CutNow(cut, k, n))
         == Frames(all, k + Begun(n - 1), CutNow(cut, k, n - 1)) + [Pairs(all[k..])[n - 1]]
  {
    FrameOf(all, k, n);
    CutSteps(cut, k, n);
    hide Frames, Pairs, CutNow, Begun, First, Second;
    var m := k + Begun(n) - 1;
    if n % 2 == 1 {
      FirstOfPair(all, m, cut);
    } else {
      SecondOfPair(all, m, cut);
    }
  }

  /** `n` frames more continue what has been delivered. */
  ghost predicate Continues(all: seq<Event>, k: nat, cut: set<nat>, n: nat)
    requires k <= |all| && n <= 2 * |all[k..]|
  {
    && k + Begun(n) <= |all|
    && Frames(all, k, cut) + Pairs(all[k..])[..n] == Frames(all, k + Begun(n), CutNow(cut, k, n))
  }

  lemma ContinuesStep(all: seq<Event>, k: nat, cut: set<nat>, n: nat)
    requires k <= |all| && 0 < n <= 2 * |all[k..]| && forall c :: c in cut ==> c < k
    requires Continues(all, k, cut, n - 1)
    ensures Continues(all, k, cut, n)
  {
    hide Frames, Pairs, CutNow, Begun;
    NextFrame(all, k, cut, n);
    var before, frames := Frames(all, k, cut), Pairs(all[k..]);
    var last, now := Frames(all, k + Begun(n - 1), CutNow(cut, k, n - 1)), Frames(all, k + Begun(n), CutNow(cut, k, n));
    assert before + frames[..n] == now by {
      OneMoreFrame(before, frames, n, last, now);
    }
  }

  lemma OneMoreFrame(before: seq<Frame>, frames: seq<Frame>, n: nat, last: seq<Frame>, now: seq<Frame>)
    requires 0 < n <= |frames| && before + frames[..n - 1] == last && now == last + [frames[n - 1]]
    ensures before + frames[..n] == now
  {}

  lemma ContinuesNone(all: seq<Event>, k: nat, cut: set<nat>)
    requires k <= |all|
    ensures Continues(all, k, cut, 0)
  {
    assert Pairs(all[k..])[..0] == [] && CutNow(cut, k, 0) == cut;
  }

  /** Frame by frame, what arrives next continues what has been delivered. */
  lemma {:induction false} FramesOn(all: seq<Event>, k: nat, cut: set<nat>, n: nat)
    requires k <= |all| && n <= 2 * |all[k..]| && forall c :: c in cut ==> c < k
    ensures Continues(all, k, cut, n)
    decreases n
  {
    hide Continues;
    if n == 0 {
      ContinuesNone(all, k, cut);
    } else {
      FramesOn(all, k, cut, n - 1);
      ContinuesStep(all, k, cut, n);
    }
  }

  /** The next frames are the first ones of the events from the k-th on, up to a cut. */
  ghost predicate Next(all: seq<Event>, k: nat, received: seq<Frame>) {
    && k <= |all|
    && |received| <= 2 * |all[k..]|
    && received == Pairs(all[k..])[..|received|]
  }

  lemma NextCounts(all: seq<Event>, k: nat, received: seq<Frame>)
    requires Next(all, k, received)
    ensures k + Begun(|received|) <= |all|
    ensures (if |received| == 0 then IdAt(all, k) else Some(received[|received| - 1].id))
         == IdAt(all, k + Begun(|received|))
  {
    var n := |received|;
    BegunSteps(n);
    if n > 0 {
      PairsAt(all[k..], n);
      hide Begun, Pairs;
      assert all[k..][Begun(n) - 1] == all[k + Begun(n) - 1];
    }
  }

  lemma ProgressOn(all: seq<Event>, k: nat, last: Option<int>, before: seq<Frame>, cut: set<nat>, received: seq<Frame>)
    requires Progressed(all, k, last, before, cut) && Next(all, k, received)
    ensures Progressed(all, k + Begun(|received|), if |received| == 0 then last else Some(received[|received| - 1].id),
                       before + received, CutNow(cut, k, |received|))
  {
    NextCounts(all, k, received);
    FramesOn(all, k, cut, |received|);
    CutsBelow(cut, k, |received|);
    hide Begun, Pairs, Frames, IdAt, CutNow;
  }

  lemma CutsBelow(cut: set<nat>, k: nat, n: nat)
    requires forall c :: c in cut ==> c < k
    ensures forall c :: c in CutNow(cut, k, n) ==> c < k + Begun(n)
  {}

  /** What arrives next are the first frames of the events not delivered yet. */
  lemma Incoming(after: nat, run: seq<Connection>, c: Connection)
    requires Caught(after, run, c.log) && IsLog(c.log)
    requires c.received <= Pairs(Since(c.log, StartAfter(after, LastId(run))))
    ensures Next(Since(c.log, after), Delivered(run), c.received)
  {
    StartIsPosition(after, run, c.log);
    CaughtWithin(after, run, c.log);
    hide Caught, StartAfter, Since, Pairs, IsLog, LastId, Delivered;
    PrefixIsTake(c.received, Pairs(Since(c.log, after)[Delivered(run)..]));
  }

  lemma CaughtWithin(after: nat, run: seq<Connection>, log: seq<Event>)
    requires Caught(after, run, log)
    ensures Delivered(run) <= |Since(log, after)|
  {}

  lemma PrefixIsTake(front: seq<Frame>, frames: seq<Frame>)
    requires front <= frames
    ensures |front| <= |frames| && front == frames[..|front|]
  {}

  lemma CaughtAgain(after: nat, run: seq<Connection>, c: Connection)
    requires Caught(after, run, c.log) && IsLog(c.log)
    requires c.received <= Pairs(Since(c.log, StartAfter(after, LastId(run))))
    ensures Caught(after, run + [c], c.log)
  {
    hide Progressed, Next, Since, IsLog, StartAfter, LastId, Delivered, CutEvents, Received, Pairs, Begun, CutNow;
    Incoming(after, run, c);
    RunGrows(run, c);
    ProgressOn(Since(c.log, after), Delivered(run), LastId(run), Received(run), CutEvents(run), c.received);
  }

  /** After any number of cuts and resumes, the client has received exactly the frames of the first
      `Delivered` events of the log after its starting point, in order and once each, without the
      second frames of the events whose pair was cut. */
  lemma {:induction false} ResumesWithoutGaps(after: nat, run: seq<Connection>)
    requires IsRun(after, run) && run != []
    ensures Caught(after, run, run[|run| - 1].log)
    decreases |run|
  {
    var n := |run| - 1;
    assert run == run[..n] + [run[n]];
    if n == 0 {
      assert run[..0] == [] && Since(run[n].log, after)[..0] == [];
    } else {
      ResumesWithoutGaps(after, run[..n]);
      assert run[..n][n - 1] == run[n - 1];
      CaughtLater(after, run[..n], run[n - 1].log, run[n].log);
    }
    CaughtAgain(after, run[..n], run[n]);
  }

  /** Under the common name it has seen exactly those events, in order and once each. */
  lemma HandledInRun(after: nat, run: seq<Connection>)
    requires IsRun(after, run) && run != [] && OwnNames(Since(run[|run| - 1].log, after))
    ensures Delivered(run) <= |Since(run[|run| - 1].log, after)|
    ensures Handled(Received(run)) == Ids(Since(run[|run| - 1].log, after)[..Delivered(run)])
  {
    ResumesWithoutGaps(after, run);
    HandledOfFrames(Since(run[|run| - 1].log, after), Delivered(run), CutEvents(run));
  }

  /** A whole connection that is never cut delivers everything its generator saw. */
  lemma Uninterrupted(after: nat, log: seq<Event>)
    requires IsLog(log)
    ensures IsRun(after, [Connection(log, Pairs(Since(log, after)))])
    ensures Received([Connection(log, Pairs(Since(log, after)))]) == Pairs(Since(log, after))
  {
    var c := Connection(log, Pairs(Since(log, after)));
    assert [c][..0] == [] && [] + c.received == c.received;
    assert IsRun(after, [c][..0]) && LastId([c][..0]) == None;
  }

  lemma {:induction false} HandledCount(events: seq<Event>)
    ensures |Handled(Pairs(events))| >= |events|
    ensures !OwnNames(events) ==> |Handled(Pairs(events))| > |events|
  {
    if events != [] {
      var n := |events| - 1;
      HandledCount(events[..n]);
      assert events == events[..n] + [events[n]];
      var first, second := Frame(events[n].seqNo, PRIMARY), Frame(events[n].seqNo, events[n].name);
      HandledConcat(Pairs(events[..n]), [first, second]);
      assert [first, second][..1] == [first];
      assert Handled([first]) == [events[n].seqNo];
      assert |Handled([first, second])| == if events[n].name == PRIMARY then 2 else 1;
    }
  }

  ghost predicate NoDuplicates(after: nat, log: seq<Event>) {
    forall run: seq<Connection> :: IsRun(after, run) && run != [] && run[|run| - 1].log == log ==>
      Handled(Received(run)) <= Ids(Since(log, after))
  }

  /** A listener to the common name sees every event at most once, whatever the cuts, exactly when no
      event of the stream is itself called by the common name. */
  lemma ExactlyOnceIff(after: nat, log: seq<Event>)
    requires IsLog(log)
    ensures NoDuplicates(after, log) <==> OwnNames(Since(log, after))
  {
    var all := Since(log, after);
    hide Since, IsLog, OwnNames, Handled, Received, IsRun, Pairs, Ids;
    if OwnNames(all) {
      forall run: seq<Connection> | IsRun(after, run) && run != [] && run[|run| - 1].log == log
        ensures Handled(Received(run)) <= Ids(all)
      {
        HandledInRun(after, run);
        IdsPrefix(all, Delivered(run));
      }
    } else {
      Uninterrupted(after, log);
      HandledCount(all);
      var run := [Connection(log, Pairs(all))];
      assert |Handled(Received(run))| > |Ids(all)|;
    }
  }

  lemma IdsPrefix(events: seq<Event>, k: nat)
    requires k <= |events|
    ensures Ids(events[..k]) <= Ids(events)
  {}

  /** An event of the stream that carries the common name reaches the listener twice. */
  lemma CommonNameTwice(seqNo: nat)
    requires seqNo > 0
    ensures var log := [Event(seqNo, true, "workbench_event")];
            IsLog(log) && Since(log, 0) == log && Handled(Pairs(log)) == [seqNo, seqNo]
  {
    var e := Event(seqNo, true, PRIMARY);
    assert [e][..0] == [] && Since([e][..0], 0) == [] && [] + [e] == [e];
    var f := Frame(seqNo, PRIMARY);
    assert Pairs([e]) == [f, f] && [f, f][..1] == [f] && [f][..0] == [];
    assert Handled([f]) == [seqNo];
  }
}
