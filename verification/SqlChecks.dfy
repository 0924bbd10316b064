/** The CHECK scanner of the schema parser, and how it compares with a scan that sees quotations. */
module SqlChecks {
  import opened Options
  import opened SqlText
  import opened SqlLexer

  /* ---------- The scan ---------- */

  const CHECK := "CHECK"

  /** A span runs from a CHECK to the parenthesis closing the first one opened after it. */
  ghost predicate IsCheck(sql: string, span: (nat, nat)) {
    && span.0 < span.1 < |sql| && OccursAt(sql, CHECK, span.0)
    && var open := Find(sql, "(", span.0);
       span.0 < open <= span.1 && Match(START, sql[open..]) == Some(span.1 - open)
  }

  /** The span of the CHECK at `start`, if its parenthesis is opened and closed. */
  function SpanAt(sql: string, start: nat): (r: Option<(nat, nat)>)
    requires OccursAt(sql, CHECK, start)
    ensures r.Some? ==> start == r.value.0 < r.value.1 < |sql|
  {
    var open := Find(sql, "(", start);
    if open == -1 then None
    else
      assert sql[open..open + 1] == "(" && sql[start..start + 5] == CHECK;
      assert sql[open..open + 1][0] == '(' && sql[start..start + 5][0] == 'C';
      match Match(START, sql[open..])
      case None => None
      case Some(k) => Some((start, open + k))
  }

  /** The first CHECK at or after `index`, if its parenthesis is opened and closed. */
  function FirstCheck(sql: string, index: nat): (r: Option<(nat, nat)>)
    requires index <= |sql|
    ensures r.Some? ==> index <= r.value.0 < r.value.1 < |sql|
  {
    var start := Find(sql, CHECK, index);
    if start == -1 then None else SpanAt(sql, start)
  }

  lemma FirstCheckIs(sql: string, index: nat)
    requires index <= |sql| && FirstCheck(sql, index).Some?
    ensures IsCheck(sql, FirstCheck(sql, index).value)
    ensures forall p :: index <= p < FirstCheck(sql, index).value.0 ==> !OccursAt(sql, CHECK, p)
  {}

  function Checks(sql: string, index: nat): seq<(nat, nat)>
    requires index <= |sql|
    decreases |sql| - index
  {
    match FirstCheck(sql, index)
    case None => []
    case Some(span) => [span] + Checks(sql, span.1 + 1)
  }

  function Fragment(sql: string, span: (nat, nat)): string {
    if span.0 <= span.1 < |sql| then Normalize(sql[span.0..span.1 + 1]) else ""
  }

  /** The normalised text of every span. */
  function Fragments(sql: string, index: nat): seq<string>
    requires index <= |sql|
    decreases |sql| - index
  {
    match FirstCheck(sql, index)
    case None => []
    case Some(span) => [Fragment(sql, span)] + Fragments(sql, span.1 + 1)
  }

  lemma {:induction false} FragmentsOfChecks(sql: string, index: nat)
    requires index <= |sql|
    ensures |Fragments(sql, index)| == |Checks(sql, index)|
    ensures forall i :: 0 <= i < |Fragments(sql, index)| ==>
              Fragments(sql, index)[i] == Fragment(sql, Checks(sql, index)[i])
    decreases |sql| - index
  {
    hide FirstCheck, Fragment;
    if FirstCheck(sql, index).Some? {
      FragmentsOfChecks(sql, FirstCheck(sql, index).value.1 + 1);
    }
  }

  lemma FragmentsEnd(sql: string, index: nat)
    requires index <= |sql|
    ensures FirstCheck(sql, index).None? ==> Fragments(sql, index) == []
  {
    hide FirstCheck;
  }

  lemma FragmentsStep(sql: string, index: nat, start: nat, end: nat)
    requires index <= |sql| && FirstCheck(sql, index) == Some((start, end))
    ensures Fragments(sql, index) == [Normalize(sql[start..end + 1])] + Fragments(sql, end + 1)
  {
    hide FirstCheck, Normalize;
  }

  method CheckConstraintFragments(sql: string) returns (fragments: seq<string>)
    ensures fragments == Fragments(sql, 0)
  {
    hide OccursAt, Normalize, Match, Fragments;
    fragments := [];
    var index := 0;
    while true
      invariant index <= |sql|
      invariant fragments + Fragments(sql, index) == Fragments(sql, 0)
      decreases |sql| - index
    {
      FragmentsEnd(sql, index);
      var start := Find(sql, CHECK, index);
      if start == -1 {
        break;
      }
      var open := Find(sql, "(", start);
      if open == -1 {
        break;
      }
      var end := MatchingParen(sql, open);
      if end == -1 {
        break;
      }
      FragmentsStep(sql, index, start, end);
      fragments := fragments + [Normalize(sql[start..end + 1])];
      assert Fragments(sql, index) == [fragments[|fragments| - 1]] + Fragments(sql, end + 1);
      index := end + 1;
    }
  }

  /** Every span is a CHECK with its parenthesis, and begins after the span before it has ended. */
  lemma {:induction false} ChecksInOrder(sql: string, index: nat, i: nat, j: nat)
    requires index <= |sql| && i <= j < |Checks(sql, index)|
    ensures var spans := Checks(sql, index);
            index <= spans[i].0 && IsCheck(sql, spans[i]) && (i < j ==> spans[i].1 < spans[j].0)
    decreases |sql| - index
  {
    hide IsCheck, FirstCheck, OccursAt;
    var span := FirstCheck(sql, index).value;
    if i == 0 {
      FirstCheckIs(sql, index);
      if j > 0 {
        ChecksInOrder(sql, span.1 + 1, j - 1, j - 1);
      }
    } else {
      ChecksInOrder(sql, span.1 + 1, i - 1, j - 1);
    }
  }

  /** Position `p` is the start of a CHECK that no span covers. */
  ghost predicate Uncovered(sql: string, spans: seq<(nat, nat)>, p: int) {
    OccursAt(sql, CHECK, p) && !Covered(spans, p)
  }

  ghost predicate Covered(spans: seq<(nat, nat)>, p: int) {
    exists i :: 0 <= i < |spans| && spans[i].0 <= p <= spans[i].1
  }

  lemma CoveredCons(span: (nat, nat), later: seq<(nat, nat)>, p: int)
    ensures Covered([span] + later, p) <==> span.0 <= p <= span.1 || Covered(later, p)
  {
    var spans := [span] + later;
    assert spans[0] == span;
    assert forall i :: 0 <= i < |later| ==> later[i] == spans[i + 1];
  }

  /** Where the scan ends: past the last span. */
  function ScanEnd(spans: seq<(nat, nat)>, index: nat): nat {
    if spans == [] then index else spans[|spans| - 1].1 + 1
  }

  lemma {:induction false} ChecksEnd(sql: string, index: nat)
    requires index <= |sql|
    ensures var end := ScanEnd(Checks(sql, index), index);
            index <= end <= |sql| && FirstCheck(sql, end).None?
    decreases |sql| - index
  {
    hide FirstCheck, IsCheck;
    if FirstCheck(sql, index).Some? {
      ChecksEnd(sql, FirstCheck(sql, index).value.1 + 1);
    }
  }

  /** A CHECK is missed only when it lies beyond the end of the scan, and there (`ChecksEnd`) the next
      CHECK has a parenthesis that is never opened or never closed. */
  lemma {:induction false} ChecksMissNoneBefore(sql: string, index: nat, p: nat)
    requires index <= |sql| && index <= p && Uncovered(sql, Checks(sql, index), p)
    ensures ScanEnd(Checks(sql, index), index) <= p
    decreases |sql| - index
  {
    hide FirstCheck, IsCheck, OccursAt, Covered;
    if FirstCheck(sql, index).Some? {
      var span := FirstCheck(sql, index).value;
      FirstCheckIs(sql, index);
      CoveredCons(span, Checks(sql, span.1 + 1), p);
      ChecksMissNoneBefore(sql, span.1 + 1, p);
    }
  }

  /** Where a CHECK is missed, one at which the scan stopped stands at or before it. */
  lemma StopsAtUnclosed(sql: string, index: nat, p: nat) returns (stop: nat)
    requires index <= |sql| && index <= p && Uncovered(sql, Checks(sql, index), p)
    ensures ScanEnd(Checks(sql, index), index) <= stop <= p
    ensures Uncovered(sql, Checks(sql, index), stop) && SpanAt(sql, stop) == None
    ensures forall q :: ScanEnd(Checks(sql, index), index) <= q < stop ==> !OccursAt(sql, CHECK, q)
  {
    ChecksEnd(sql, index);
    ChecksMissNoneBefore(sql, index, p);
    var end := ScanEnd(Checks(sql, index), index);
    stop := Find(sql, CHECK, end);
    PastEndUncovered(sql, index, stop);
  }

  lemma CoveredNone(p: int)
    ensures !Covered([], p)
  {}

  lemma {:induction false} PastEndUncovered(sql: string, index: nat, p: nat)
    requires index <= |sql| && OccursAt(sql, CHECK, p) && ScanEnd(Checks(sql, index), index) <= p
    ensures Uncovered(sql, Checks(sql, index), p)
    decreases |sql| - index
  {
    hide FirstCheck, OccursAt, Covered, IsCheck;
    if FirstCheck(sql, index).Some? {
      var span := FirstCheck(sql, index).value;
      ChecksEnd(sql, span.1 + 1);
      assert ScanEnd(Checks(sql, index), index) == ScanEnd(Checks(sql, span.1 + 1), span.1 + 1);
      PastEndUncovered(sql, span.1 + 1, p);
      CoveredCons(span, Checks(sql, span.1 + 1), p);
    } else {
      CoveredNone(p);
    }
  }

  /** Read off the text alone: a CHECK that lies in no closed fragment of an earlier such CHECK. */
  predicate Free(sql: string, p: nat)
    decreases p
  {
    OccursAt(sql, CHECK, p)
    && forall q: nat :: q < p && Free(sql, q) && SpanAt(sql, q).Some? ==> SpanAt(sql, q).value.1 < p
  }

  predicate IsSpan(sql: string, span: (nat, nat)) {
    OccursAt(sql, CHECK, span.0) && SpanAt(sql, span.0) == Some(span)
  }

  lemma FirstSpan(sql: string, index: nat)
    requires index <= |sql| && FirstCheck(sql, index).Some?
    ensures IsSpan(sql, FirstCheck(sql, index).value)
  {
    hide OccursAt, SpanAt;
  }

  lemma SpanShift(sql: string, index: nat, i: nat)
    requires index <= |sql| && i < |Checks(sql, index)|
    ensures FirstCheck(sql, index).Some?
    ensures var span := FirstCheck(sql, index).value;
            if i == 0 then Checks(sql, index)[i] == span
            else i - 1 < |Checks(sql, span.1 + 1)| && Checks(sql, index)[i] == Checks(sql, span.1 + 1)[i - 1]
  {
    hide FirstCheck;
  }

  lemma {:induction false} SpanIs(sql: string, index: nat, i: nat)
    requires index <= |sql| && i < |Checks(sql, index)|
    ensures IsSpan(sql, Checks(sql, index)[i])
    decreases i
  {
    hide IsSpan, Checks, FirstCheck;
    SpanShift(sql, index, i);
    if i == 0 {
      FirstSpan(sql, index);
    } else {
      SpanIs(sql, FirstCheck(sql, index).value.1 + 1, i - 1);
    }
  }

  /** A CHECK before the end of the scan lies in a span that does not start after it. */
  lemma CoveringSpan(sql: string, q: nat) returns (j: nat)
    requires OccursAt(sql, CHECK, q) && q < ScanEnd(Checks(sql, 0), 0)
    ensures j < |Checks(sql, 0)| && Checks(sql, 0)[j].0 <= q <= Checks(sql, 0)[j].1
  {
    hide Checks, ScanEnd, OccursAt;
    if Uncovered(sql, Checks(sql, 0), q) {
      ChecksMissNoneBefore(sql, 0, q);
    }
    j :| 0 <= j < |Checks(sql, 0)| && Checks(sql, 0)[j].0 <= q <= Checks(sql, 0)[j].1;
  }

  /** The scan's fragments start at free CHECKs, and before its end at all of them. */
  lemma {:induction false} SpansStartFree(sql: string, i: nat)
    requires i < |Checks(sql, 0)|
    ensures Free(sql, Checks(sql, 0)[i].0)
    decreases i
  {
    hide Checks, SpanAt, OccursAt;
    var s := Checks(sql, 0)[i].0;
    SpanIs(sql, 0, i);
    StartsBeforeEnd(sql, i);
    forall q: nat | q < s && Free(sql, q) && SpanAt(sql, q).Some?
      ensures SpanAt(sql, q).value.1 < s
    {
      var j := CoveringSpan(sql, q);
      SpansOrdered(sql, i, j);
      SpansStartFree(sql, j);
      StartsHere(sql, q, j);
    }
  }

  /** A free CHECK within a span is the one the span starts at. */
  lemma StartsHere(sql: string, q: nat, j: nat)
    requires j < |Checks(sql, 0)| && Checks(sql, 0)[j].0 <= q <= Checks(sql, 0)[j].1
    requires Free(sql, q) && Free(sql, Checks(sql, 0)[j].0)
    ensures q == Checks(sql, 0)[j].0 && SpanAt(sql, q) == Some(Checks(sql, 0)[j])
  {
    SpanIs(sql, 0, j);
    hide Checks, SpanAt, OccursAt;
  }

  lemma StartsBeforeEnd(sql: string, i: nat)
    requires i < |Checks(sql, 0)|
    ensures Checks(sql, 0)[i].0 < Checks(sql, 0)[i].1 < ScanEnd(Checks(sql, 0), 0)
  {
    hide Checks, FirstCheck, OccursAt;
    ChecksInOrder(sql, 0, i, |Checks(sql, 0)| - 1);
    ChecksInOrder(sql, 0, |Checks(sql, 0)| - 1, |Checks(sql, 0)| - 1);
  }

  lemma SpansOrdered(sql: string, i: nat, j: nat)
    requires i < |Checks(sql, 0)| && j < |Checks(sql, 0)|
    ensures j < i ==> Checks(sql, 0)[j].1 < Checks(sql, 0)[i].0
    ensures i <= j ==> Checks(sql, 0)[i].0 <= Checks(sql, 0)[j].0
  {
    hide Checks, FirstCheck, OccursAt;
    if j < i {
      ChecksInOrder(sql, 0, j, i);
    } else {
      ChecksInOrder(sql, 0, i, j);
      ChecksInOrder(sql, 0, i, i);
    }
  }

  /** The CHECK at which the scan stops is free. */
  lemma StopIsFree(sql: string, stop: nat)
    requires OccursAt(sql, CHECK, stop) && ScanEnd(Checks(sql, 0), 0) <= stop
    requires forall q :: ScanEnd(Checks(sql, 0), 0) <= q < stop ==> !OccursAt(sql, CHECK, q)
    ensures Free(sql, stop)
  {
    hide Checks, SpanAt, OccursAt;
    forall q: nat | q < stop && Free(sql, q) && SpanAt(sql, q).Some?
      ensures SpanAt(sql, q).value.1 < stop
    {
      var j := CoveringSpan(sql, q);
      StartsBeforeEnd(sql, j);
      SpansStartFree(sql, j);
      StartsHere(sql, q, j);
    }
  }

  ghost predicate AllCovered(sql: string) {
    forall p: nat :: !Uncovered(sql, Checks(sql, 0), p)
  }

  ghost predicate AllFreeClosed(sql: string) {
    forall p: nat :: Free(sql, p) ==> SpanAt(sql, p).Some?
  }

  /** The scan covers every CHECK of the text exactly when each free one has a parenthesis that is
      opened and closed; otherwise it stops at the first that has not. */
  lemma AllCoveredIff(sql: string)
    ensures AllCovered(sql) <==> AllFreeClosed(sql)
  {
    if !AllCovered(sql) {
      var p: nat :| Uncovered(sql, Checks(sql, 0), p);
      var stop := StopsAtUnclosed(sql, 0, p);
      StopIsFree(sql, stop);
      assert !AllFreeClosed(sql);
    }
    if !AllFreeClosed(sql) {
      var p: nat :| Free(sql, p) && SpanAt(sql, p) == None;
      FreeUnclosedMissed(sql, p);
      assert Uncovered(sql, Checks(sql, 0), p);
    }
  }

  lemma FreeUnclosedMissed(sql: string, p: nat)
    requires Free(sql, p) && SpanAt(sql, p) == None
    ensures Uncovered(sql, Checks(sql, 0), p)
  {
    hide Checks, SpanAt, OccursAt;
    forall i | 0 <= i < |Checks(sql, 0)|
      ensures !(Checks(sql, 0)[i].0 <= p <= Checks(sql, 0)[i].1)
    {
      if Checks(sql, 0)[i].0 <= p <= Checks(sql, 0)[i].1 {
        SpansStartFree(sql, i);
        StartsHere(sql, p, i);
      }
    }
  }

  /* ---------- The scan that sees quotations ---------- */

  predicate Unquoted(sql: string, p: nat)
    requires p <= |sql|
  {
    Scan(START, sql[..p]).quote.None?
  }

  predicate RealAt(sql: string, p: int) {
    OccursAt(sql, CHECK, p) && Unquoted(sql, p)
  }

  /** The first CHECK outside quotations. */
  function FindReal(sql: string, from: nat): (r: int)
    ensures r == -1 || (from <= r <= |sql| && RealAt(sql, r))
    ensures forall k :: from <= k && (r == -1 || k < r) ==> !RealAt(sql, k)
    decreases |sql| - from
  {
    if from > |sql| then -1
    else if RealAt(sql, from) then from
    else if from == |sql| then -1
    else FindReal(sql, from + 1)
  }

  function FirstReal(sql: string, index: nat): (r: Option<(nat, nat)>)
    requires index <= |sql|
    ensures r.Some? ==> index <= r.value.0 < r.value.1 < |sql| && RealAt(sql, r.value.0)
  {
    var start := FindReal(sql, index);
    if start == -1 then None else SpanAt(sql, start)
  }

  function RealChecks(sql: string, index: nat): seq<(nat, nat)>
    requires index <= |sql|
    decreases |sql| - index
  {
    match FirstReal(sql, index)
    case None => []
    case Some(span) => [span] + RealChecks(sql, span.1 + 1)
  }

  /** A quoted CHECK that cannot mislead the scan: it lies in a fragment of a real one, or the scan has
      stopped at or before it. */
  ghost predicate Harmless(sql: string, index: nat, q: nat)
    requires index <= |sql|
  {
    || Covered(RealChecks(sql, index), q)
    || (exists p: nat :: ScanEnd(RealChecks(sql, index), index) <= p <= q && Unclosed(sql, p))
  }

  ghost predicate Unclosed(sql: string, p: nat) {
    OccursAt(sql, CHECK, p) && SpanAt(sql, p) == None
  }

  ghost predicate AllHarmless(sql: string, index: nat)
    requires index <= |sql|
  {
    forall q: nat :: index <= q && OccursAt(sql, CHECK, q) && !Unquoted(sql, q) ==> Harmless(sql, index, q)
  }

  lemma {:induction false} RealStartsLater(sql: string, index: nat, i: nat)
    requires index <= |sql| && i < |RealChecks(sql, index)|
    ensures FirstReal(sql, index).Some? && RealChecks(sql, index)[i].0 >= FirstReal(sql, index).value.0
    ensures RealAt(sql, RealChecks(sql, index)[i].0)
    decreases |sql| - index
  {
    hide FirstReal, RealAt;
    if i > 0 {
      var span := FirstReal(sql, index).value;
      RealStartsLater(sql, span.1 + 1, i - 1);
      assert RealChecks(sql, index)[i] == RealChecks(sql, span.1 + 1)[i - 1];
    }
  }

  lemma {:induction false} RealEnd(sql: string, index: nat)
    requires index <= |sql|
    ensures index <= ScanEnd(RealChecks(sql, index), index) <= |sql|
    ensures FirstReal(sql, index).Some? ==>
              var later := FirstReal(sql, index).value.1 + 1;
              ScanEnd(RealChecks(sql, index), index) == ScanEnd(RealChecks(sql, later), later) >= later
    decreases |sql| - index
  {
    hide FirstReal;
    if FirstReal(sql, index).Some? {
      RealEnd(sql, FirstReal(sql, index).value.1 + 1);
    }
  }

  lemma FirstUnquoted(sql: string, index: nat)
    requires index <= |sql|
    requires var p := Find(sql, CHECK, index); p == -1 || Unquoted(sql, p)
    ensures FindReal(sql, index) == Find(sql, CHECK, index)
  {
    var p, r := Find(sql, CHECK, index), FindReal(sql, index);
    assert p != -1 ==> RealAt(sql, p);
    assert r != -1 ==> OccursAt(sql, CHECK, r);
    hide OccursAt, Unquoted;
  }

  /** A harmless quoted CHECK that comes first stops both scans. */
  lemma FirstQuoted(sql: string, index: nat, p: nat)
    requires index <= p <= |sql| && Find(sql, CHECK, index) == p && !Unquoted(sql, p) && Harmless(sql, index, p)
    ensures SpanAt(sql, p) == None && FirstReal(sql, index) == None
  {
    hide OccursAt, Unquoted, SpanAt;
    RealEnd(sql, index);
    if FirstReal(sql, index).Some? {
      assert FirstReal(sql, index).value.0 > p;
    }
    forall i | 0 <= i < |RealChecks(sql, index)|
      ensures RealChecks(sql, index)[i].0 > p
    {
      RealStartsLater(sql, index, i);
    }
    hide FirstReal, RealChecks;
    var u: nat :| ScanEnd(RealChecks(sql, index), index) <= u <= p && Unclosed(sql, u);
    assert u == p;
  }

  /** When every quoted CHECK is harmless, the first CHECK is the first real one. */
  lemma FirstIsReal(sql: string, index: nat)
    requires index <= |sql| && AllHarmless(sql, index)
    ensures FirstCheck(sql, index) == FirstReal(sql, index)
  {
    hide OccursAt, Unquoted, SpanAt, Harmless;
    var p := Find(sql, CHECK, index);
    if p == -1 || Unquoted(sql, p) {
      FirstUnquoted(sql, index);
    } else {
      FirstQuoted(sql, index, p);
    }
  }

  lemma HarmlessLater(sql: string, index: nat, q: nat)
    requires index <= |sql| && FirstReal(sql, index).Some? && q > FirstReal(sql, index).value.1
    ensures Harmless(sql, index, q) <==> Harmless(sql, FirstReal(sql, index).value.1 + 1, q)
  {
    hide FirstReal, Unclosed, Covered, RealChecks, ScanEnd;
    var span := FirstReal(sql, index).value;
    ScanSteps(sql, index);
    CoveredCons(span, RealChecks(sql, span.1 + 1), q);
    RealEnd(sql, index);
  }

  lemma AllHarmlessLater(sql: string, index: nat)
    requires index <= |sql| && AllHarmless(sql, index) && FirstReal(sql, index).Some?
    ensures AllHarmless(sql, FirstReal(sql, index).value.1 + 1)
  {
    hide FirstReal, Harmless, Scan;
    var later := FirstReal(sql, index).value.1 + 1;
    forall q: nat | later <= q && OccursAt(sql, CHECK, q) && !Unquoted(sql, q)
      ensures Harmless(sql, later, q)
    {
      HarmlessLater(sql, index, q);
    }
  }

  lemma {:induction false} HarmlessIsReal(sql: string, index: nat)
    requires index <= |sql| && AllHarmless(sql, index)
    ensures Checks(sql, index) == RealChecks(sql, index)
    decreases |sql| - index
  {
    hide FirstReal, FirstCheck, AllHarmless, Checks, RealChecks;
    FirstIsReal(sql, index);
    ScanSteps(sql, index);
    if FirstReal(sql, index).Some? {
      AllHarmlessLater(sql, index);
      HarmlessIsReal(sql, FirstReal(sql, index).value.1 + 1);
    }
  }

  lemma ScanSteps(sql: string, index: nat)
    requires index <= |sql|
    ensures Checks(sql, index) == match FirstCheck(sql, index)
                                  case None => []
                                  case Some(span) => [span] + Checks(sql, span.1 + 1)
    ensures RealChecks(sql, index) == match FirstReal(sql, index)
                                      case None => []
                                      case Some(span) => [span] + RealChecks(sql, span.1 + 1)
  {
    hide FirstReal, FirstCheck;
  }

  lemma RealIsHarmless(sql: string)
    requires Checks(sql, 0) == RealChecks(sql, 0)
    ensures AllHarmless(sql, 0)
  {
    hide FirstReal, FirstCheck, Scan, Checks, RealChecks;
    forall q: nat | OccursAt(sql, CHECK, q) && !Unquoted(sql, q)
      ensures Harmless(sql, 0, q)
    {
      if Uncovered(sql, Checks(sql, 0), q) {
        var stop := StopsAtUnclosed(sql, 0, q);
        assert Unclosed(sql, stop);
      }
    }
  }

  /** The scan finds exactly the fragments of the real CHECKs if and only if every CHECK inside a
      quotation lies in such a fragment or behind a CHECK at which the scan stops. */
  lemma ChecksAreRealIff(sql: string)
    ensures Checks(sql, 0) == RealChecks(sql, 0) <==> AllHarmless(sql, 0)
  {
    hide Checks, RealChecks, AllHarmless;
    if AllHarmless(sql, 0) {
      HarmlessIsReal(sql, 0);
    }
    if Checks(sql, 0) == RealChecks(sql, 0) {
      RealIsHarmless(sql);
    }
  }

  /* ---------- Where a parenthesis is never closed ---------- */

  /** An opened parenthesis that is not matched keeps the depth up to the end of the text. */
  lemma {:induction false} UnmatchedStaysOpen(st: Lex, s: string)
    requires st.depth >= 1 && Match(st, s) == None
    ensures Scan(st, s).depth >= 1
    decreases |s|
  {
    if s != "" {
      UnmatchedStaysOpen(Next(st, s[0]), s[1..]);
    }
  }

  lemma {:induction false} ScanShifts(st: Lex, d: int, s: string)
    ensures Scan(st.(depth := st.depth + d), s) == Scan(st, s).(depth := Scan(st, s).depth + d)
    decreases |s|
  {
    if s != "" {
      assert Next(st.(depth := st.depth + d), s[0]) == Next(st, s[0]).(depth := Next(st, s[0]).depth + d);
      ScanShifts(Next(st, s[0]), d, s[1..]);
    }
  }

  /** In a text that ends at depth zero or below, a CHECK has no closed parenthesis only when no
      parenthesis opens after it, or the next one stands inside a quotation or at negative depth. */
  lemma UnclosedMeans(sql: string, p: nat)
    requires Scan(START, sql).depth <= 0 && Unclosed(sql, p)
    ensures var open := Find(sql, "(", p);
            open == -1 || !Unquoted(sql, open) || Scan(START, sql[..open]).depth < 0
  {
    var open := Find(sql, "(", p);
    if open != -1 && Unquoted(sql, open) && Scan(START, sql[..open]).depth >= 0 {
      var before := Scan(START, sql[..open]);
      assert sql == sql[..open] + sql[open..];
      ScanConcat(START, sql[..open], sql[open..]);
      assert sql[open..open + 1][0] == '(';
      assert before == START.(depth := START.depth + before.depth);
      ScanShifts(START, before.depth, sql[open..]);
      UnmatchedStaysOpen(Next(START, '('), sql[open..][1..]);
    }
  }

  /* ---------- Two statements ---------- */

  lemma {:induction false} InertScan(st: Lex, s: string)
    requires st.quote.None? && '\'' !in s && '"' !in s && '(' !in s && ')' !in s
    ensures Scan(st, s) == st
    decreases |s|
  {
    if s != "" {
      assert s[0] in s && forall c :: c in s[1..] ==> c in s;
      InertScan(st, s[1..]);
    }
  }

  /** Text ending in a quotation mark and without a K, then a CHECK: that is the first one. */
  lemma FirstAfterMark(head: string, tail: string)
    requires head != "" && head[|head| - 1] == '\'' && 'K' !in head && OccursAt(tail, CHECK, 0)
    ensures Find(head + tail, CHECK, 0) == |head|
  {
    var sql, n := head + tail, |head|;
    assert sql[n..n + 5] == tail[0..5];
    assert OccursAt(sql, CHECK, n);
    forall k | 0 <= k < n
      ensures !OccursAt(sql, CHECK, k)
    {
      if k + 5 <= |sql| {
        if k + 4 < n {
          assert sql[k..k + 5][4] == head[k + 4] && head[k + 4] in head;
        } else {
          assert CHECK[n - 1 - k] in CHECK && '\'' !in CHECK;
          assert sql[k..k + 5][n - 1 - k] == '\'';
        }
      }
    }
  }

  /** The first opening parenthesis of a text is found there. */
  lemma OpenAfter(head: string, front: string, rest: string)
    requires '(' !in front && rest != "" && rest[0] == '('
    ensures Find(head + (front + rest), "(", |head|) == |head| + |front|
  {
    var sql, n := head + (front + rest), |head| + |front|;
    assert sql[n..n + 1] == "(";
    assert OccursAt(sql, "(", n);
    forall k | |head| <= k < n
      ensures !OccursAt(sql, "(", k)
    {
      assert sql[k..k + 1][0] == front[k - |head|] && front[k - |head|] in front;
    }
  }

  /** `declared'` opens a quotation inside the column list. */
  lemma QuoteOpened(declared: string, column: string)
    requires '\'' !in declared && '"' !in declared && '(' !in declared && ')' !in declared
    requires '\'' !in column && '"' !in column && '(' !in column && ')' !in column
    ensures Scan(START, declared + "(" + column + "'") == Lex(1, Some('\''))
  {
    InertScan(START, declared);
    ScanConcat(START, declared, "(");
    assert "("[1..] == "" && "'"[1..] == "";
    ScanConcat(START, declared + "(", column);
    InertScan(Lex(1, None), column);
    ScanConcat(START, declared + "(" + column, "'");
  }

  /** The beginning of both statements, up to the default value. */
  function Head(): string {
    "CREATE TABLE t" + "(" + "a DEFAULT" + "'"
  }

  lemma HeadOpens()
    ensures Scan(START, Head()) == Lex(1, Some('\'')) && 'K' !in Head()
    ensures Head() != "" && Head()[|Head()| - 1] == '\''
  {
    QuoteOpened("CREATE TABLE t", "a DEFAULT");
    hide Scan;
    assert 'K' !in "CREATE TABLE t" && 'K' !in "a DEFAULT" && 'K' !in "(" && 'K' !in "'";
  }

  /** CREATE TABLE t(a DEFAULT'CHECK',CHECK(a)): the scan takes the default value for a constraint. */
  lemma QuotedCheckTaken()
    ensures var sql := Head() + ("CHECK',CHECK" + "(a))");
            && FirstCheck(sql, 0).Some? && !Unquoted(sql, FirstCheck(sql, 0).value.0)
            && Checks(sql, 0) != RealChecks(sql, 0)
  {
    HeadOpens();
    hide Head, Match, Scan;
    var tail := "CHECK',CHECK" + "(a))";
    var sql := Head() + tail;
    assert OccursAt(tail, CHECK, 0);
    FirstAfterMark(Head(), tail);
    OpenAfter(Head(), "CHECK',CHECK", "(a))");
    assert sql[|Head()| + 12..] == "(a))";
    SmallMatch();
    assert sql[..|Head()|] == Head();
    hide Find, OccursAt;
    TakenIsNotReal(sql);
  }

  lemma SmallMatch()
    ensures Match(START, "(a))") == Some(2)
  {
    assert "(a))"[1..] == "a))" && "a))"[1..] == "))";
    assert Match(Lex(1, None), "))") == Some(0);
    assert Match(Lex(1, None), "a))") == Some(1);
  }

  lemma TakenIsNotReal(sql: string)
    requires FirstCheck(sql, 0).Some? && !Unquoted(sql, FirstCheck(sql, 0).value.0)
    ensures Checks(sql, 0) != RealChecks(sql, 0)
  {
    assert Checks(sql, 0)[0] == FirstCheck(sql, 0).value;
    if RealChecks(sql, 0) != [] {
      RealStartsLater(sql, 0, 0);
    }
  }

  lemma {:induction false} NeverClosed(d: int, s: string)
    requires '\'' !in s
    ensures Match(Lex(d, Some('\'')), s) == None
    decreases |s|
  {
    if s != "" {
      assert s[0] in s && forall c :: c in s[1..] ==> c in s;
      NeverClosed(d, s[1..]);
    }
  }

  /** CREATE TABLE t(a DEFAULT'CHECK(',CHECK(a)): the scan stops at the default value, whose
      parenthesis is never closed, and misses the constraint. */
  lemma RealCheckMissed()
    ensures var sql := Head() + ("CHECK" + ("(" + ("'" + ",CHECK(a))")));
            && Checks(sql, 0) == []
            && exists p: nat :: RealAt(sql, p) && Uncovered(sql, Checks(sql, 0), p) && SpanAt(sql, p).Some?
  {
    var sql := Head() + ("CHECK" + ("(" + ("'" + ",CHECK(a))")));
    ScanStopsAtDefault();
    SecondCheckIsReal();
    hide Head, OccursAt, SpanAt, FirstCheck, Unquoted;
    assert Uncovered(sql, Checks(sql, 0), |Head()| + 8);
  }

  lemma ScanStopsAtDefault()
    ensures FirstCheck(Head() + ("CHECK" + ("(" + ("'" + ",CHECK(a))"))), 0) == None
  {
    HeadOpens();
    hide Head, Match, Scan;
    var tail := "CHECK" + ("(" + ("'" + ",CHECK(a))"));
    var sql := Head() + tail;
    assert OccursAt(tail, CHECK, 0);
    FirstAfterMark(Head(), tail);
    OpenAfter(Head(), "CHECK", "(" + ("'" + ",CHECK(a))"));
    assert sql[|Head()| + 5..] == "(" + ("'" + ",CHECK(a))");
    OpenQuotation();
  }

  lemma OpenQuotation()
    ensures Match(START, "(" + ("'" + ",CHECK(a))")) == None
  {
    NeverClosed(1, ",CHECK(a))");
    MatchCons(Lex(1, None), '\'', ",CHECK(a))");
    MatchCons(START, '(', "'" + ",CHECK(a))");
    hide Match;
    assert "(" + ("'" + ",CHECK(a))") == ['('] + ("'" + ",CHECK(a))") && "'" + ",CHECK(a))" == ['\''] + ",CHECK(a))";
  }

  lemma MatchCons(st: Lex, c: char, s: string)
    requires !ClosesAt(st, c) && Match(Next(st, c), s) == None
    ensures Match(st, [c] + s) == None
  {
    assert ([c] + s)[1..] == s;
  }

  lemma SecondCheckIsReal()
    ensures var (sql, p) := (Head() + ("CHECK" + ("(" + ("'" + ",CHECK(a))"))), |Head()| + 8);
            RealAt(sql, p) && SpanAt(sql, p).Some?
  {
    var sql, p := Head() + ("CHECK" + ("(" + ("'" + ",CHECK(a))"))), |Head()| + 8;
    var front := Head() + ("CHECK(" + "',");
    SecondCheckUnquoted();
    hide Head, Match, Scan;
    assert sql == front + ("CHECK" + "(a))") && sql[..p] == front;
    assert sql[p..p + 5] == CHECK;
    OpenAfter(front, "CHECK", "(a))");
    assert sql[p + 5..] == "(a))";
    SmallMatch();
  }

  lemma SecondCheckUnquoted()
    ensures Scan(START, Head() + ("CHECK(" + "',")).quote == None
  {
    HeadOpens();
    hide Head;
    ScanConcat(START, Head(), "CHECK(" + "',");
    ScanConcat(Lex(1, Some('\'')), "CHECK(", "',");
    QuotedText("CHECK(");
    assert "',"[1..] == "," && ","[1..] == "";
  }

  lemma {:induction false} QuotedText(s: string)
    requires '\'' !in s
    ensures Scan(Lex(1, Some('\'')), s) == Lex(1, Some('\''))
    decreases |s|
  {
    if s != "" {
      assert s[0] in s && forall c :: c in s[1..] ==> c in s;
      QuotedText(s[1..]);
    }
  }
}
