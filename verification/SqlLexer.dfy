/** Quote-aware scanning of schema SQL: the parenthesis matcher and the top-level comma splitter,
    against one plain lexical state. */
module SqlLexer {
  import opened Options
  import opened SqlText

  /** Parenthesis depth and the quote character we are inside of, if any. */
  datatype Lex = Lex(depth: int, quote: Option<char>)

  const START := Lex(0, None)

  /** The plain scanner: a quote character opens a quotation, the same one closes it. A doubled
      quote closes and reopens. */
  function Next(st: Lex, c: char): Lex {
    if st.quote.Some? then (if c == st.quote.value then st.(quote := None) else st)
    else if c == '\'' || c == '"' then st.(quote := Some(c))
    else if c == '(' then st.(depth := st.depth + 1)
    else if c == ')' then st.(depth := st.depth - 1)
    else st
  }

  function Scan(st: Lex, s: string): Lex
    decreases |s|
  {
    if s == "" then st else Scan(Next(st, s[0]), s[1..])
  }

  lemma {:induction false} ScanConcat(st: Lex, s: string, t: string)
    ensures Scan(st, s + t) == Scan(Scan(st, s), t)
    decreases |s|
  {
    if s == "" {
      assert s + t == t;
    } else {
      assert (s + t)[1..] == s[1..] + t;
      ScanConcat(Next(st, s[0]), s[1..], t);
    }
  }

  lemma ScanCons(st: Lex, s: string, k: nat)
    requires 1 <= k <= |s|
    ensures Scan(st, s[..k]) == Scan(Next(st, s[0]), s[1..][..k - 1])
  {
    assert s[..k][1..] == s[1..][..k - 1];
  }

  lemma ScanMore(s: string, n: nat)
    requires n < |s|
    ensures Scan(START, s[..n + 1]) == Next(Scan(START, s[..n]), s[n])
  {
    assert s[..n + 1] == s[..n] + [s[n]];
    ScanConcat(START, s[..n], [s[n]]);
    assert [s[n]][1..] == "";
  }

  ghost predicate IsQuoted(s: string, n: nat)
    requires n <= |s|
  {
    Scan(START, s[..n]).quote.Some?
  }

  /** Of the first `n` characters, number `i` opens a quotation that none of the others closes. */
  ghost predicate OpensQuote(s: string, n: nat, i: nat, q: char)
    requires n <= |s|
  {
    i < n && s[i] == q && q in {'\'', '"'} && !IsQuoted(s, i) && forall j :: i < j < n ==> s[j] != q
  }

  /** A quotation lasts from a single or double quote outside of quotations to the same quote. */
  lemma {:induction false} QuotedIff(s: string, n: nat, q: char)
    requires n <= |s|
    ensures Scan(START, s[..n]).quote == Some(q) <==> exists i: nat :: OpensQuote(s, n, i, q)
  {
    if n > 0 {
      var m := n - 1;
      ScanMore(s, m);
      QuotedIff(s, m, q);
      var before := Scan(START, s[..m]);
      hide Scan;
      if i: nat :| OpensQuote(s, m, i, q) {
        assert s[m] != q ==> OpensQuote(s, n, i, q);
      }
      if s[m] == q && q in {'\'', '"'} && before.quote.None? {
        assert OpensQuote(s, n, m, q);
      }
      if i: nat :| OpensQuote(s, n, i, q) && i < m {
        assert OpensQuote(s, m, i, q);
      }
    }
  }

  ghost function OutsideQuotes(s: string, n: nat, c: char): set<nat>
    requires n <= |s|
  {
    set i: nat | i < n && s[i] == c && !IsQuoted(s, i)
  }

  /** The depth is the number of opening less that of closing parentheses outside of quotations. */
  lemma {:induction false} DepthCounts(s: string, n: nat)
    requires n <= |s|
    ensures Scan(START, s[..n]).depth == |OutsideQuotes(s, n, '(')| - |OutsideQuotes(s, n, ')')|
  {
    if n == 0 {
      assert OutsideQuotes(s, 0, '(') == {} == OutsideQuotes(s, 0, ')');
    } else {
      ScanMore(s, n - 1);
      DepthCounts(s, n - 1);
      OutsideMore(s, n - 1, '(');
      OutsideMore(s, n - 1, ')');
      assert IsQuoted(s, n - 1) <==> Scan(START, s[..n - 1]).quote.Some?;
      hide Scan, OutsideQuotes, IsQuoted;
    }
  }

  lemma OutsideMore(s: string, n: nat, c: char)
    requires n < |s|
    ensures |OutsideQuotes(s, n + 1, c)| == |OutsideQuotes(s, n, c)| + if s[n] == c && !IsQuoted(s, n) then 1 else 0
  {
    hide IsQuoted;
    assert OutsideQuotes(s, n + 1, c) == OutsideQuotes(s, n, c) + if s[n] == c && !IsQuoted(s, n) then {n} else {};
  }

  /* ---------- The matching parenthesis ---------- */

  predicate ClosesAt(st: Lex, c: char) {
    c == ')' && st.quote.None? && st.depth == 1
  }

  /** How far on the depth first returns to zero, scanning from `st`. */
  function Match(st: Lex, s: string): (r: Option<nat>)
    ensures r.Some? ==> r.value < |s|
    decreases |s|
  {
    if s == "" then None
    else if ClosesAt(st, s[0]) then Some(0)
    else match Match(Next(st, s[0]), s[1..])
      case None => None
      case Some(k) => Some(k + 1)
  }

  /** Character `k` of `s` is an unquoted closing parenthesis after which the depth is zero. */
  ghost predicate Closes(st: Lex, s: string, k: int) {
    0 <= k < |s| && s[k] == ')' && Scan(st, s[..k]).quote.None? && Scan(st, s[..k + 1]).depth == 0
  }

  /** The match is the least such character, and there is none exactly when there is no such
      character. */
  lemma {:induction false} MatchIsLeast(st: Lex, s: string)
    ensures match Match(st, s)
            case None => forall k :: !Closes(st, s, k)
            case Some(r) => Closes(st, s, r) && forall k :: k < r ==> !Closes(st, s, k)
    decreases |s|
  {
    if s != "" {
      MatchIsLeast(Next(st, s[0]), s[1..]);
      forall k | 0 <= k < |s|
        ensures Closes(st, s, k) <==> if k == 0 then ClosesAt(st, s[0]) else Closes(Next(st, s[0]), s[1..], k - 1)
      {
        ScanCons(st, s, k + 1);
        if k > 0 {
          ScanCons(st, s, k);
        }
      }
      assert forall k :: Closes(Next(st, s[0]), s[1..], k) ==> Closes(st, s, k + 1);
    }
  }

  /** `rest` is what the match of `whole` comes down to after `n` characters. */
  ghost predicate MatchedFrom(whole: Option<nat>, n: nat, rest: Option<nat>) {
    whole == match rest case None => None case Some(k) => Some(n + k)
  }

  lemma MatchStep(st: Lex, value: string, index: nat)
    requires index < |value| && !ClosesAt(st, value[index])
    ensures MatchedFrom(Match(st, value[index..]), 1, Match(Next(st, value[index]), value[index + 1..]))
  {
    assert value[index..][1..] == value[index + 1..];
  }

  /** The matcher of the source skips both characters of a doubled single quote at once. */
  method MatchingParen(value: string, open: nat) returns (r: int)
    requires open <= |value|
    ensures match Match(START, value[open..])
            case None => r == -1
            case Some(k) => r == open + k
  {
    hide Match;
    var depth := 0;
    var quote: Option<char> := None;
    var index := open;
    while index < |value|
      invariant open <= index <= |value|
      invariant MatchedFrom(Match(START, value[open..]), index - open, Match(Lex(depth, quote), value[index..]))
    {
      var character := value[index];
      if ClosesAt(Lex(depth, quote), character) {
        MatchHere(Lex(depth, quote), value[index..]);
      } else {
        MatchStep(Lex(depth, quote), value, index);
      }
      if quote.Some? {
        if character == quote.value {
          if quote.value == '\'' && index + 1 < |value| && value[index + 1] == '\'' {
            MatchStep(Lex(depth, None), value, index + 1);
            index := index + 2;
            continue;
          }
          quote := None;
        }
        index := index + 1;
        continue;
      }
      if character == '\'' || character == '"' {
        quote := Some(character);
      } else if character == '(' {
        depth := depth + 1;
      } else if character == ')' {
        depth := depth - 1;
        if depth == 0 {
          return index;
        }
      }
      index := index + 1;
    }
    MatchEnd(Lex(depth, quote), value[index..]);
    return -1;
  }

  lemma MatchHere(st: Lex, s: string)
    requires s != "" && ClosesAt(st, s[0])
    ensures Match(st, s) == Some(0)
  {}

  lemma MatchEnd(st: Lex, s: string)
    requires s == ""
    ensures Match(st, s) == None
  {}

  function Up(st: Lex): Lex {
    st.(depth := st.depth + 1)
  }

  /** Between a parenthesis and its match the depth never goes negative, and at the match every
      quotation is closed and the depth is back to zero. */
  lemma {:induction false} InteriorIsBalanced(st: Lex, s: string, j: nat)
    requires st.depth >= 0 && Match(Up(st), s).Some? && j <= Match(Up(st), s).value
    ensures Scan(st, s[..j]).depth >= 0
    ensures Scan(st, s[..Match(Up(st), s).value]) == START
    decreases |s|
  {
    if ClosesAt(Up(st), s[0]) {
      assert s[..0] == "";
    } else {
      var n := Match(Up(st), s).value;
      assert Next(Up(st), s[0]) == Up(Next(st, s[0]));
      assert s[..n][1..] == s[1..][..n - 1];
      if j > 0 {
        assert s[..j][1..] == s[1..][..j - 1];
      }
      InteriorIsBalanced(Next(st, s[0]), s[1..], if j > 0 then j - 1 else 0);
    }
  }

  /** The body of a parenthesised list, as the column parser cuts it out. */
  lemma BodyIsBalanced(sql: string, open: nat, close: nat, j: nat)
    requires open < close < |sql| && sql[open] == '(' && Match(START, sql[open..]) == Some(close - open)
    requires j <= close - open - 1
    ensures Scan(START, sql[open + 1..close][..j]).depth >= 0
    ensures Scan(START, sql[open + 1..close]) == START
  {
    var rest := sql[open + 1..];
    assert sql[open..][1..] == rest;
    assert Next(START, '(') == Up(START);
    InteriorIsBalanced(START, rest, j);
    assert rest[..j] == sql[open + 1..close][..j] && rest[..close - open - 1] == sql[open + 1..close];
  }

  /* ---------- Splitting at top-level commas ---------- */

  predicate CutsAt(st: Lex, c: char) {
    c == ',' && st == START
  }

  /** The trimmed segments between top-level commas; an empty last segment is dropped. `segment` is
      what the current segment holds so far. */
  function Split(segment: string, s: string, st: Lex): seq<string>
    decreases |s|
  {
    if s == "" then
      var tail := Strip(segment);
      if tail == "" then [] else [tail]
    else if CutsAt(st, s[0]) then [Strip(segment)] + Split("", s[1..], st)
    else Split(segment + [s[0]], s[1..], Next(st, s[0]))
  }

  /** One character that does not cut moves into the segment. */
  lemma SplitStep(value: string, start: nat, index: nat, st: Lex)
    requires start <= index < |value| && !CutsAt(st, value[index])
    ensures Split(value[start..index], value[index..], st)
         == Split(value[start..index + 1], value[index + 1..], Next(st, value[index]))
  {
    assert value[index..][1..] == value[index + 1..];
    assert value[start..index] + [value[index]] == value[start..index + 1];
  }

  lemma SplitCut(value: string, start: nat, index: nat)
    requires start <= index < |value| && value[index] == ','
    ensures Split(value[start..index], value[index..], START)
         == [Strip(value[start..index])] + Split(value[index + 1..index + 1], value[index + 1..], START)
  {
    assert value[index..][1..] == value[index + 1..];
    assert value[index + 1..index + 1] == "";
  }

  method SplitTopLevelCsv(value: string) returns (items: seq<string>)
    ensures items == Split("", value, START)
  {
    items := [];
    var depth := 0;
    var quote: Option<char> := None;
    var start, index := 0, 0;
    assert value[0..0] == "" && value[0..] == value;
    hide Split, Strip;
    while index < |value|
      invariant 0 <= start <= index <= |value|
      invariant items + Split(value[start..index], value[index..], Lex(depth, quote)) == Split("", value, START)
    {
      var character := value[index];
      if quote.Some? {
        SplitStep(value, start, index, Lex(depth, quote));
        if character == quote.value {
          if quote.value == '\'' && index + 1 < |value| && value[index + 1] == '\'' {
            SplitStep(value, start, index + 1, Lex(depth, None));
            index := index + 2;
            continue;
          }
          quote := None;
        }
        index := index + 1;
        continue;
      }
      if character == ',' && depth == 0 {
        SplitCut(value, start, index);
      } else {
        SplitStep(value, start, index, Lex(depth, quote));
      }
      if character == '\'' || character == '"' {
        quote := Some(character);
      } else if character == '(' {
        depth := depth + 1;
      } else if character == ')' {
        depth := depth - 1;
      } else if character == ',' && depth == 0 {
        items := items + [Strip(value[start..index])];
        start := index + 1;
      }
      index := index + 1;
    }
    var tail := Strip(value[start..]);
    SplitEnd(value[start..index], Lex(depth, quote));
    assert value[start..index] == value[start..] && value[index..] == "";
    if tail != "" {
      items := items + [tail];
    }
  }

  lemma SplitEnd(segment: string, st: Lex)
    ensures Split(segment, "", st) == if Strip(segment) == "" then [] else [Strip(segment)]
  {}

  ghost predicate IsCut(value: string, k: nat) {
    k < |value| && value[k] == ',' && Scan(START, value[..k]).depth == 0 && Scan(START, value[..k]).quote.None?
  }

  /** All cuts from `from` on, in increasing order. */
  ghost predicate AreCuts(value: string, from: nat, cuts: seq<nat>) {
    && (forall i, j :: 0 <= i < j < |cuts| ==> cuts[i] < cuts[j])
    && (forall k :: k in cuts <==> k >= from && IsCut(value, k))
  }

  /** The trimmed text from `start` to the first cut, between the cuts, and behind the last one
      unless it is empty. */
  ghost function Pieces(value: string, start: nat, cuts: seq<nat>): seq<string>
    requires start <= |value| && forall i :: 0 <= i < |cuts| ==> start <= cuts[i] < |value|
    requires forall i, j :: 0 <= i < j < |cuts| ==> cuts[i] < cuts[j]
    decreases |cuts|
  {
    if cuts == [] then
      if Strip(value[start..]) == "" then [] else [Strip(value[start..])]
    else
      [Strip(value[start..cuts[0]])] + Pieces(value, cuts[0] + 1, cuts[1..])
  }

  lemma {:induction false} SplitFrom(value: string, start: nat, index: nat) returns (cuts: seq<nat>)
    requires start <= index <= |value|
    ensures AreCuts(value, index, cuts) && forall i :: 0 <= i < |cuts| ==> index <= cuts[i] < |value|
    ensures Split(value[start..index], value[index..], Scan(START, value[..index])) == Pieces(value, start, cuts)
    decreases |value| - index
  {
    hide Scan, Strip;
    if index == |value| {
      assert value[start..index] == value[start..] && value[index..] == "";
      SplitEnd(value[start..index], Scan(START, value[..index]));
      cuts := [];
    } else {
      ScanMore(value, index);
      if IsCut(value, index) {
        SplitCut(value, start, index);
        assert Next(START, ',') == START;
        var later := SplitFrom(value, index + 1, index + 1);
        hide Split;
        cuts := [index] + later;
        assert cuts[1..] == later;
        assert forall k :: k in cuts <==> k == index || k in later;
      } else {
        SplitStep(value, start, index, Scan(START, value[..index]));
        cuts := SplitFrom(value, start, index + 1);
        assert forall k: nat :: k >= index && IsCut(value, k) ==> k >= index + 1;
      }
    }
  }

  /** Splitting cuts at exactly the commas outside of quotations and parentheses. */
  lemma SplitMeans(value: string) returns (cuts: seq<nat>)
    ensures AreCuts(value, 0, cuts) && forall i :: 0 <= i < |cuts| ==> cuts[i] < |value|
    ensures Split("", value, START) == Pieces(value, 0, cuts)
  {
    cuts := SplitFrom(value, 0, 0);
    assert value[0..0] == "" == value[..0] && value[0..] == value;
  }

  /* ---------- Text that stays within its segment ---------- */

  /** Scanning `s` from `st` never goes below depth zero and meets no top-level comma. */
  predicate Fine(st: Lex, s: string)
    decreases |s|
  {
    s == "" || (!CutsAt(st, s[0]) && Next(st, s[0]).depth >= 0 && Fine(Next(st, s[0]), s[1..]))
  }

  lemma {:induction false} FineConcat(st: Lex, s: string, t: string)
    ensures Fine(st, s + t) <==> Fine(st, s) && Fine(Scan(st, s), t)
    decreases |s|
  {
    if s == "" {
      assert s + t == t;
    } else {
      assert (s + t)[1..] == s[1..] + t;
      FineConcat(Next(st, s[0]), s[1..], t);
    }
  }

  lemma {:induction false} SplitPastFine(segment: string, s: string, t: string, st: Lex)
    requires Fine(st, s)
    ensures Split(segment, s + t, st) == Split(segment + s, t, Scan(st, s))
    decreases |s|
  {
    if s == "" {
      assert s + t == t && segment + s == segment;
    } else {
      assert (s + t)[1..] == s[1..] + t && segment + [s[0]] + s[1..] == segment + s;
      SplitPastFine(segment + [s[0]], s[1..], t, Next(st, s[0]));
    }
  }

  lemma {:induction false} MatchPastFine(st: Lex, s: string, t: string)
    requires Fine(st, s)
    ensures match Match(Up(Scan(st, s)), t)
            case None => Match(Up(st), s + t).None?
            case Some(k) => Match(Up(st), s + t) == Some(|s| + k)
    decreases |s|
  {
    if s == "" {
      assert s + t == t;
    } else {
      assert (s + t)[1..] == s[1..] + t;
      assert Next(Up(st), s[0]) == Up(Next(st, s[0]));
      MatchPastFine(Next(st, s[0]), s[1..], t);
    }
  }
}
